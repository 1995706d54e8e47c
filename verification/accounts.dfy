/** The text `set_root_password` and `add_normal_user` hand to `passwd` on standard input, and
    the group list `add_normal_user` passes to `useradd -G`. */
module Accounts {
  import opened Seqs
  import opened Text

  /** `(password + '\n') * 2`: the password and its confirmation, one per line. */
  function PasswordInput(password: string): (r: string)
    ensures |r| == 2 * (|password| + 1)
    ensures '\n' !in password ==> ReadLines(r) == [password + "\n", password + "\n"]
  {
    var line := password + "\n";
    var r := Repeat(line, 2);
    assert r == Flatten([line, line]) by {
      RepeatAdd(line, 1, 1);
      assert Flatten([line]) == line + Flatten([]);
      assert [line, line][1..] == [line];
    }
    if '\n' !in password then
      assert line[..|line| - 1] == password;
      ReadLinesFlatten([line, line]);
      r
    else
      r
  }

  /** `','.join(user_groups)`: the `-G` argument of `useradd`. Whatever the groups hold, it
      adds one comma between neighbours and nothing else; when no group holds a comma, the
      groups are exactly its comma-separated pieces. */
  function GroupsArgument(groups: seq<string>): (r: string)
    ensures |groups| == 0 ==> r == ""
    ensures |groups| > 0 ==> |r| == |Flatten(groups)| + |groups| - 1
    ensures DeleteAll(r, ',') == DeleteAll(Flatten(groups), ',')
    ensures |groups| > 0 && (forall i :: 0 <= i < |groups| ==> ',' !in groups[i])
            ==> Split(r, ',') == groups
  {
    var r := Join([','], groups);
    JoinWithoutSeparators(groups, ',');
    if |groups| > 0 && (forall i :: 0 <= i < |groups| ==> ',' !in groups[i]) then
      SplitJoin(groups, ',');
      r
    else
      r
  }
}
