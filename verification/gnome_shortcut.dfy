/** `add_gnome_shortcut`: choose the number of a new custom keybinding from the list that
    `gsettings get` prints, and build the list text that `gsettings set` stores afterwards.
    The `gsettings` output is a parameter; the `gsettings` invocations are left to the caller. */
module GnomeShortcut {
  import opened Wrappers
  import opened Text

  const SchemaToList: string := "org.gnome.settings-daemon.plugins.media-keys"
  const SchemaToItem: string := "org.gnome.settings-daemon.plugins.media-keys.custom-keybinding"
  /** The settings path of the media-keys plugin. */
  const MediaKeysPath: string := "/org/gnome" + "/settings-daemon" + "/plugins" + "/media-keys"

  /** Every custom keybinding path is this prefix followed by the keybinding's number and `/`. */
  const PathToCustomKey: string := MediaKeysPath + "/custom-keybindings" + "/custom"

  /** How `gsettings` prints an empty list of strings. */
  const EmptyList: string := "@as []"

  /** The settings path of custom keybinding number `index`. */
  function ItemPath(index: nat): string {
    PathToCustomKey + NatToString(index) + "/"
  }

  /** The quoted path of keybinding `index` followed by the closing bracket of the list. */
  function LastEntry(index: nat): string {
    "'" + ItemPath(index) + "']"
  }

  /** A list holding only the keybinding `index`, as the one-element branch writes it. */
  function SingletonList(index: nat): string {
    "[" + LastEntry(index)
  }

  /** The text the append branch adds after the kept prefix of the old list. */
  function AppendedEntry(index: nat): string {
    ", " + LastEntry(index)
  }

  lemma MediaKeysPathHasNoDigits()
    ensures NoDigits(MediaKeysPath)
  {
    assert NoDigits("/org/gnome");
    assert NoDigits("/settings-daemon");
    assert NoDigits("/plugins");
    assert NoDigits("/media-keys");
    NoDigitsAppend("/org/gnome", "/settings-daemon");
    NoDigitsAppend("/org/gnome" + "/settings-daemon", "/plugins");
    NoDigitsAppend("/org/gnome" + "/settings-daemon" + "/plugins", "/media-keys");
  }

  lemma PathHasNoDigits()
    ensures NoDigits(PathToCustomKey)
  {
    MediaKeysPathHasNoDigits();
    assert NoDigits("/custom-keybindings");
    assert NoDigits("/custom");
    NoDigitsAppend(MediaKeysPath, "/custom-keybindings");
    NoDigitsAppend(MediaKeysPath + "/custom-keybindings", "/custom");
  }

  /** The only digits of a keybinding path are its number. */
  lemma ItemPathRuns(index: nat)
    ensures DigitRuns(ItemPath(index)) == [NatToString(index)]
  {
    var n := NatToString(index);
    PathHasNoDigits();
    DigitRunsOfDigits(n);
    DigitRunsAppend(PathToCustomKey, n);
    DigitRunsAppend(PathToCustomKey + n, "/");
  }

  lemma LastEntryRuns(index: nat)
    ensures DigitRuns(LastEntry(index)) == [NatToString(index)]
  {
    ItemPathRuns(index);
    DigitRunsAppend("'", ItemPath(index));
    DigitRunsAppend("'" + ItemPath(index), "']");
  }

  lemma SingletonListRuns(index: nat)
    ensures DigitRuns(SingletonList(index)) == [NatToString(index)]
  {
    LastEntryRuns(index);
    DigitRunsAppend("[", LastEntry(index));
  }

  lemma AppendedEntryRuns(index: nat)
    ensures DigitRuns(AppendedEntry(index)) == [NatToString(index)]
  {
    LastEntryRuns(index);
    DigitRunsAppend(", ", LastEntry(index));
  }

  /** The index of the new keybinding, as `add_gnome_shortcut` computes it: 0 for an empty
      list, otherwise the number of digit runs in the printed list. Since the empty list
      prints no digit, this is the number of digit runs in every case. */
  function NextIndex(listed: string): (r: nat)
    ensures Strip(listed) == EmptyList ==> r == 0
    ensures r == |DigitRuns(listed)|
    ensures r == 0 <==> NoDigits(listed)
  {
    if Strip(listed) == EmptyList then
      EmptyListHasNoDigits(listed);
      0
    else
      |DigitRuns(listed)|
  }

  /** Stripping removes only whitespace, so text that strips to `@as []` holds no digit. */
  lemma EmptyListHasNoDigits(listed: string)
    requires Strip(listed) == EmptyList
    ensures NoDigits(listed)
  {
    forall p | 0 <= p < |listed| ensures !IsDigit(listed[p]) {
      if IsDigit(listed[p]) {
        NonSpaceSurvivesStrip(listed, p);
      }
    }
  }

  /** The list text written back: a one-element list when the index is 0, otherwise the
      printed list without its last two characters (the closing bracket and the newline
      `gsettings` ends its output with) followed by the new entry and a closing bracket. */
  function NewPathList(listed: string, index: nat): (r: string)
    ensures index == 0 ==> r == SingletonList(0)
    ensures index != 0 ==> r == DropLast(listed, 2) + AppendedEntry(index)
    ensures EndsWith(r, LastEntry(index))
  {
    if index == 0 then
      EndsWithAppend("[", LastEntry(0));
      SingletonList(0)
    else
      EndsWithAppendAfter(DropLast(listed, 2), ", ", LastEntry(index));
      DropLast(listed, 2) + AppendedEntry(index)
  }

  /** The gsettings output ends with two characters that are not digits, such as `]` and a
      newline; the append branch drops exactly those. */
  predicate EndsWithTwoNonDigits(listed: string) {
    |listed| >= 2 && !IsDigit(listed[|listed| - 1]) && !IsDigit(listed[|listed| - 2])
  }

  /** The append branch keeps the numbers of the old list and adds `index` after them. */
  lemma AppendBranchRuns(listed: string, index: nat)
    requires index != 0 && EndsWithTwoNonDigits(listed)
    ensures DigitRuns(NewPathList(listed, index)) == DigitRuns(listed) + [NatToString(index)]
  {
    var kept := DropLast(listed, 2);
    var last := listed[|listed| - 2..];
    assert listed == kept + last;
    assert NoDigits(last);
    DigitRunsAppend(kept, last);
    AppendedEntryRuns(index);
    DigitRunsAppend(kept, AppendedEntry(index));
  }

  /** Adding a keybinding keeps the numbers of the old list and appends the new one, so the
      next call numbers the following keybinding one higher. */
  lemma NewPathListAppendsIndex(listed: string)
    requires NextIndex(listed) == 0 || EndsWithTwoNonDigits(listed)
    ensures DigitRuns(NewPathList(listed, NextIndex(listed)))
            == DigitRuns(listed) + [NatToString(NextIndex(listed))]
    ensures NextIndex(NewPathList(listed, NextIndex(listed))) == NextIndex(listed) + 1
  {
    var index := NextIndex(listed);
    if index == 0 {
      SingletonListRuns(0);
    } else {
      AppendBranchRuns(listed, index);
    }
  }

  /** The list text `add_gnome_shortcut` stores for the printed list `listed`. When the printed
      list ends, as `gsettings` prints it, with two characters that are not digits, the stored
      list holds the old numbers followed by the new one, and the next keybinding added gets
      the following number. */
  function UpdatedPathList(listed: string): (r: string)
    ensures EndsWith(r, LastEntry(NextIndex(listed)))
    ensures NextIndex(listed) == 0 || EndsWithTwoNonDigits(listed) ==>
              DigitRuns(r) == DigitRuns(listed) + [NatToString(NextIndex(listed))]
    ensures NextIndex(listed) == 0 || EndsWithTwoNonDigits(listed) ==>
              NextIndex(r) == NextIndex(listed) + 1
  {
    if NextIndex(listed) == 0 || EndsWithTwoNonDigits(listed) then
      NewPathListAppendsIndex(listed);
      NewPathList(listed, NextIndex(listed))
    else
      NewPathList(listed, NextIndex(listed))
  }

  /** The argument vector of `gsettings set <schema> <key> <value>`. */
  function SetCommand(schema: string, key: string, value: string): (c: seq<string>)
    ensures |c| == 5 && c[..2] == ["gsettings", "set"]
    ensures c[2] == schema && c[3] == key && c[4] == value
  {
    ["gsettings", "set", schema, key, value]
  }

  /** `"<s>"`: a value quoted for `gsettings`. */
  function Quoted(s: string): string {
    "\"" + s + "\""
  }

  /** The four `gsettings set` invocations for keybinding `index` (the source passes
      `NextIndex(listed)`): name, binding and command of the new keybinding, then the updated
      list, whose last entry is the path the first three configured. */
  function ShortcutCommands(name: string, keyBinding: string, command: string,
                            listed: string, index: nat): (r: seq<seq<string>>)
    ensures |r| == 4
    ensures forall k :: 0 <= k < 4 ==> |r[k]| == 5 && r[k][..2] == ["gsettings", "set"]
    ensures forall k :: 0 <= k < 3 ==> r[k][2] == SchemaToItem + ":" + ItemPath(index)
    ensures r[0][3..] == ["name", Quoted(name)]
    ensures r[1][3..] == ["binding", Quoted(keyBinding)]
    ensures r[2][3..] == ["command", Quoted(command)]
    ensures r[3][2..4] == [SchemaToList, "custom-keybindings"]
    ensures r[3][4] == NewPathList(listed, index)
    ensures EndsWith(r[3][4], LastEntry(index))
  {
    var item := SchemaToItem + ":" + ItemPath(index);
    var c0 := SetCommand(item, "name", Quoted(name));
    var c1 := SetCommand(item, "binding", Quoted(keyBinding));
    var c2 := SetCommand(item, "command", Quoted(command));
    var c3 := SetCommand(SchemaToList, "custom-keybindings", NewPathList(listed, index));
    var r := [c0, c1, c2, c3];
    assert r[0] == c0 && r[1] == c1 && r[2] == c2 && r[3] == c3;
    r
  }

  /** As `add_gnome_shortcut` calls them, with the index computed from the same output, the
      commands store the updated list: it ends with the keybinding the first three commands
      configured, and, for a list printed with two trailing non-digits, it keeps the old
      numbers and appends the new one. */
  lemma ShortcutCommandsStoreUpdatedList(name: string, keyBinding: string, command: string,
                                         listed: string)
    ensures var r := ShortcutCommands(name, keyBinding, command, listed, NextIndex(listed));
      r[3][4] == UpdatedPathList(listed)
      && (EndsWithTwoNonDigits(listed) ==>
            DigitRuns(r[3][4]) == DigitRuns(listed) + [NatToString(NextIndex(listed))])
  {
    assert UpdatedPathList(listed) == NewPathList(listed, NextIndex(listed));
  }

  // ---------------------------------------------------------------- numbering with gaps

  /** `gsettings` output listing only keybinding 1, as left behind after keybinding 0 was
      removed. */
  const GappedList: string := SingletonList(1) + "\n"

  /** As written, the index is a count, not a fresh number: for a list whose only entry is
      keybinding 1 it chooses 1 again, so the new keybinding overwrites the existing one. */
  lemma NextIndexReusesExistingPath()
    ensures DigitRuns(GappedList) == [NatToString(1)]
    ensures NextIndex(GappedList) == 1
    ensures OccursAt(GappedList, ItemPath(1), 2)
  {
    GappedListRuns();
    GappedListHoldsPath();
  }

  /** The only number in the gapped list is 1. */
  lemma GappedListRuns()
    ensures DigitRuns(GappedList) == [NatToString(1)]
  {
    SingletonListRuns(1);
    DigitRunsAppend(SingletonList(1), "\n");
  }

  /** The gapped list holds the path of keybinding 1, right after `['`. */
  lemma GappedListHoldsPath()
    ensures OccursAt(GappedList, ItemPath(1), 2)
  {
    OccursInside("[", "'", ItemPath(1), "']", "\n");
  }

  /** One more than the largest number among `runs`, or 0 when there is none. */
  function OnePastLargest(runs: seq<string>): (r: nat)
    requires forall k :: 0 <= k < |runs| ==> AllDigits(runs[k])
    ensures forall k :: 0 <= k < |runs| ==> ParseNat(runs[k]) < r
    ensures |runs| == 0 ==> r == 0
    ensures |runs| > 0 ==> exists k :: 0 <= k < |runs| && r == ParseNat(runs[k]) + 1
  {
    if |runs| == 0 then 0
    else
      var rest := OnePastLargest(runs[1..]);
      assert forall k :: 1 <= k < |runs| ==> runs[k] == runs[1..][k - 1];
      if ParseNat(runs[0]) + 1 >= rest then ParseNat(runs[0]) + 1 else rest
  }

  /** Digits that occur between a non-digit and a non-digit are one of the digit runs. */
  lemma EnclosedDigitsAreRun(s: string, p: nat, pre: string, digits: string, post: string)
    requires OccursAt(s, pre + digits + post, p)
    requires |pre| > 0 && !IsDigit(pre[|pre| - 1])
    requires |post| > 0 && !IsDigit(post[0])
    requires |digits| > 0 && AllDigits(digits)
    ensures digits in DigitRuns(s)
  {
    var t := pre + digits + post;
    var P, k := |pre|, |digits|;
    OccurrenceSlice(s, t, p, P, P + k);
    OccurrenceSlice(s, t, p, P - 1, P);
    OccurrenceSlice(s, t, p, P + k, P + k + 1);
    assert t[P..P + k] == digits;
    assert t[P - 1..P][0] == pre[P - 1];
    assert t[P + k..P + k + 1][0] == post[0];
    assert s[p + P - 1..p + P][0] == s[p + P - 1];
    assert s[p + P + k..p + P + k + 1][0] == s[p + P + k];
    MaximalRunIsFound(s, p + P, k);
  }

  /** If the path of keybinding `n` occurs in `listed`, its number is one of the digit runs. */
  lemma OccurringPathIsRun(listed: string, p: nat, n: nat)
    ensures OccursAt(listed, ItemPath(n), p) ==> NatToString(n) in DigitRuns(listed)
  {
    if OccursAt(listed, ItemPath(n), p) {
      PathHasNoDigits();
      EnclosedDigitsAreRun(listed, p, PathToCustomKey, NatToString(n), "/");
    }
  }

  /** A fresh index: one past the largest number in the printed list. */
  function FreshIndex(listed: string): (r: nat)
    ensures forall k :: 0 <= k < |DigitRuns(listed)| ==> ParseNat(DigitRuns(listed)[k]) < r
    ensures |DigitRuns(listed)| > 0 ==>
              exists k :: 0 <= k < |DigitRuns(listed)| && r == ParseNat(DigitRuns(listed)[k]) + 1
    ensures NoDigits(listed) ==> r == 0
    ensures forall p: nat :: !OccursAt(listed, ItemPath(r), p)
  {
    var r := OnePastLargest(DigitRuns(listed));
    ParseNatToString(r);
    assert NatToString(r) !in DigitRuns(listed);
    forall p: nat ensures !OccursAt(listed, ItemPath(r), p) {
      OccurringPathIsRun(listed, p, r);
    }
    r
  }

  /** A list naming a single keybinding `n` gets the fresh index `n + 1`. */
  lemma FreshIndexOfSingleEntry(listed: string, n: nat)
    requires DigitRuns(listed) == [NatToString(n)]
    ensures FreshIndex(listed) == n + 1
  {
    ParseNatToString(n);
  }

  /** On the gapped list the fresh index is 2, past the existing keybinding 1. */
  lemma FreshIndexSkipsExistingPath()
    ensures FreshIndex(GappedList) == 2
  {
    NextIndexReusesExistingPath();
    FreshIndexOfSingleEntry(GappedList, 1);
  }

  /** Adding a number at the end raises the bound to one past that number when it is not
      already below the bound. */
  lemma OnePastLargestAppend(runs: seq<string>, x: string)
    requires forall k :: 0 <= k < |runs| ==> AllDigits(runs[k])
    requires AllDigits(x) && OnePastLargest(runs) <= ParseNat(x)
    ensures forall k :: 0 <= k < |runs + [x]| ==> AllDigits((runs + [x])[k])
    ensures OnePastLargest(runs + [x]) == ParseNat(x) + 1
  {
    var ext := runs + [x];
    assert forall k :: 0 <= k < |runs| ==> ext[k] == runs[k];
    assert ext[|runs|] == x;
    var r := OnePastLargest(ext);
    // The bound exceeds `x`, and is one past some entry: an old entry is below the old bound,
    // which is at most `x`, so that entry can only be `x` itself.
    var k :| 0 <= k < |ext| && r == ParseNat(ext[k]) + 1;
    assert k == |runs|;
  }

  /** With the corrected index, adding a keybinding appends its number to the list, and the
      next keybinding gets the number after it. */
  lemma FreshIndexAdvances(listed: string)
    requires NoDigits(listed) || EndsWithTwoNonDigits(listed)
    ensures DigitRuns(NewPathList(listed, FreshIndex(listed)))
            == DigitRuns(listed) + [NatToString(FreshIndex(listed))]
    ensures FreshIndex(NewPathList(listed, FreshIndex(listed))) == FreshIndex(listed) + 1
  {
    var index := FreshIndex(listed);
    if index == 0 {
      SingletonListRuns(0);
      assert DigitRuns(listed) == [];
    } else {
      AppendBranchRuns(listed, index);
    }
    ParseNatToString(index);
    OnePastLargestAppend(DigitRuns(listed), NatToString(index));
  }

  /** The stored list text with the corrected index. Adding keybindings one after another
      numbers them one past the largest number so far, so no new path repeats an old one. */
  function CorrectedPathList(listed: string): (r: string)
    ensures EndsWith(r, LastEntry(FreshIndex(listed)))
    ensures NoDigits(listed) || EndsWithTwoNonDigits(listed) ==>
              DigitRuns(r) == DigitRuns(listed) + [NatToString(FreshIndex(listed))]
    ensures NoDigits(listed) || EndsWithTwoNonDigits(listed) ==>
              FreshIndex(r) == FreshIndex(listed) + 1
  {
    if NoDigits(listed) || EndsWithTwoNonDigits(listed) then
      FreshIndexAdvances(listed);
      NewPathList(listed, FreshIndex(listed))
    else
      NewPathList(listed, FreshIndex(listed))
  }
}
