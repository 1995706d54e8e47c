/** The Python string operations the installer applies to configuration text and command
    output: `str.replace(c, '')`, `str.strip()`, `str * n`, `sep.join`, `str.split(sep)`,
    `readlines`/`writelines`, `str(n)` and `re.findall(r'\d+', ...)`. */
module Text {
  import opened Wrappers
  import opened Seqs

  /** An ASCII decimal digit. */
  predicate IsDigit(c: char) {
    '0' <= c <= '9'
  }

  /** Python's `str.isspace`: the characters `str.strip()` removes when called without an argument. */
  predicate IsSpace(c: char) {
    || c == ' '
    || '\t' <= c <= '\r'
    || '\U{1C}' <= c <= '\U{1F}'
    || c == '\U{85}'
    || c == '\U{A0}'
    || c == '\U{1680}'
    || '\U{2000}' <= c <= '\U{200A}'
    || c == '\U{2028}'
    || c == '\U{2029}'
    || c == '\U{202F}'
    || c == '\U{205F}'
    || c == '\U{3000}'
  }

  predicate AllDigits(s: string) {
    forall i :: 0 <= i < |s| ==> IsDigit(s[i])
  }

  predicate NoDigits(s: string) {
    forall i :: 0 <= i < |s| ==> !IsDigit(s[i])
  }

  lemma NoDigitsAppend(a: string, b: string)
    requires NoDigits(a) && NoDigits(b)
    ensures NoDigits(a + b)
  {
    forall i | 0 <= i < |a + b| ensures !IsDigit((a + b)[i]) {
      if i >= |a| {
        assert (a + b)[i] == b[i - |a|];
      }
    }
  }

  // ---------------------------------------------------------------- str.replace(c, '')

  /** `s.replace(c, '')`: every occurrence of `c` removed, every other character kept. */
  function DeleteAll(s: string, c: char): (r: string)
    ensures c !in r
    ensures forall d :: d != c ==> multiset(r)[d] == multiset(s)[d]
    ensures |r| == |s| - multiset(s)[c]
    ensures c !in s ==> r == s
  {
    if |s| == 0 then []
    else
      assert s == [s[0]] + s[1..];
      if s[0] == c then DeleteAll(s[1..], c) else [s[0]] + DeleteAll(s[1..], c)
  }

  /** Deleting distributes over concatenation, so the characters that remain keep their order. */
  lemma {:induction false} DeleteAllAppend(a: string, b: string, c: char)
    ensures DeleteAll(a + b, c) == DeleteAll(a, c) + DeleteAll(b, c)
    decreases |a|
  {
    if |a| == 0 {
      assert a + b == b;
    } else {
      assert (a + b)[0] == a[0];
      assert (a + b)[1..] == a[1..] + b;
      DeleteAllAppend(a[1..], b, c);
    }
  }

  // ---------------------------------------------------------------- str.strip()

  /** The first position at or after `i` that does not hold whitespace, or `|s|` if none. */
  function SkipSpace(s: string, i: nat): (j: nat)
    requires i <= |s|
    ensures i <= j <= |s|
    ensures forall k :: i <= k < j ==> IsSpace(s[k])
    ensures j == |s| || !IsSpace(s[j])
    decreases |s| - i
  {
    if i < |s| && IsSpace(s[i]) then SkipSpace(s, i + 1) else i
  }

  /** Going back from `j` but not below `lo`: the position just past the last character that
      is not whitespace, or `lo` if none. */
  function SkipSpaceBack(s: string, lo: nat, j: nat): (i: nat)
    requires lo <= j <= |s|
    ensures lo <= i <= j
    ensures forall k :: i <= k < j ==> IsSpace(s[k])
    ensures i == lo || !IsSpace(s[i - 1])
    decreases j
  {
    if lo < j && IsSpace(s[j - 1]) then SkipSpaceBack(s, lo, j - 1) else j
  }

  /** Number of characters `str.strip()` removes from the front of `s`. */
  function StripStart(s: string): nat
  {
    SkipSpace(s, 0)
  }

  /** `s.strip()`: the window of `s` left after removing whitespace at both ends. */
  function Strip(s: string): (r: string)
    ensures StripStart(s) + |r| <= |s| && r == s[StripStart(s)..StripStart(s) + |r|]
    ensures forall k :: 0 <= k < StripStart(s) ==> IsSpace(s[k])
    ensures forall k :: StripStart(s) + |r| <= k < |s| ==> IsSpace(s[k])
    ensures r == [] || (!IsSpace(r[0]) && !IsSpace(r[|r| - 1]))
  {
    var lo := SkipSpace(s, 0);
    s[lo..SkipSpaceBack(s, lo, |s|)]
  }

  /** Stripping removes whitespace only: every other character of `s` survives. */
  lemma NonSpaceSurvivesStrip(s: string, p: nat)
    requires p < |s| && !IsSpace(s[p])
    ensures StripStart(s) <= p < StripStart(s) + |Strip(s)|
    ensures Strip(s)[p - StripStart(s)] == s[p]
    ensures s[p] in Strip(s)
  {
    var start := StripStart(s);
    var r := Strip(s);
    assert start <= p < start + |r|;
    assert r[p - start] == s[p];
  }

  // ---------------------------------------------------------------- s[:-n], endswith, occurrences

  /** `s` ends with `t`. */
  predicate EndsWith(s: string, t: string) {
    |t| <= |s| && s[|s| - |t|..] == t
  }

  /** Python's `s[:-n]`: `s` without its last `n` characters, empty when `s` is shorter. */
  function DropLast(s: string, n: nat): (r: string)
    ensures |r| == if |s| >= n then |s| - n else 0
    ensures r == s[..|r|]
  {
    if |s| >= n then s[..|s| - n] else []
  }

  /** Text ends with what was appended last. */
  lemma EndsWithAppend(a: string, t: string)
    ensures EndsWith(a + t, t)
  {
    assert (a + t)[|a|..] == t;
  }

  /** The same when `t` is appended together with a text `b` before it. */
  lemma EndsWithAppendAfter(a: string, b: string, t: string)
    ensures EndsWith(a + (b + t), t)
  {
    assert (a + (b + t))[|a| + |b|..] == t;
  }

  /** `t` occurs in `s` starting at position `p`. */
  predicate OccursAt(s: string, t: string, p: nat) {
    p + |t| <= |s| && s[p..p + |t|] == t
  }

  /** Any slice of an occurrence is the same slice of the occurring text. */
  lemma OccurrenceSlice(s: string, t: string, p: nat, a: nat, b: nat)
    requires OccursAt(s, t, p) && a <= b <= |t|
    ensures s[p + a..p + b] == t[a..b]
  {
    forall j | 0 <= j < b - a ensures s[p + a..p + b][j] == t[a..b][j] {
      assert s[p + a..p + b][j] == s[p + a + j];
      assert s[p..p + |t|][a + j] == s[p + a + j];
    }
  }

  /** `t` occurs right after `a + b` in `a + (b + t + c) + d`. */
  lemma OccursInside(a: string, b: string, t: string, c: string, d: string)
    ensures OccursAt(a + (b + t + c) + d, t, |a| + |b|)
  {
    var s := a + (b + t + c) + d;
    forall i | 0 <= i < |t| ensures s[|a| + |b| + i] == t[i] {
      assert (b + t + c)[|b| + i] == t[i];
    }
  }

  // ---------------------------------------------------------------- str * n

  /** `s * n`: `n` copies of `s` one after another. */
  function Repeat(s: string, n: nat): (r: string)
    ensures |r| == n * |s|
  {
    if n == 0 then [] else s + Repeat(s, n - 1)
  }

  /** `s * (a + b) == s * a + s * b`: with `s * 1 == s`, this fixes `s * n` as `n` copies. */
  lemma {:induction false} RepeatAdd(s: string, a: nat, b: nat)
    ensures Repeat(s, a + b) == Repeat(s, a) + Repeat(s, b)
    ensures Repeat(s, 1) == s
    decreases a
  {
    assert Repeat(s, 1) == s + Repeat(s, 0);
    if a == 0 {
      assert Repeat(s, a) + Repeat(s, b) == [] + Repeat(s, b);
    } else {
      var head := Repeat(s, a - 1);
      var tail := Repeat(s, b);
      RepeatAdd(s, a - 1, b);
      calc {
        Repeat(s, a + b);
        s + Repeat(s, a - 1 + b);
        s + (head + tail);
        (s + head) + tail;
        Repeat(s, a) + tail;
      }
    }
  }

  // ---------------------------------------------------------------- sep.join / str.split

  /** `sep.join(items)`: the items in order with one separator between neighbours, so it is
      as long as the items together plus one separator fewer than there are items. */
  function Join(sep: string, items: seq<string>): (r: string)
    ensures |items| == 0 ==> r == []
    ensures |items| > 0 ==> |r| == |Flatten(items)| + (|items| - 1) * |sep|
  {
    if |items| == 0 then []
    else if |items| == 1 then
      assert Flatten(items) == items[0] + Flatten(items[1..]);
      items[0]
    else
      assert Flatten(items) == items[0] + Flatten(items[1..]);
      items[0] + sep + Join(sep, items[1..])
  }

  /** Deleting a character drops it where it stands between two texts. */
  lemma DeleteAllAround(a: string, c: char, b: string)
    ensures DeleteAll(a + [c] + b, c) == DeleteAll(a, c) + DeleteAll(b, c)
  {
    var only: string := [c];
    assert only[1..] == [];
    assert DeleteAll(only, c) == DeleteAll([], c) == [];
    DeleteAllAppend(a, only, c);
    assert DeleteAll(a + only, c) == DeleteAll(a, c);
    DeleteAllAppend(a + only, b, c);
  }

  /** Deleting the separator character from a join leaves the items' own characters, in
      order, with that character deleted: nothing but separators is added. */
  lemma {:induction false} JoinWithoutSeparators(items: seq<string>, sep: char)
    ensures DeleteAll(Join([sep], items), sep) == DeleteAll(Flatten(items), sep)
    decreases |items|
  {
    if |items| == 1 {
      assert Flatten(items) == items[0] + Flatten(items[1..]);
      assert items[0] + [] == items[0];
    } else if |items| > 1 {
      var rest := items[1..];
      assert Flatten(items) == items[0] + Flatten(rest);
      assert Join([sep], items) == items[0] + [sep] + Join([sep], rest);
      DeleteAllAround(items[0], sep, Join([sep], rest));
      JoinWithoutSeparators(rest, sep);
      DeleteAllAppend(items[0], Flatten(rest), sep);
    }
  }

  /** `s.split(sep)` for a one-character separator: never empty, and no piece holds `sep`. */
  function Split(s: string, sep: char): (r: seq<string>)
    ensures |r| > 0
    ensures forall i :: 0 <= i < |r| ==> sep !in r[i]
    decreases |s|
  {
    match FirstIndex(s, sep)
    case None => [s]
    case Some(i) => [s[..i]] + Split(s[i + 1..], sep)
  }

  /** Text that starts with a separator-free piece and a separator splits into that piece
      followed by the pieces of the rest. */
  lemma SplitAfterPiece(piece: string, sep: char, rest: string)
    requires sep !in piece
    ensures Split(piece + [sep] + rest, sep) == [piece] + Split(rest, sep)
  {
    var s := piece + [sep] + rest;
    FirstIndexAfterPrefix(piece, sep, rest);
    assert s[..|piece|] == piece;
    assert s[|piece| + 1..] == rest;
  }

  /** Splitting a joined list gives the list back, provided it is not empty and no item
      contains the separator. */
  lemma {:induction false} SplitJoin(items: seq<string>, sep: char)
    requires |items| > 0
    requires forall i :: 0 <= i < |items| ==> sep !in items[i]
    ensures Split(Join([sep], items), sep) == items
    decreases |items|
  {
    if |items| > 1 {
      var rest := items[1..];
      assert Join([sep], items) == items[0] + [sep] + Join([sep], rest);
      SplitAfterPiece(items[0], sep, Join([sep], rest));
      assert forall i :: 0 <= i < |rest| ==> rest[i] == items[i + 1];
      SplitJoin(rest, sep);
      assert items == [items[0]] + rest;
    }
  }

  /** Joining the pieces of a split with the same separator gives the text back. */
  lemma {:induction false} JoinSplit(s: string, sep: char)
    ensures Join([sep], Split(s, sep)) == s
    decreases |s|
  {
    match FirstIndex(s, sep)
    case None =>
    case Some(i) =>
      var rest := Split(s[i + 1..], sep);
      assert Split(s, sep) == [s[..i]] + rest;
      assert ([s[..i]] + rest)[1..] == rest;
      JoinSplit(s[i + 1..], sep);
      assert s == s[..i] + [sep] + s[i + 1..];
  }

  // ---------------------------------------------------------------- readlines / writelines

  /** What `readlines` returns: every line but the last ends in a newline, no line holds a
      newline anywhere else, and no line is empty. */
  predicate WellFormedLines(lines: seq<string>) {
    forall k :: 0 <= k < |lines| ==>
      && |lines[k]| > 0
      && '\n' !in lines[k][..|lines[k]| - 1]
      && (k < |lines| - 1 ==> lines[k][|lines[k]| - 1] == '\n')
  }

  /** Putting a newline-terminated line in front of well-formed lines keeps them well formed. */
  lemma WellFormedCons(line: string, rest: seq<string>)
    requires |line| > 0 && line[|line| - 1] == '\n' && '\n' !in line[..|line| - 1]
    requires WellFormedLines(rest)
    ensures WellFormedLines([line] + rest)
  {
    var lines := [line] + rest;
    forall k | 1 <= k < |lines| ensures lines[k] == rest[k - 1] {
    }
  }

  /** `readlines`: the text cut after every newline, a final unterminated line kept. */
  function ReadLines(t: string): (r: seq<string>)
    ensures WellFormedLines(r)
    ensures Flatten(r) == t
    decreases |t|
  {
    if |t| == 0 then []
    else match FirstIndex(t, '\n')
      case None => [t]
      case Some(i) =>
        var line := t[..i + 1];
        var rest := ReadLines(t[i + 1..]);
        assert line[..i] == t[..i];
        WellFormedCons(line, rest);
        assert ([line] + rest)[1..] == rest;
        assert t == line + t[i + 1..];
        [line] + rest
  }

  /** Text that starts with a complete line reads as that line followed by the lines of
      the rest. */
  lemma ReadLinesAfterLine(body: string, rest: string)
    requires '\n' !in body
    ensures ReadLines(body + ['\n'] + rest) == [body + ['\n']] + ReadLines(rest)
  {
    var t := body + ['\n'] + rest;
    FirstIndexAfterPrefix(body, '\n', rest);
    assert t[..|body| + 1] == body + ['\n'];
    assert t[|body| + 1..] == rest;
  }

  /** The lines after the first of well-formed lines are well formed. */
  lemma WellFormedTail(lines: seq<string>)
    requires |lines| > 0 && WellFormedLines(lines)
    ensures WellFormedLines(lines[1..])
  {
    var rest := lines[1..];
    forall k | 0 <= k < |rest|
      ensures |rest[k]| > 0 && '\n' !in rest[k][..|rest[k]| - 1]
      ensures k < |rest| - 1 ==> rest[k][|rest[k]| - 1] == '\n'
    {
      assert rest[k] == lines[k + 1];
    }
  }

  /** `writelines` followed by `readlines` gives back the same well-formed lines. */
  lemma {:induction false} ReadLinesFlatten(lines: seq<string>)
    requires WellFormedLines(lines)
    ensures ReadLines(Flatten(lines)) == lines
    decreases |lines|
  {
    if |lines| > 0 {
      var l := lines[0];
      var rest := lines[1..];
      assert Flatten(lines) == l + Flatten(rest);
      WellFormedTail(lines);
      var body := l[..|l| - 1];
      assert l == body + [l[|l| - 1]];
      if l[|l| - 1] == '\n' {
        ReadLinesAfterLine(body, Flatten(rest));
        ReadLinesFlatten(rest);
        assert lines == [l] + rest;
      } else {
        assert |rest| == 0;
        assert Flatten(lines) == l;
        assert '\n' !in l;
      }
    }
  }

  // ---------------------------------------------------------------- str(n)

  /** The character of a decimal digit value. */
  function DigitChar(d: nat): (c: char)
    requires d < 10
    ensures IsDigit(c)
  {
    ('0' as int + d) as char
  }

  /** The value of a decimal digit character: the inverse of `DigitChar`. */
  function DigitValue(c: char): (d: nat)
    requires IsDigit(c)
    ensures d < 10 && DigitChar(d) == c
  {
    c as int - '0' as int
  }

  /** `str(n)` for a non-negative integer: its decimal digits, most significant first. */
  function NatToString(n: nat): (r: string)
    ensures |r| > 0 && AllDigits(r)
    ensures |r| == 1 || r[0] != '0'
    decreases n
  {
    if n < 10 then [DigitChar(n)]
    else
      var r := NatToString(n / 10) + [DigitChar(n % 10)];
      assert r[0] == NatToString(n / 10)[0];
      r
  }

  /** `int(s)` for a string of decimal digits. */
  function ParseNat(s: string): nat
    requires AllDigits(s)
  {
    if |s| == 0 then 0 else 10 * ParseNat(s[..|s| - 1]) + DigitValue(s[|s| - 1])
  }

  /** Reading back a printed number gives the number. */
  lemma {:induction false} ParseNatToString(n: nat)
    ensures ParseNat(NatToString(n)) == n
    decreases n
  {
    var s := NatToString(n);
    if n >= 10 {
      assert s[..|s| - 1] == NatToString(n / 10);
      ParseNatToString(n / 10);
    }
  }

  // ---------------------------------------------------------------- re.findall(r'\d+', s)

  /** The end of the digits starting at `i`: the first position at or after `i` that does not
      hold a digit, or `|s|` if none. */
  function DigitEnd(s: string, i: nat): (j: nat)
    requires i <= |s|
    ensures i <= j <= |s|
    ensures forall k :: i <= k < j ==> IsDigit(s[k])
    ensures j == |s| || !IsDigit(s[j])
    decreases |s| - i
  {
    if i < |s| && IsDigit(s[i]) then DigitEnd(s, i + 1) else i
  }

  /** Any position with the properties of the digit end is the digit end. */
  lemma DigitEndUnique(s: string, i: nat, j: nat)
    requires i <= j <= |s|
    requires forall k :: i <= k < j ==> IsDigit(s[k])
    requires j == |s| || !IsDigit(s[j])
    ensures DigitEnd(s, i) == j
  {
  }

  /** The matches of `\d+` in `s` from position `i` on. */
  function RunsFrom(s: string, i: nat): (r: seq<string>)
    requires i <= |s|
    ensures forall m :: 0 <= m < |r| ==> |r[m]| > 0 && AllDigits(r[m])
    ensures |r| == 0 <==> forall k :: i <= k < |s| ==> !IsDigit(s[k])
    decreases |s| - i
  {
    if i == |s| then []
    else if !IsDigit(s[i]) then RunsFrom(s, i + 1)
    else
      var j := DigitEnd(s, i);
      [s[i..j]] + RunsFrom(s, j)
  }

  /** `re.findall(r'\d+', s)`: the maximal runs of digits of `s`, left to right. */
  function DigitRuns(s: string): (r: seq<string>)
    ensures forall i :: 0 <= i < |r| ==> |r[i]| > 0 && AllDigits(r[i])
    ensures |r| == 0 <==> NoDigits(s)
  {
    RunsFrom(s, 0)
  }

  /** The matches from a position depend only on the text from that position on. */
  lemma {:induction false} RunsFromSame(s: string, i: nat, t: string, i2: nat)
    requires i <= |s| && i2 <= |t| && s[i..] == t[i2..]
    ensures RunsFrom(s, i) == RunsFrom(t, i2)
    decreases |s| - i
  {
    if i < |s| {
      assert s[i] == s[i..][0] == t[i2..][0] == t[i2];
      if !IsDigit(s[i]) {
        assert s[i + 1..] == s[i..][1..] == t[i2..][1..] == t[i2 + 1..];
        RunsFromSame(s, i + 1, t, i2 + 1);
      } else {
        var j := DigitEnd(s, i);
        var j2 := i2 + (j - i);
        forall k | i2 <= k < j2 ensures IsDigit(t[k]) {
          assert t[k] == t[i2..][k - i2] == s[i..][k - i2] == s[i + (k - i2)];
        }
        assert j2 == |t| || t[j2] == t[i2..][j - i] == s[i..][j - i] == s[j];
        DigitEndUnique(t, i2, j2);
        assert s[i..j] == s[i..][..j - i] == t[i2..][..j - i] == t[i2..j2];
        assert s[j..] == s[i..][j - i..] == t[i2..][j - i..] == t[j2..];
        RunsFromSame(s, j, t, j2);
      }
    }
  }

  /** A non-empty string of digits is one run. */
  lemma DigitRunsOfDigits(d: string)
    requires |d| > 0 && AllDigits(d)
    ensures DigitRuns(d) == [d]
  {
    DigitEndUnique(d, 0, |d|);
    assert d[0..|d|] == d;
  }

  /** The matches of `a + b` from a position inside `a` are those of `a` from there followed by
      those of `b`, when no run straddles the seam. */
  lemma {:induction false} RunsFromAppend(a: string, b: string, i: nat)
    requires i <= |a|
    requires |a| == 0 || |b| == 0 || !IsDigit(a[|a| - 1]) || !IsDigit(b[0])
    ensures RunsFrom(a + b, i) == RunsFrom(a, i) + RunsFrom(b, 0)
    decreases |a| - i
  {
    var s := a + b;
    if i == |a| {
      assert s[|a|..] == b[0..];
      RunsFromSame(s, |a|, b, 0);
    } else if !IsDigit(a[i]) {
      assert s[i] == a[i];
      RunsFromAppend(a, b, i + 1);
    } else {
      var j := DigitEnd(a, i);
      assert forall k :: i <= k < j ==> s[k] == a[k];
      assert j == |s| || !IsDigit(s[j]);
      DigitEndUnique(s, i, j);
      assert s[i..j] == a[i..j];
      RunsFromAppend(a, b, j);
    }
  }

  /** The runs of a concatenation are the runs of its parts, unless a run straddles the seam. */
  lemma DigitRunsAppend(a: string, b: string)
    requires |a| == 0 || |b| == 0 || !IsDigit(a[|a| - 1]) || !IsDigit(b[0])
    ensures DigitRuns(a + b) == DigitRuns(a) + DigitRuns(b)
  {
    RunsFromAppend(a, b, 0);
  }

  /** A digit run sitting between non-digits (or the ends of `s`) is found by the matching
      from any position at or before it. */
  lemma {:induction false} RunFoundFrom(s: string, m: nat, i: nat, k: nat)
    requires m <= i && 0 < k && i + k <= |s| && AllDigits(s[i..i + k])
    requires i == 0 || !IsDigit(s[i - 1])
    requires i + k == |s| || !IsDigit(s[i + k])
    ensures s[i..i + k] in RunsFrom(s, m)
    decreases i - m
  {
    if m == i {
      forall j | i <= j < i + k ensures IsDigit(s[j]) {
        assert s[i..i + k][j - i] == s[j];
      }
      DigitEndUnique(s, i, i + k);
    } else if !IsDigit(s[m]) {
      RunFoundFrom(s, m + 1, i, k);
    } else {
      var j := DigitEnd(s, m);
      assert !IsDigit(s[i - 1]);
      assert j <= i - 1;
      RunFoundFrom(s, j, i, k);
    }
  }

  /** A digit string sitting between non-digits (or the ends of `s`) is one of the runs of `s`. */
  lemma MaximalRunIsFound(s: string, i: nat, k: nat)
    requires 0 < k && i + k <= |s| && AllDigits(s[i..i + k])
    requires i == 0 || !IsDigit(s[i - 1])
    requires i + k == |s| || !IsDigit(s[i + k])
    ensures s[i..i + k] in DigitRuns(s)
  {
    RunFoundFrom(s, 0, i, k);
  }
}
