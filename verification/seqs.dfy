/** Generic sequence operations: Python's `list.index` and the concatenation of a list of lists. */
module Seqs {
  import opened Wrappers

  /** Position of the first occurrence of `x` in `s`. Python's `list.index` raises
      `ValueError` exactly where this returns `None`. */
  function FirstIndex<T(==)>(s: seq<T>, x: T): (r: Option<nat>)
    ensures r.None? <==> x !in s
    ensures r.Some? ==> r.value < |s| && s[r.value] == x && x !in s[..r.value]
  {
    if |s| == 0 then None
    else if s[0] == x then Some(0)
    else match FirstIndex(s[1..], x)
      case None => None
      case Some(i) =>
        assert s[..i + 1] == [s[0]] + s[1..][..i];
        Some(i + 1)
  }

  /** When `x` does not occur in `a`, its first occurrence in `a + [x] + b` is right after `a`. */
  lemma FirstIndexAfterPrefix<T>(a: seq<T>, x: T, b: seq<T>)
    requires x !in a
    ensures FirstIndex(a + [x] + b, x) == Some(|a|)
  {
    var s := a + [x] + b;
    assert s[|a|] == x;
    assert s[..|a|] == a;
  }

  /** The first occurrence is characterised by its position holding `x` and no earlier one. */
  lemma FirstIndexIs<T>(s: seq<T>, x: T, h: nat)
    requires h < |s| && s[h] == x && x !in s[..h]
    ensures FirstIndex(s, x) == Some(h)
  {
    var r := FirstIndex(s, x);
    assert forall j :: 0 <= j < h ==> s[j] != x by {
      forall j | 0 <= j < h ensures s[j] != x {
        assert s[..h][j] == s[j];
      }
    }
    assert forall j :: 0 <= j < r.value ==> s[j] != x by {
      forall j | 0 <= j < r.value ensures s[j] != x {
        assert s[..r.value][j] == s[j];
      }
    }
  }

  /** Concatenation of a sequence of sequences, as `writelines` and `''.join` produce it. */
  function Flatten<T>(ss: seq<seq<T>>): seq<T>
  {
    if |ss| == 0 then [] else ss[0] + Flatten(ss[1..])
  }

  lemma {:induction false} FlattenAppend<T>(a: seq<seq<T>>, b: seq<seq<T>>)
    ensures Flatten(a + b) == Flatten(a) + Flatten(b)
    decreases |a|
  {
    if |a| == 0 {
      assert a + b == b;
    } else {
      assert (a + b)[1..] == a[1..] + b;
      FlattenAppend(a[1..], b);
    }
  }

  lemma FlattenFrom<T>(ss: seq<seq<T>>, i: nat)
    requires i < |ss|
    ensures Flatten(ss[i..]) == ss[i] + Flatten(ss[i + 1..])
  {
    assert ss[i..][0] == ss[i];
    assert ss[i..][1..] == ss[i + 1..];
  }

  /** Flattening around two adjacent elements. */
  lemma FlattenAroundPair<T>(ss: seq<seq<T>>, h: nat)
    requires h + 1 < |ss|
    ensures Flatten(ss) == Flatten(ss[..h]) + ss[h] + ss[h + 1] + Flatten(ss[h + 2..])
  {
    calc {
      Flatten(ss);
      { assert ss == ss[..h] + ss[h..]; FlattenAppend(ss[..h], ss[h..]); }
      Flatten(ss[..h]) + Flatten(ss[h..]);
      { FlattenFrom(ss, h); }
      Flatten(ss[..h]) + (ss[h] + Flatten(ss[h + 1..]));
      { FlattenFrom(ss, h + 1); }
      Flatten(ss[..h]) + (ss[h] + (ss[h + 1] + Flatten(ss[h + 2..])));
    }
  }
}
