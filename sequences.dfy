/** The array operations the source leans on: `indexOf` with `splice(i, 1)`,
    and `join`. Each comes with an independent reference definition or a
    characterising lemma. */
module Sequences {

  /** Index of the first element of `s` equal to `x`, or -1 when `x` does not
      occur (what `Array.prototype.indexOf` returns). */
  function IndexOf<T(==)>(s: seq<T>, x: T): (i: int)
    ensures -1 <= i < |s|
    ensures i == -1 <==> x !in s
    ensures 0 <= i ==> s[i] == x && x !in s[..i]
  {
    if s == [] then -1
    else if s[0] == x then 0
    else
      var j := IndexOf(s[1..], x);
      assert s == [s[0]] + s[1..];
      if j == -1 then -1
      else
        assert s[..j + 1] == [s[0]] + s[1..][..j];
        j + 1
  }

  /** Reference definition: `s` with its first occurrence of `x` deleted, and
      `s` itself when `x` does not occur. */
  function RemoveFirst<T(==)>(s: seq<T>, x: T): seq<T>
  {
    if s == [] then []
    else if s[0] == x then s[1..]
    else [s[0]] + RemoveFirst(s[1..], x)
  }

  /** Removing an element that is absent changes nothing. */
  lemma {:induction false} RemoveFirstAbsent<T>(s: seq<T>, x: T)
    requires x !in s
    ensures RemoveFirst(s, x) == s
  {
    if s != [] {
      assert s == [s[0]] + s[1..];
      RemoveFirstAbsent(s[1..], x);
    }
  }

  /** Cutting out the element at `IndexOf(s, x)` (the `indexOf` + `splice`
      pair) deletes exactly the first occurrence of `x`. */
  lemma {:induction false} RemoveFirstIsSplice<T>(s: seq<T>, x: T)
    requires x in s
    ensures RemoveFirst(s, x) == s[..IndexOf(s, x)] + s[IndexOf(s, x) + 1..]
  {
    if s[0] != x {
      assert s == [s[0]] + s[1..];
      assert x in s[1..];
      RemoveFirstIsSplice(s[1..], x);
      var j := IndexOf(s[1..], x);
      assert s[..j + 1] == [s[0]] + s[1..][..j];
      assert s[j + 2..] == s[1..][j + 1..];
    }
  }

  /** Removing a present element shortens the sequence by one, takes away one
      copy of that element and nothing else, and keeps the order of the rest. */
  lemma RemoveFirstPresent<T>(s: seq<T>, x: T)
    requires x in s
    ensures |RemoveFirst(s, x)| == |s| - 1
    ensures multiset(RemoveFirst(s, x)) == multiset(s) - multiset{x}
    ensures RemoveFirst(s, x) == s[..IndexOf(s, x)] + s[IndexOf(s, x) + 1..]
  {
    RemoveFirstIsSplice(s, x);
    var i := IndexOf(s, x);
    assert s == s[..i] + [x] + s[i + 1..];
  }

  /** `xs.join(sep)`: the parts with one separator between neighbours. No
      parts give the empty string; otherwise the string starts with the first
      part. */
  function Join(xs: seq<string>, sep: string): (r: string)
    ensures |xs| == 0 ==> r == ""
    ensures |xs| > 0 ==> |xs[0]| <= |r| && r[..|xs[0]|] == xs[0]
  {
    if |xs| == 0 then "" else if |xs| == 1 then xs[0] else xs[0] + sep + Join(xs[1..], sep)
  }

  /** Where part `i` starts in `Join(xs, sep)`: the lengths of the parts before
      it, each followed by one separator. */
  function Offset(xs: seq<string>, sep: string, i: nat): nat
    requires i <= |xs|
  {
    if i == 0 then 0 else |xs[0]| + |sep| + Offset(xs[1..], sep, i - 1)
  }

  /** A slice of `a + b` lying wholly in `b`. */
  lemma ConcatSlice(a: string, b: string, k: nat, m: nat)
    requires k <= m <= |b|
    ensures (a + b)[|a| + k..|a| + m] == b[k..m]
  {
  }

  /** The next part starts one part and one separator further on. */
  lemma {:induction false} OffsetStep(xs: seq<string>, sep: string, i: nat)
    requires i < |xs|
    ensures Offset(xs, sep, i + 1) == Offset(xs, sep, i) + |xs[i]| + |sep|
  {
    if i > 0 {
      OffsetStep(xs[1..], sep, i - 1);
    }
  }

  /** The joined string ends exactly where the last part ends. */
  lemma {:induction false} JoinEnd(xs: seq<string>, sep: string)
    requires |xs| > 0
    ensures |Join(xs, sep)| == Offset(xs, sep, |xs| - 1) + |xs[|xs| - 1]|
  {
    if |xs| > 1 {
      JoinEnd(xs[1..], sep);
      assert xs[1..][|xs| - 2] == xs[|xs| - 1];
    }
  }

  /** Part `i` of the joined string sits at `Offset(xs, sep, i)`. */
  lemma {:induction false} JoinPart(xs: seq<string>, sep: string, i: nat)
    requires i < |xs|
    ensures Offset(xs, sep, i) + |xs[i]| <= |Join(xs, sep)|
    ensures Join(xs, sep)[Offset(xs, sep, i)..Offset(xs, sep, i) + |xs[i]|] == xs[i]
  {
    if |xs| > 1 {
      var head, rest := xs[0] + sep, Join(xs[1..], sep);
      assert Join(xs, sep) == head + rest;
      if i > 0 {
        JoinPart(xs[1..], sep, i - 1);
        var o := Offset(xs[1..], sep, i - 1);
        ConcatSlice(head, rest, o, o + |xs[i]|);
      }
    }
  }

  /** The separator fills the gap after every part but the last. */
  lemma {:induction false} JoinGap(xs: seq<string>, sep: string, i: nat)
    requires i + 1 < |xs|
    ensures Offset(xs, sep, i) + |xs[i]| + |sep| <= |Join(xs, sep)|
    ensures Join(xs, sep)[Offset(xs, sep, i) + |xs[i]|..Offset(xs, sep, i) + |xs[i]| + |sep|] == sep
  {
    var head, rest := xs[0] + sep, Join(xs[1..], sep);
    assert Join(xs, sep) == head + rest;
    if i > 0 {
      JoinGap(xs[1..], sep, i - 1);
      var o := Offset(xs[1..], sep, i - 1) + |xs[i]|;
      ConcatSlice(head, rest, o, o + |sep|);
    }
  }

  /** Part `i` of the joined string sits at `Offset(xs, sep, i)`; a separator
      follows every part but the last, and the last part ends the string. */
  lemma JoinAt(xs: seq<string>, sep: string, i: nat)
    requires i < |xs|
    ensures Offset(xs, sep, i) + |xs[i]| <= |Join(xs, sep)|
    ensures Join(xs, sep)[Offset(xs, sep, i)..Offset(xs, sep, i) + |xs[i]|] == xs[i]
    ensures i + 1 < |xs| ==>
              Offset(xs, sep, i + 1) == Offset(xs, sep, i) + |xs[i]| + |sep| &&
              Offset(xs, sep, i + 1) <= |Join(xs, sep)| &&
              Join(xs, sep)[Offset(xs, sep, i) + |xs[i]|..Offset(xs, sep, i + 1)] == sep
    ensures i + 1 == |xs| ==> Offset(xs, sep, i) + |xs[i]| == |Join(xs, sep)|
  {
    JoinPart(xs, sep, i);
    if i + 1 < |xs| {
      OffsetStep(xs, sep, i);
      JoinGap(xs, sep, i);
    } else {
      JoinEnd(xs, sep);
    }
  }

  /** Every part of `xs` sits in `r` at its offset. */
  ghost predicate PartsAt(xs: seq<string>, sep: string, r: string)
  {
    forall i: nat | i < |xs| ::
      Offset(xs, sep, i) + |xs[i]| <= |r| &&
      r[Offset(xs, sep, i)..Offset(xs, sep, i) + |xs[i]|] == xs[i]
  }

  /** `sep` fills the gap in `r` between every two neighbouring parts. */
  ghost predicate GapsAt(xs: seq<string>, sep: string, r: string)
  {
    forall i: nat {:trigger xs[i]} | i + 1 < |xs| ::
      Offset(xs, sep, i + 1) == Offset(xs, sep, i) + |xs[i]| + |sep| &&
      Offset(xs, sep, i + 1) <= |r| &&
      r[Offset(xs, sep, i) + |xs[i]|..Offset(xs, sep, i + 1)] == sep
  }

  /** `r` is the parts `xs` joined by `sep`: empty for no parts; otherwise
      every part at its offset, `sep` filling each gap between neighbours, and
      nothing after the last part. */
  ghost predicate Joined(xs: seq<string>, sep: string, r: string)
  {
    (|xs| == 0 ==> r == "") &&
    PartsAt(xs, sep, r) && GapsAt(xs, sep, r) &&
    (|xs| > 0 ==> Offset(xs, sep, |xs| - 1) + |xs[|xs| - 1]| == |r|)
  }

  /** `JoinAt` for every part at once: `Join` produces exactly the parts in
      order, with `sep` filling each gap and nothing after the last part. */
  lemma JoinAll(xs: seq<string>, sep: string)
    ensures Joined(xs, sep, Join(xs, sep))
  {
    forall i: nat | i < |xs|
      ensures Offset(xs, sep, i) + |xs[i]| <= |Join(xs, sep)|
      ensures Join(xs, sep)[Offset(xs, sep, i)..Offset(xs, sep, i) + |xs[i]|] == xs[i]
      ensures i + 1 < |xs| ==>
                Offset(xs, sep, i + 1) == Offset(xs, sep, i) + |xs[i]| + |sep| &&
                Offset(xs, sep, i + 1) <= |Join(xs, sep)| &&
                Join(xs, sep)[Offset(xs, sep, i) + |xs[i]|..Offset(xs, sep, i + 1)] == sep
      ensures i + 1 == |xs| ==> Offset(xs, sep, i) + |xs[i]| == |Join(xs, sep)|
    {
      JoinAt(xs, sep, i);
    }
  }
}
