/** Sequence helpers shared by the store and the query functions. */
module Seqs {

  /** The elements of `s` that satisfy `keep`, in their original order:
      the behaviour of `Array.prototype.filter`. */
  function Filter<T(!new)>(s: seq<T>, keep: T -> bool): (r: seq<T>)
    ensures |r| <= |s|
  {
    if |s| == 0 then []
    else if keep(s[0]) then [s[0]] + Filter(s[1..], keep)
    else Filter(s[1..], keep)
  }

  /** An element survives filtering exactly when it was there and passes. */
  lemma {:induction false} FilterMembers<T(!new)>(s: seq<T>, keep: T -> bool)
    ensures forall x :: x in Filter(s, keep) <==> x in s && keep(x)
  {
    if |s| > 0 {
      FilterMembers(s[1..], keep);
      assert s == [s[0]] + s[1..];
    }
  }

  ghost predicate StrictlyIncreasing(idx: seq<nat>) {
    forall a, b :: 0 <= a < b < |idx| ==> idx[a] < idx[b]
  }

  /** `r` is the subsequence of `s` taken at the increasing positions `idx`. */
  ghost predicate PicksOut<T>(r: seq<T>, s: seq<T>, idx: seq<nat>) {
    && |idx| == |r|
    && StrictlyIncreasing(idx)
    && forall k :: 0 <= k < |idx| ==> idx[k] < |s| && r[k] == s[idx[k]]
  }

  /** Each position shifted one to the right. */
  function Shift(idx: seq<nat>): (r: seq<nat>)
    ensures |r| == |idx|
    ensures forall k :: 0 <= k < |idx| ==> r[k] == idx[k] + 1
  {
    seq(|idx|, k requires 0 <= k < |idx| => idx[k] + 1)
  }

  /** Positions into `s[1..]` become positions into `s` once shifted. */
  lemma ShiftPicksOut<T>(r: seq<T>, s: seq<T>, idx: seq<nat>)
    requires |s| > 0 && PicksOut(r, s[1..], idx)
    ensures PicksOut(r, s, Shift(idx))
    ensures forall k :: 0 <= k < |idx| ==> Shift(idx)[k] >= 1
  {
  }

  /** Shifting maps membership of `i - 1` to membership of `i`. */
  lemma ShiftMembers(idx: seq<nat>, i: nat)
    requires i >= 1
    ensures i in Shift(idx) <==> i - 1 in idx
  {
    var sh := Shift(idx);
    if i in sh {
      var k :| 0 <= k < |sh| && sh[k] == i;
      assert idx[k] == i - 1;
    }
    if i - 1 in idx {
      var k :| 0 <= k < |idx| && idx[k] == i - 1;
      assert sh[k] == i;
    }
  }

  /** Putting the head in front of a pick from the tail. */
  lemma ConsPicksOut<T>(r: seq<T>, s: seq<T>, idx: seq<nat>)
    requires |s| > 0 && PicksOut(r, s, idx)
    requires forall k :: 0 <= k < |idx| ==> idx[k] >= 1
    ensures PicksOut([s[0]] + r, s, [0] + idx)
  {
    var r', idx' := [s[0]] + r, [0] + idx;
    forall k | 0 <= k < |idx'|
      ensures idx'[k] < |s| && r'[k] == s[idx'[k]]
    {
      if k > 0 {
        assert idx'[k] == idx[k - 1] && r'[k] == r[k - 1];
      }
    }
  }

  /** Membership in the shifted positions of the tail, and of `0`, decided
      position by position. */
  lemma TailPositions<T(!new)>(s: seq<T>, keep: T -> bool, rest: seq<nat>)
    requires |s| > 0
    requires forall i :: 0 <= i < |s[1..]| ==> (keep(s[1..][i]) <==> i in rest)
    ensures 0 !in Shift(rest)
    ensures forall i :: 1 <= i < |s| ==> (keep(s[i]) <==> i in Shift(rest))
  {
    forall i | 1 <= i < |s|
      ensures keep(s[i]) <==> i in Shift(rest)
    {
      ShiftMembers(rest, i);
      assert s[i] == s[1..][i - 1];
    }
  }

  /** The positions picked from `s` when its head is kept. */
  lemma KeptHead<T(!new)>(s: seq<T>, keep: T -> bool, rest: seq<nat>)
    requires |s| > 0 && keep(s[0])
    requires PicksOut(Filter(s[1..], keep), s[1..], rest)
    requires forall i :: 0 <= i < |s[1..]| ==> (keep(s[1..][i]) <==> i in rest)
    ensures PicksOut(Filter(s, keep), s, [0] + Shift(rest))
    ensures forall i :: 0 <= i < |s| ==> (keep(s[i]) <==> i in [0] + Shift(rest))
  {
    assert PicksOut(Filter(s, keep), s, [0] + Shift(rest)) by {
      var tail := Filter(s[1..], keep);
      assert Filter(s, keep) == [s[0]] + tail;
      ShiftPicksOut(tail, s, rest);
      ConsPicksOut(tail, s, Shift(rest));
    }
    TailPositions(s, keep, rest);
  }

  /** The positions picked from `s` when its head is dropped. */
  lemma DroppedHead<T(!new)>(s: seq<T>, keep: T -> bool, rest: seq<nat>)
    requires |s| > 0 && !keep(s[0])
    requires PicksOut(Filter(s[1..], keep), s[1..], rest)
    ensures PicksOut(Filter(s, keep), s, Shift(rest))
  {
    var tail := Filter(s[1..], keep);
    assert Filter(s, keep) == tail;
    ShiftPicksOut(tail, s, rest);
  }

  /** `Filter` keeps exactly the positions whose element satisfies `keep`,
      and keeps them in order. */
  lemma {:induction false} FilterPositions<T(!new)>(s: seq<T>, keep: T -> bool) returns (idx: seq<nat>)
    ensures PicksOut(Filter(s, keep), s, idx)
    ensures forall i :: 0 <= i < |s| ==> (keep(s[i]) <==> i in idx)
  {
    if |s| == 0 {
      idx := [];
    } else {
      var rest := FilterPositions(s[1..], keep);
      if keep(s[0]) {
        KeptHead(s, keep, rest);
        idx := [0] + Shift(rest);
      } else {
        DroppedHead(s, keep, rest);
        TailPositions(s, keep, rest);
        idx := Shift(rest);
      }
    }
  }

  /** Filtering with a predicate every element satisfies changes nothing. */
  lemma {:induction false} FilterKeepsAll<T(!new)>(s: seq<T>, keep: T -> bool)
    requires forall i :: 0 <= i < |s| ==> keep(s[i])
    ensures Filter(s, keep) == s
  {
    if |s| > 0 {
      FilterKeepsAll(s[1..], keep);
      assert s == [s[0]] + s[1..];
    }
  }

  /** Filtering shortens the sequence exactly when some element fails `keep`. */
  lemma {:induction false} FilterShrinks<T(!new)>(s: seq<T>, keep: T -> bool)
    ensures |Filter(s, keep)| < |s| <==> exists i :: 0 <= i < |s| && !keep(s[i])
  {
    if |s| == 0 {
    } else {
      FilterShrinks(s[1..], keep);
      if keep(s[0]) && exists i :: 0 <= i < |s| && !keep(s[i]) {
        var i :| 0 <= i < |s| && !keep(s[i]);
        assert 1 <= i && !keep(s[1..][i - 1]);
      }
    }
  }

  /** Filtering distributes over concatenation. */
  lemma {:induction false} FilterConcat<T(!new)>(a: seq<T>, b: seq<T>, keep: T -> bool)
    ensures Filter(a + b, keep) == Filter(a, keep) + Filter(b, keep)
  {
    if |a| > 0 {
      FilterConcat(a[1..], b, keep);
      assert (a + b)[1..] == a[1..] + b;
      assert (a + b)[0] == a[0];
    } else {
      assert a + b == b;
    }
  }
}
