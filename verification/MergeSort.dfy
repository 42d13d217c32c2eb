// The recursive merge sort used to order creation timestamps (src/rtcr/util/sort.h).
//
// The merge loop has no bounds test on its two cursors.  A cursor that has consumed its own half
// jumps onto the last element of the other half and is compared from there on.
module MergeSort {

  ghost predicate Sorted(s: seq<nat>) {
    forall i, j :: 0 <= i < j < |s| ==> s[i] <= s[j]
  }

  // A pointer into one of the two halves.
  datatype Cursor = InFirst(index: nat) | InSecond(index: nat) {
    ghost predicate Within(h1: seq<nat>, h2: seq<nat>) {
      match this
      case InFirst(i) => i < |h1|
      case InSecond(i) => i < |h2|
    }

    ghost function At(h1: seq<nat>, h2: seq<nat>): nat {
      if !Within(h1, h2) then 0
      else match this
        case InFirst(i) => h1[i]
        case InSecond(i) => h2[i]
    }
  }

  // The place where a cursor waits once its own half is used up: the last element of the other half.
  ghost predicate IsParked(c: Cursor, other: seq<nat>) { c.index + 1 == |other| }

  // How many elements of each half have been emitted when the cursors are c1 and c2 and n elements
  // are out.  A parked cursor emits copies of the value it rests on, so the number emitted from the
  // second half is derived from n, not from c2.
  ghost predicate Progress(h1: seq<nat>, h2: seq<nat>, c1: Cursor, c2: Cursor, n: nat, p: nat, q: nat) {
    && p + q == n && p <= |h1| && q <= |h2|
    && (if p < |h1| then c1 == InFirst(p) else c1.InSecond? && IsParked(c1, h2))
    && (c2.InFirst? ==> q == |h2| && IsParked(c2, h1))
    && (c2.InSecond? ==> c2.index < |h2| && c2.index <= q)
    && (c2.InSecond? && p < |h1| ==> c2.index == q)
    && (c2.InSecond? && c2.index < q ==> h2[c2.index] == h2[|h2| - 1])
  }

  // out is the merge of the first p and the first q elements, and nothing left is below it.
  ghost predicate Merged(out: seq<nat>, h1: seq<nat>, h2: seq<nat>, p: nat, q: nat)
    requires p <= |h1| && q <= |h2|
  {
    && Sorted(out)
    && multiset(out) == multiset(h1[..p]) + multiset(h2[..q])
    && (forall i, j :: 0 <= i < |out| && p <= j < |h1| ==> out[i] <= h1[j])
    && (forall i, j :: 0 <= i < |out| && q <= j < |h2| ==> out[i] <= h2[j])
  }

  lemma EmitFirst(out: seq<nat>, h1: seq<nat>, h2: seq<nat>, p: nat, q: nat)
    requires p < |h1| && q <= |h2| && Sorted(h1) && Sorted(h2)
    requires Merged(out, h1, h2, p, q)
    requires q < |h2| ==> h1[p] <= h2[q]
    ensures Merged(out + [h1[p]], h1, h2, p + 1, q)
  {
    assert h1[..p + 1] == h1[..p] + [h1[p]];
    assert multiset(out + [h1[p]]) == multiset(out) + multiset{h1[p]};
  }

  lemma EmitSecond(out: seq<nat>, h1: seq<nat>, h2: seq<nat>, p: nat, q: nat)
    requires p <= |h1| && q < |h2| && Sorted(h1) && Sorted(h2)
    requires Merged(out, h1, h2, p, q)
    requires p < |h1| ==> h2[q] <= h1[p]
    ensures Merged(out + [h2[q]], h1, h2, p, q + 1)
  {
    assert h2[..q + 1] == h2[..q] + [h2[q]];
    assert multiset(out + [h2[q]]) == multiset(out) + multiset{h2[q]};
  }

  // What the merge loop has done: the elements emitted and where the two cursors stand.
  datatype Turn = Turn(out: seq<nat>, c1: Cursor, c2: Cursor)

  ghost predicate InBounds(h1: seq<nat>, h2: seq<nat>, t: Turn) {
    t.c1.Within(h1, h2) && t.c2.Within(h1, h2)
  }

  // pos1 moved on: past the end of its half it jumps to the last element of the second half, and
  // there it stays.
  function AdvanceFirst(pos: Cursor, n1: nat, n2: nat): Cursor
    requires 0 < n1 && 0 < n2
  {
    if pos == InSecond(n2 - 1) then pos
    else if pos == InFirst(n1 - 1) then InSecond(n2 - 1)
    else pos.(index := pos.index + 1)
  }

  // pos2 moved on: past the end of its half it jumps to the last element of the first half.
  function AdvanceSecond(pos: Cursor, n1: nat, n2: nat): Cursor
    requires 0 < n1 && 0 < n2
  {
    if pos == InSecond(n2 - 1) then InFirst(n1 - 1) else pos.(index := pos.index + 1)
  }

  // One turn of the merge loop.
  ghost function Step(h1: seq<nat>, h2: seq<nat>, t: Turn): Turn
    requires 0 < |h1| && 0 < |h2|
  {
    var v1, v2 := t.c1.At(h1, h2), t.c2.At(h1, h2);
    if v1 <= v2 then
      Turn(t.out + [v1], AdvanceFirst(t.c1, |h1|, |h2|), t.c2)
    else
      Turn(t.out + [v2], t.c1, AdvanceSecond(t.c2, |h1|, |h2|))
  }

  ghost predicate Invariant(h1: seq<nat>, h2: seq<nat>, t: Turn, p: nat, q: nat) {
    Progress(h1, h2, t.c1, t.c2, |t.out|, p, q) && Merged(t.out, h1, h2, p, q)
  }

  // A parked first cursor wins only against elements equal to the one it rests on.
  lemma ParkedTakesEqual(h1: seq<nat>, h2: seq<nat>, t: Turn, q: nat)
    requires 0 < |h1| <= |h2| && Sorted(h2) && |t.out| < |h1| + |h2|
    requires Progress(h1, h2, t.c1, t.c2, |t.out|, |h1|, q)
    requires t.c1.At(h1, h2) <= t.c2.At(h1, h2)
    ensures q < |h2| && h2[q] == t.c1.At(h1, h2)
    ensures Progress(h1, h2, t.c1, t.c2, |t.out| + 1, |h1|, q + 1)
  {
    assert t.c2.InSecond?;
    assert h2[t.c2.index] <= h2[q] <= h2[|h2| - 1];
  }

  ghost predicate Good(h1: seq<nat>, h2: seq<nat>, t: Turn) {
    exists p: nat, q: nat :: Invariant(h1, h2, t, p, q)
  }

  lemma StepKeeps(h1: seq<nat>, h2: seq<nat>, t: Turn)
    requires 0 < |h1| <= |h2| && Sorted(h1) && Sorted(h2) && |t.out| < |h1| + |h2|
    requires Good(h1, h2, t)
    ensures Good(h1, h2, Step(h1, h2, t))
  {
    var p: nat, q: nat :| Invariant(h1, h2, t, p, q);
    if t.c1.At(h1, h2) <= t.c2.At(h1, h2) && p < |h1| {
      FirstAdvances(h1, h2, t, p, q);
      assert Merged(Step(h1, h2, t).out, h1, h2, p + 1, q) by { EmitFirst(t.out, h1, h2, p, q); }
      assert Invariant(h1, h2, Step(h1, h2, t), p + 1, q);
    } else {
      var v := SecondAdvances(h1, h2, t, p, q);
      assert Merged(Step(h1, h2, t).out, h1, h2, p, q + 1) by { EmitSecond(t.out, h1, h2, p, q); }
      assert Invariant(h1, h2, Step(h1, h2, t), p, q + 1);
    }
  }

  lemma FirstAdvances(h1: seq<nat>, h2: seq<nat>, t: Turn, p: nat, q: nat)
    requires 0 < |h1| <= |h2| && Sorted(h1)
    requires Progress(h1, h2, t.c1, t.c2, |t.out|, p, q) && p < |h1|
    requires t.c1.At(h1, h2) <= t.c2.At(h1, h2)
    ensures var t' := Step(h1, h2, t);
      && Progress(h1, h2, t'.c1, t'.c2, |t'.out|, p + 1, q)
      && t'.out == t.out + [h1[p]]
    ensures q < |h2| ==> h1[p] <= h2[q]
  {
  }

  // Either the second cursor is the smaller one, or the parked first cursor stands in for it.
  lemma SecondAdvances(h1: seq<nat>, h2: seq<nat>, t: Turn, p: nat, q: nat) returns (v: nat)
    requires 0 < |h1| <= |h2| && Sorted(h1) && Sorted(h2) && |t.out| < |h1| + |h2|
    requires Progress(h1, h2, t.c1, t.c2, |t.out|, p, q)
    requires p == |h1| || t.c2.At(h1, h2) < t.c1.At(h1, h2)
    ensures q < |h2| && v == h2[q]
    ensures var t' := Step(h1, h2, t);
      && Progress(h1, h2, t'.c1, t'.c2, |t'.out|, p, q + 1)
      && t'.out == t.out + [v]
    ensures p < |h1| ==> v <= h1[p]
  {
    if t.c1.At(h1, h2) <= t.c2.At(h1, h2) {
      ParkedTakesEqual(h1, h2, t, q);
    } else {
      assert t.c2 == InSecond(q);
    }
    v := h2[q];
  }

  // The state of the loop after n turns.
  ghost function Run(h1: seq<nat>, h2: seq<nat>, n: nat): (t: Turn)
    requires 0 < |h1| && 0 < |h2|
    ensures |t.out| == n
  {
    if n == 0 then Turn([], InFirst(0), InSecond(0)) else Step(h1, h2, Run(h1, h2, n - 1))
  }

  lemma {:induction false} RunIsGood(h1: seq<nat>, h2: seq<nat>, n: nat)
    requires 0 < |h1| <= |h2| && Sorted(h1) && Sorted(h2) && n <= |h1| + |h2|
    ensures Good(h1, h2, Run(h1, h2, n))
  {
    if n == 0 {
      assert Invariant(h1, h2, Run(h1, h2, 0), 0, 0);
    } else {
      RunIsGood(h1, h2, n - 1);
      StepKeeps(h1, h2, Run(h1, h2, n - 1));
    }
  }

  // The cursors never leave the two halves, however the halves compare.
  lemma {:induction false} RunInBounds(h1: seq<nat>, h2: seq<nat>, n: nat)
    requires 0 < |h1| <= |h2| && Sorted(h1) && Sorted(h2) && n <= |h1| + |h2|
    ensures InBounds(h1, h2, Run(h1, h2, n))
  {
    RunIsGood(h1, h2, n);
    var t := Run(h1, h2, n);
    var p: nat, q: nat :| Invariant(h1, h2, t, p, q);
  }

  // When the loop ends, the output is the sorted merge of both halves: every element is emitted
  // exactly once although a parked cursor may be read many times.
  lemma RunMerges(h1: seq<nat>, h2: seq<nat>)
    requires 0 < |h1| <= |h2| && Sorted(h1) && Sorted(h2)
    ensures Sorted(Run(h1, h2, |h1| + |h2|).out)
    ensures multiset(Run(h1, h2, |h1| + |h2|).out) == multiset(h1 + h2)
  {
    RunIsGood(h1, h2, |h1| + |h2|);
    var t := Run(h1, h2, |h1| + |h2|);
    var p: nat, q: nat :| Invariant(h1, h2, t, p, q);
    assert h1[..p] == h1 && h2[..q] == h2;
  }

  // The merge loop of the sort, with the cursors jumping between the halves.
  method MergeHalves(a: array<nat>, half1: array<nat>, half2: array<nat>)
    requires a != half1 && a != half2
    requires 0 < half1.Length <= half2.Length && a.Length == half1.Length + half2.Length
    requires Sorted(half1[..]) && Sorted(half2[..])
    modifies a
    ensures a[..] == Run(half1[..], half2[..], a.Length).out
  {
    ghost var h1, h2 := half1[..], half2[..];
    var pos1, pos2 := InFirst(0), InSecond(0);
    var i := 0;
    while i < a.Length
      invariant 0 <= i <= a.Length
      invariant half1[..] == h1 && half2[..] == h2
      invariant a[..i] == Run(h1, h2, i).out
      invariant pos1 == Run(h1, h2, i).c1 && pos2 == Run(h1, h2, i).c2
    {
      RunInBounds(h1, h2, i);
      ghost var t := Run(h1, h2, i);
      var v1 := if pos1.InFirst? then half1[pos1.index] else half2[pos1.index];
      var v2 := if pos2.InFirst? then half1[pos2.index] else half2[pos2.index];
      assert v1 == t.c1.At(h1, h2) && v2 == t.c2.At(h1, h2);
      if v1 <= v2 {
        a[i] := v1;
        pos1 := AdvanceFirst(pos1, half1.Length, half2.Length);
      } else {
        a[i] := v2;
        pos2 := AdvanceSecond(pos2, half1.Length, half2.Length);
      }
      assert a[..i + 1] == t.out + [a[i]];
      assert Run(h1, h2, i + 1) == Step(h1, h2, t) == Turn(a[..i + 1], pos1, pos2);
      i := i + 1;
    }
    assert a[..i] == a[..];
  }

  lemma SameElements(s1: seq<nat>, s2: seq<nat>, t1: seq<nat>, t2: seq<nat>)
    requires multiset(s1) == multiset(t1) && multiset(s2) == multiset(t2)
    ensures multiset(s1 + s2) == multiset(t1 + t2)
  {
  }

  method Sort(a: array<nat>)
    modifies a
    ensures Sorted(a[..])
    ensures multiset(a[..]) == multiset(old(a[..]))
    decreases a.Length
  {
    var size := a.Length;
    if size > 1 {
      var half1, half2 := Split(a);
      ghost var h1, h2 := half1[..], half2[..];
      Sort(half1);
      Sort(half2);
      MergeHalves(a, half1, half2);
      RunMerges(half1[..], half2[..]);
      SameElements(h1, h2, half1[..], half2[..]);
    }
  }

  method Split(a: array<nat>) returns (half1: array<nat>, half2: array<nat>)
    requires a.Length > 1
    ensures fresh(half1) && fresh(half2) && half1 != half2
    ensures half1.Length == a.Length / 2 && half2.Length == (a.Length + 1) / 2
    ensures half1[..] + half2[..] == a[..]
  {
    var size := a.Length;
    half1 := new nat[size / 2];
    half2 := new nat[(size + 1) / 2];
    var i := 0;
    while i < size / 2
      invariant 0 <= i <= size / 2
      invariant forall k :: 0 <= k < i ==> half1[k] == a[k]
    {
      half1[i] := a[i];
      i := i + 1;
    }
    i := size / 2;
    while i < size
      invariant size / 2 <= i <= size
      invariant forall k :: 0 <= k < size / 2 ==> half1[k] == a[k]
      invariant forall k :: 0 <= k < i - size / 2 ==> half2[k] == a[size / 2 + k]
    {
      half2[i - size / 2] := a[i];
      i := i + 1;
    }
  }
}
