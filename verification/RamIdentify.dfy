// Pairing the RAM dataspaces a child allocated while bootstrapping with those of a stored state
// (Restorer::_identify_ram_dataspaces).  Neither badges nor addresses survive a restart, so the
// i-th oldest stored dataspace is taken to be the i-th oldest live one.
module RamIdentify {
  import opened Variants
  import opened InfoList
  import MergeSort

  // The part of a (stored or live) RAM dataspace record the matcher looks at.
  datatype Entry = Entry(badge: nat, timestamp: nat, bootstrapped: bool)

  // Translation entry: a badge of the checkpointed child and the capability that now stands for it.
  datatype CkptResto = CkptResto(ckptBadge: nat, restoBadge: nat)

  // Timestamps come from a counter that never repeats, badges name one object each.
  ghost predicate Distinct(list: seq<Entry>) {
    && (forall i, j :: 0 <= i < j < |list| ==> list[i].timestamp != list[j].timestamp)
    && (forall i, j :: 0 <= i < j < |list| ==> list[i].badge != list[j].badge)
  }

  // Timestamps of the bootstrapped entries, in list order.
  function Stamps(list: seq<Entry>): (s: seq<nat>)
    ensures |s| <= |list|
  {
    if list == [] then []
    else if list[0].bootstrapped then [list[0].timestamp] + Stamps(list[1..])
    else Stamps(list[1..])
  }

  lemma {:induction false} StampsHas(list: seq<Entry>, t: nat)
    ensures t in Stamps(list) <==> exists e :: e in list && e.bootstrapped && e.timestamp == t
  {
    if list != [] {
      StampsHas(list[1..], t);
      assert list == [list[0]] + list[1..];
    }
  }

  lemma {:induction false} StampsDistinct(list: seq<Entry>)
    requires Distinct(list)
    ensures forall i, j :: 0 <= i < j < |Stamps(list)| ==> Stamps(list)[i] != Stamps(list)[j]
  {
    if list != [] {
      var rest := list[1..];
      StampsDistinct(rest);
      StampsHas(rest, list[0].timestamp);
    }
  }

  ghost predicate BootstrappedPrefix(list: seq<Entry>) {
    forall i, j :: 0 <= i < j < |list| && list[j].bootstrapped ==> list[i].bootstrapped
  }

  // The shipped fill writes entry i of the list, if bootstrapped, to slot i of an array that has
  // one slot per bootstrapped entry.
  ghost predicate FillInBounds(list: seq<Entry>) {
    forall i :: 0 <= i < |list| && list[i].bootstrapped ==> i < |Stamps(list)|
  }

  // The fill stays inside its array exactly when the bootstrapped entries come first.
  lemma FillInBoundsIffPrefix(list: seq<Entry>)
    ensures FillInBounds(list) <==> BootstrappedPrefix(list)
  {
    if BootstrappedPrefix(list) {
      PrefixStamps(list);
    } else if FillInBounds(list) {
      var i, j :| 0 <= i < j < |list| && list[j].bootstrapped && !list[i].bootstrapped;
      var last := LastBootstrapped(list);
      GapCostsASlot(list, i, last);
    }
  }

  lemma {:induction false} NoneBootstrapped(list: seq<Entry>)
    requires forall i :: 0 <= i < |list| ==> !list[i].bootstrapped
    ensures Stamps(list) == []
  {
    if list != [] {
      NoneBootstrapped(list[1..]);
    }
  }

  lemma {:induction false} PrefixStamps(list: seq<Entry>)
    requires BootstrappedPrefix(list)
    ensures forall i :: 0 <= i < |list| ==> (list[i].bootstrapped <==> i < |Stamps(list)|)
    ensures forall i :: 0 <= i < |Stamps(list)| ==> Stamps(list)[i] == list[i].timestamp
  {
    if list != [] {
      PrefixStamps(list[1..]);
      if !list[0].bootstrapped {
        NoneBootstrapped(list[1..]);
      }
    }
  }

  lemma LastBootstrapped(list: seq<Entry>) returns (last: nat)
    requires exists i :: 0 <= i < |list| && list[i].bootstrapped
    ensures last < |list| && list[last].bootstrapped
    ensures forall i :: last < i < |list| ==> !list[i].bootstrapped
  {
    last := |list| - 1;
    while !list[last].bootstrapped
      invariant last < |list|
      invariant exists i :: 0 <= i <= last && list[i].bootstrapped
      decreases last
      invariant forall i :: last < i < |list| ==> !list[i].bootstrapped
    {
      last := last - 1;
    }
  }

  lemma {:induction false} StampsAppend(a: seq<Entry>, b: seq<Entry>)
    ensures Stamps(a + b) == Stamps(a) + Stamps(b)
  {
    if a == [] {
      assert a + b == b;
    } else {
      var t := a[1..] + b;
      assert a + b == [a[0]] + t;
      StampsAppend(a[1..], b);
      assert Stamps(t) == Stamps(a[1..]) + Stamps(b);
    }
  }

  // An unbootstrapped entry before the last bootstrapped one leaves one slot too few for it.
  lemma {:induction false} GapCostsASlot(list: seq<Entry>, gap: nat, last: nat)
    requires gap < last < |list| && !list[gap].bootstrapped && list[last].bootstrapped
    requires forall i :: last < i < |list| ==> !list[i].bootstrapped
    ensures |Stamps(list)| <= last
  {
    var head, mid, tail := list[..gap], list[gap + 1..last + 1], list[last + 1..];
    assert list == head + [list[gap]] + mid + tail;
    StampsAppend(head + [list[gap]] + mid, tail);
    StampsAppend(head + [list[gap]], mid);
    StampsAppend(head, [list[gap]]);
    NoneBootstrapped(tail);
  }

  // The two array fills: slot i for list position i, whether or not the entry was used.  None is the write
  // past the end of the array.
  method FillArray(list: seq<Entry>, n: nat) returns (r: Option<array<nat>>)
    requires n == |Stamps(list)|
    ensures r.Some? <==> FillInBounds(list)
    ensures r.Some? ==> fresh(r.value) && r.value[..] == Stamps(list)
  {
    var a := new nat[n];
    var i := 0;
    while i < |list|
      invariant 0 <= i <= |list|
      invariant forall k :: 0 <= k < i && list[k].bootstrapped ==> k < n && a[k] == list[k].timestamp
    {
      if list[i].bootstrapped {
        if i >= n {
          return None;
        }
        a[i] := list[i].timestamp;
      }
      i := i + 1;
    }
    FillInBoundsIffPrefix(list);
    PrefixStamps(list);
    r := Some(a);
  }

  // The intended fill: the slot advances for bootstrapped entries only.
  method FillArrayIntended(list: seq<Entry>, n: nat) returns (a: array<nat>)
    requires n == |Stamps(list)|
    ensures fresh(a) && a[..] == Stamps(list)
  {
    a := new nat[n];
    var i, slot := 0, 0;
    while i < |list|
      invariant 0 <= i <= |list| && slot <= n && Stamps(list) == a[..slot] + Stamps(list[i..])
    {
      assert list[i..][1..] == list[i + 1..];
      if list[i].bootstrapped {
        ghost var before := a[..slot];
        a[slot] := list[i].timestamp;
        slot := slot + 1;
        assert a[..slot] == before + [list[i].timestamp];
      }
      i := i + 1;
    }
    assert a[..slot] + [] == a[..slot] && slot == n;
  }

  // Whether the fill stays inside its array.
  ghost predicate Fills(v: Variant, list: seq<Entry>) {
    v.Intended? || FillInBounds(list)
  }

  // The matcher stays inside its arrays: the live one must be as large as the stored one.
  ghost predicate Matches(v: Variant, stored: seq<Entry>, live: seq<Entry>) {
    Fills(v, stored) && Fills(v, live) && |Stamps(stored)| <= |Stamps(live)|
  }

  method CountBootstrapped(list: seq<Entry>) returns (n: nat)
    ensures n == |Stamps(list)|
  {
    n := 0;
    var i := 0;
    while i < |list|
      invariant 0 <= i <= |list|
      invariant n == |Stamps(list[..i])|
    {
      assert list[..i + 1] == list[..i] + [list[i]];
      StampsAppend(list[..i], [list[i]]);
      if list[i].bootstrapped {
        n := n + 1;
      }
      i := i + 1;
    }
    assert list[..i] == list;
  }

  // Creation rank of a timestamp: how many bootstrapped entries are older.
  ghost function Rank(list: seq<Entry>, timestamp: nat): nat {
    |Older(list, timestamp)|
  }

  ghost function Older(list: seq<Entry>, timestamp: nat): set<nat> {
    set t | t in Stamps(list) && t < timestamp
  }

  ghost predicate SortedStamps(a: seq<nat>, list: seq<Entry>) {
    MergeSort.Sorted(a) && multiset(a) == multiset(Stamps(list))
  }

  lemma {:induction false} PrefixSet(a: seq<nat>, n: nat)
    requires n <= |a| && forall i, j :: 0 <= i < j < |a| ==> a[i] < a[j]
    ensures |set i | 0 <= i < n :: a[i]| == n
  {
    var s := set i | 0 <= i < n :: a[i];
    if n > 0 {
      PrefixSet(a, n - 1);
      var s' := set i | 0 <= i < n - 1 :: a[i];
      assert s == s' + {a[n - 1]};
      assert a[n - 1] !in s';
    } else {
      assert s == {};
    }
  }

  // In the sorted array a timestamp sits at its rank.
  lemma {:induction false} SortedAtRank(a: seq<nat>, list: seq<Entry>, k: nat)
    requires Distinct(list) && SortedStamps(a, list) && k < |a|
    ensures a[k] in Stamps(list) && Rank(list, a[k]) == k
    ensures forall i, j :: 0 <= i < j < |a| ==> a[i] < a[j]
  {
    StrictlySorted(a, list);
    SameMembers(a, Stamps(list));
    PrefixSet(a, k);
    assert Older(list, a[k]) == set i | 0 <= i < k :: a[i];
  }

  lemma SameMembers(a: seq<nat>, b: seq<nat>)
    requires multiset(a) == multiset(b)
    ensures |a| == |b|
    ensures forall t :: t in a <==> t in b
  {
    assert |multiset(a)| == |a| && |multiset(b)| == |b|;
    forall t ensures t in a <==> t in b {
      assert t in a <==> t in multiset(a);
      assert t in b <==> t in multiset(b);
    }
  }

  lemma StrictlySorted(a: seq<nat>, list: seq<Entry>)
    requires Distinct(list) && SortedStamps(a, list)
    ensures forall i, j :: 0 <= i < j < |a| ==> a[i] < a[j]
  {
    StampsDistinct(list);
    forall i, j | 0 <= i < j < |a| ensures a[i] < a[j] {
      if a[i] == a[j] {
        assert a == a[..i] + [a[i]] + a[i + 1..j] + [a[j]] + a[j + 1..];
        assert multiset(a)[a[i]] >= 2;
        OnceIfDistinct(Stamps(list), a[i]);
      }
    }
  }

  lemma {:induction false} OnceIfDistinct(s: seq<nat>, v: nat)
    requires forall i, j :: 0 <= i < j < |s| ==> s[i] != s[j]
    ensures multiset(s)[v] <= 1
  {
    if s != [] {
      assert s == [s[0]] + s[1..];
      OnceIfDistinct(s[1..], v);
      if v == s[0] {
        assert v !in s[1..];
      }
    }
  }

  ghost predicate Bootstrapped(e: Entry, list: seq<Entry>) {
    e in list && e.bootstrapped
  }

  // pairs holds the translation of exactly the bootstrapped stored entries, by creation rank.
  ghost predicate PairedByRank(pairs: seq<CkptResto>, stored: seq<Entry>, live: seq<Entry>) {
    && |pairs| == |Stamps(stored)|
    && (forall s, l :: Bootstrapped(s, stored) && Bootstrapped(l, live) ==>
          (Paired(pairs, s, l, stored, live) <==> Rank(stored, s.timestamp) == Rank(live, l.timestamp)))
    && (forall s :: Bootstrapped(s, stored) ==> exists l :: Paired(pairs, s, l, stored, live))
    && (|Stamps(stored)| == |Stamps(live)| ==>
          forall l :: Bootstrapped(l, live) ==> exists s :: Paired(pairs, s, l, stored, live))
    && (forall p :: p in pairs ==> exists s, l :: Paired(pairs, s, l, stored, live) && p == CkptResto(s.badge, l.badge))
  }

  ghost predicate Paired(pairs: seq<CkptResto>, s: Entry, l: Entry, stored: seq<Entry>, live: seq<Entry>) {
    Bootstrapped(s, stored) && Bootstrapped(l, live) && CkptResto(s.badge, l.badge) in pairs
  }

  ghost predicate HasStamp(e: Entry, list: seq<Entry>, t: nat) {
    Bootstrapped(e, list) && e.timestamp == t
  }

  // find_by_timestamp walks the whole list, unbootstrapped entries included.
  function FindByTimestamp(list: seq<Entry>, t: nat): (e: Entry)
    requires t in Stamps(list) && Distinct(list)
    ensures HasStamp(e, list, t)
  {
    StampsHas(list, t);
    Find(list, (e: Entry) => e.timestamp == t).value
  }

  // The bootstrapped entries of list, each at the index that is its rank.
  ghost predicate Ranking(r: seq<Entry>, list: seq<Entry>) {
    && |r| == |Stamps(list)|
    && (forall k :: 0 <= k < |r| ==> Bootstrapped(r[k], list) && Rank(list, r[k].timestamp) == k)
    && (forall e :: Bootstrapped(e, list) ==> e in r)
  }

  ghost function EntriesAt(a: seq<nat>, list: seq<Entry>): (r: seq<Entry>)
    requires Distinct(list) && forall k :: 0 <= k < |a| ==> a[k] in Stamps(list)
    ensures |r| == |a| && forall k :: 0 <= k < |a| ==> HasStamp(r[k], list, a[k])
  {
    seq(|a|, k requires 0 <= k < |a| => FindByTimestamp(list, a[k]))
  }

  lemma {:induction false} SortedIsRanking(a: seq<nat>, list: seq<Entry>)
    requires Distinct(list) && SortedStamps(a, list)
    requires forall k :: 0 <= k < |a| ==> a[k] in Stamps(list)
    ensures Ranking(EntriesAt(a, list), list)
  {
    var r := EntriesAt(a, list);
    SameMembers(a, Stamps(list));
    forall k | 0 <= k < |r| ensures Bootstrapped(r[k], list) && Rank(list, r[k].timestamp) == k {
      SortedAtRank(a, list, k);
    }
    forall e | Bootstrapped(e, list) ensures e in r {
      StampsHas(list, e.timestamp);
      var k :| 0 <= k < |a| && a[k] == e.timestamp;
      SameStampSameEntry(list, e, r[k]);
    }
  }

  lemma SameStampSameEntry(list: seq<Entry>, e: Entry, e': Entry)
    requires Distinct(list) && e in list && e' in list && e.timestamp == e'.timestamp
    ensures e == e'
  {
    var i :| 0 <= i < |list| && list[i] == e;
    var j :| 0 <= j < |list| && list[j] == e';
    assert i == j;
  }

  lemma SameBadgeSameEntry(list: seq<Entry>, e: Entry, e': Entry)
    requires Distinct(list) && e in list && e' in list && e.badge == e'.badge
    ensures e == e'
  {
    var i :| 0 <= i < |list| && list[i] == e;
    var j :| 0 <= j < |list| && list[j] == e';
    assert i == j;
  }

  // The whole matcher.  None is an array access out of bounds: of one of the two fills (FillInBoundsIffPrefix),
  // or of the live array when there are more stored entries, which is only warned about.
  method IdentifyRamDataspaces(v: Variant, live: seq<Entry>, stored: seq<Entry>) returns (r: Option<seq<CkptResto>>)
    requires Distinct(stored) && Distinct(live)
    ensures r.Some? <==> Matches(v, stored, live)
    ensures r.Some? ==> PairedByRank(r.value, stored, live)
  {
    var storedArray := SortedArray(v, stored);
    if storedArray.None? {
      return None;
    }
    var liveArray := SortedArray(v, live);
    if liveArray.None? || storedArray.value.Length > liveArray.value.Length {
      return None;
    }
    var pairs := FillResult(stored, live, storedArray.value, liveArray.value);
    SortedIsRanking(storedArray.value[..], stored);
    SortedIsRanking(liveArray.value[..], live);
    PairsAreByRank(pairs, stored, live, EntriesAt(storedArray.value[..], stored), EntriesAt(liveArray.value[..], live));
    r := Some(pairs);
  }

  // Counting, filling and sorting one of the two arrays.
  method SortedArray(v: Variant, list: seq<Entry>) returns (r: Option<array<nat>>)
    ensures r.Some? <==> Fills(v, list)
    ensures r.Some? ==>
      && fresh(r.value) && SortedStamps(r.value[..], list)
      && r.value.Length == |Stamps(list)| && forall k :: 0 <= k < r.value.Length ==> r.value[k] in Stamps(list)
  {
    var n := CountBootstrapped(list);
    if v.Shipped? {
      r := FillArray(list, n);
    } else {
      var a := FillArrayIntended(list, n);
      r := Some(a);
    }
    if r.Some? {
      MergeSort.Sort(r.value);
      SameMembers(r.value[..], Stamps(list));
      assert forall k :: 0 <= k < r.value.Length ==> r.value[k] in r.value[..];
    }
  }

  // Entry k of each ranking paired; the list is filled from the front, so it runs backwards.
  ghost predicate PairsAt(pairs: seq<CkptResto>, ss: seq<Entry>, ls: seq<Entry>) {
    |pairs| <= |ss| && |pairs| <= |ls| &&
    forall k :: 0 <= k < |pairs| ==> pairs[|pairs| - 1 - k] == CkptResto(ss[k].badge, ls[k].badge)
  }

  method FillResult(stored: seq<Entry>, live: seq<Entry>, storedArray: array<nat>, liveArray: array<nat>)
    returns (pairs: seq<CkptResto>)
    requires Distinct(stored) && Distinct(live) && storedArray.Length <= liveArray.Length
    requires forall k :: 0 <= k < storedArray.Length ==> storedArray[k] in Stamps(stored)
    requires forall k :: 0 <= k < liveArray.Length ==> liveArray[k] in Stamps(live)
    ensures |pairs| == storedArray.Length
    ensures PairsAt(pairs, EntriesAt(storedArray[..], stored), EntriesAt(liveArray[..], live))
  {
    ghost var ss, ls := EntriesAt(storedArray[..], stored), EntriesAt(liveArray[..], live);
    pairs := [];
    var i := 0;
    while i < storedArray.Length
      invariant 0 <= i <= storedArray.Length
      invariant |pairs| == i && PairsAt(pairs, ss, ls)
    {
      var s := FindByTimestamp(stored, storedArray[i]);
      var l := FindByTimestamp(live, liveArray[i]);
      SameStampSameEntry(stored, s, ss[i]);
      SameStampSameEntry(live, l, ls[i]);
      pairs := [CkptResto(s.badge, l.badge)] + pairs;
      i := i + 1;
    }
  }

  lemma PairsAreByRank(pairs: seq<CkptResto>, stored: seq<Entry>, live: seq<Entry>, ss: seq<Entry>, ls: seq<Entry>)
    requires Distinct(stored) && Distinct(live)
    requires Ranking(ss, stored) && Ranking(ls, live)
    requires PairsAt(pairs, ss, ls) && |pairs| == |ss|
    ensures PairedByRank(pairs, stored, live)
  {
    forall k | 0 <= k < |ss| ensures Paired(pairs, ss[k], ls[k], stored, live) {
      assert pairs[|ss| - 1 - k] == CkptResto(ss[k].badge, ls[k].badge);
    }
    forall s, l | Bootstrapped(s, stored) && Bootstrapped(l, live)
      ensures Paired(pairs, s, l, stored, live) <==> Rank(stored, s.timestamp) == Rank(live, l.timestamp)
    {
      PairIffRank(pairs, stored, live, ss, ls, s, l);
    }
    forall p | p in pairs
      ensures exists s, l :: Paired(pairs, s, l, stored, live) && p == CkptResto(s.badge, l.badge)
    {
      var i :| 0 <= i < |pairs| && pairs[i] == p;
      assert pairs[|ss| - 1 - (|ss| - 1 - i)] == p;
      assert Paired(pairs, ss[|ss| - 1 - i], ls[|ss| - 1 - i], stored, live);
    }
  }

  lemma PairIffRank(pairs: seq<CkptResto>, stored: seq<Entry>, live: seq<Entry>, ss: seq<Entry>, ls: seq<Entry>, s: Entry, l: Entry)
    requires Distinct(stored) && Distinct(live)
    requires Ranking(ss, stored) && Ranking(ls, live)
    requires PairsAt(pairs, ss, ls) && |pairs| == |ss|
    requires Bootstrapped(s, stored) && Bootstrapped(l, live)
    ensures Paired(pairs, s, l, stored, live) <==> Rank(stored, s.timestamp) == Rank(live, l.timestamp)
  {
    var i :| 0 <= i < |ss| && ss[i] == s;
    var j :| 0 <= j < |ls| && ls[j] == l;
    if i == j {
      assert pairs[|ss| - 1 - i] == CkptResto(s.badge, l.badge);
    }
    if Paired(pairs, s, l, stored, live) {
      var m :| 0 <= m < |pairs| && pairs[m] == CkptResto(s.badge, l.badge);
      var k := |ss| - 1 - m;
      assert pairs[|ss| - 1 - k] == CkptResto(ss[k].badge, ls[k].badge);
      SameBadgeSameEntry(stored, s, ss[k]);
      SameBadgeSameEntry(live, l, ls[k]);
    }
  }

  lemma PairFrom(pairs: seq<CkptResto>, stored: seq<Entry>, live: seq<Entry>, p: CkptResto) returns (s: Entry, l: Entry)
    requires PairedByRank(pairs, stored, live) && p in pairs
    ensures Paired(pairs, s, l, stored, live) && p == CkptResto(s.badge, l.badge)
  {
    s, l :| Paired(pairs, s, l, stored, live) && p == CkptResto(s.badge, l.badge);
  }

  lemma {:induction false} RankMonotone(list: seq<Entry>, t: nat, u: nat)
    requires t in Stamps(list)
    ensures t < u ==> Rank(list, t) < Rank(list, u)
    ensures u <= t ==> Rank(list, u) <= Rank(list, t)
  {
    if t < u {
      assert t in Older(list, u) - Older(list, t);
      Smaller(Older(list, t), Older(list, u), t);
    } else {
      assert Older(list, u) <= Older(list, t);
      Subset(Older(list, u), Older(list, t));
    }
  }

  lemma Subset(a: set<nat>, b: set<nat>)
    requires a <= b
    ensures |a| <= |b|
  {
    assert b == a + (b - a);
  }

  lemma Smaller(a: set<nat>, b: set<nat>, x: nat)
    requires a <= b && x in b && x !in a
    ensures |a| < |b|
  {
    Subset(a + {x}, b);
  }

  // Translating by rank keeps the creation order and never merges or splits two dataspaces.
  lemma PairingIsOrderIsomorphism(pairs: seq<CkptResto>, stored: seq<Entry>, live: seq<Entry>,
                                  s: Entry, l: Entry, s': Entry, l': Entry)
    requires Distinct(stored) && Distinct(live)
    requires PairedByRank(pairs, stored, live)
    requires Paired(pairs, s, l, stored, live) && Paired(pairs, s', l', stored, live)
    ensures s.timestamp < s'.timestamp <==> l.timestamp < l'.timestamp
    ensures s == s' <==> l == l'
  {
    StampsHas(stored, s.timestamp);
    StampsHas(live, l.timestamp);
    StampsHas(stored, s'.timestamp);
    StampsHas(live, l'.timestamp);
    RankMonotone(stored, s.timestamp, s'.timestamp);
    RankMonotone(stored, s'.timestamp, s.timestamp);
    RankMonotone(live, l.timestamp, l'.timestamp);
    RankMonotone(live, l'.timestamp, l.timestamp);
  }
}
