// Dataspaces that move between the region maps of one list: when they keep their copy, told from the
// stored list and the live one.
module MapMoves {
  import opened InfoList
  import opened CapMap
  import opened CopyTable
  import opened Reconcile
  import opened ReconcileKeys
  import opened StoredState
  import opened StoredRegions
  import opened StoredStateMirror
  import opened StoredStateRefs
  import opened StoredBadges
  import opened CopyMoves

  // Dataspace b is recorded elsewhere, or one of the first i live maps shows it, or a stored map that is
  // not among those recalls it.
  ghost predicate HeldAfter(stored: seq<StoredMap>, live: seq<RegionMap>, i: nat, rest: multiset<nat>, b: nat)
    requires i <= |live|
  {
    || b in rest
    || (exists l :: l in live[..i] && Shows(l, b))
    || (exists s :: s in stored && Recalls(s, b) && !HasLive(MapView(), live[..i], s.head.badge))
  }

  // What the list recalls after i turns of the first loop.
  lemma RecalledAfter(kind: Kind<StoredMap, RegionMap>, stored: seq<StoredMap>, live: seq<RegionMap>, i: nat, r: seq<StoredMap>, b: nat)
    requires i <= |live| && Passed(kind, MapView(), stored, live[..i], r)
    ensures (exists s :: s in r && Recalls(s, b)) <==> HeldAfter(stored, live, i, multiset{}, b)
  {
    var v := MapView();
    forall s | s in r && Recalls(s, b) ensures HeldAfter(stored, live, i, multiset{}, b) {
      if HasLive(v, live[..i], s.head.badge) {
        var l :| l in live[..i] && l.head.badge == s.head.badge;
        CurrentShows(r, live[..i], s, l, b);
      }
    }
    forall l | l in live[..i] && Shows(l, b) ensures exists s :: s in r && Recalls(s, b) {
      assert HasCurrent(v, r, l);
      var s :| s in r && v.key(s) == v.liveKey(l) && v.current(s, l);
      CurrentShows(r, live[..i], s, l, b);
    }
  }

  // ---- The condition ----

  lemma {:induction false} MomentsAre(kind: Kind<StoredMap, RegionMap>, stored: seq<StoredMap>, live: seq<RegionMap>, c: Copies, i: nat)
    requires i < |live|
    ensures var ms := Moments(kind, Nothing(), stored, live, c);
      |ms| == |live| && ms[i] == Pass1(kind, stored, live[..i + 1], c).1
    decreases |live|
  {
    var (stored', c') := Upsert(kind, stored, live[0], c);
    var rest := Moments(kind, Nothing(), stored', live[1..], c');
    assert TurnMoments(kind, Nothing(), stored, live[0], c) == [];
    assert Moments(kind, Nothing(), stored, live, c) == [c'] + rest;
    assert live[..i + 1][1..] == live[1..][..i];
    if i > 0 {
      MomentsAre(kind, stored', live[1..], c', i - 1);
    } else if |live| > 1 {
      MomentsAre(kind, stored', live[1..], c', 0);
    }
  }

  lemma {:induction false} RecordsAfter(caps: seq<CapKcap>, maps: set<nat>, managed: set<nat>, stored: seq<StoredMap>, live: seq<RegionMap>, c: Copies,
                     rest: multiset<nat>, b: nat)
    requires var a := MapAccount(maps, managed);
      AllOk(a, stored, c) && Exact(c, rest + AllRefs(a, stored), managed) && forall l :: l in live ==> a.admissible(l)
    requires b !in managed
    ensures var (r, c') := Pass1(MapKind(caps, maps), stored, live, c);
      Known(c', b) <==> b in rest || exists s :: s in r && Recalls(s, b)
  {
    var kind, a := MapKind(caps, maps), MapAccount(maps, managed);
    var (r, c') := Pass1(kind, stored, live, c);
    MapLawful(caps, maps, managed);
    Pass1Exact(kind, a, stored, live, c, rest);
    MapRefsHas(maps, managed, r, c', b);
    assert b in rest + AllRefs(a, r) <==> b in rest || b in AllRefs(a, r);
  }

  lemma {:induction false} PassedAfter(caps: seq<CapKcap>, maps: set<nat>, stored: seq<StoredMap>, live: seq<RegionMap>, c: Copies, i: nat)
    requires WellFormedMaps(live) && ClearMaps(stored, live) && i <= |live|
    ensures Passed(MapKind(caps, maps), MapView(), stored, live[..i], Pass1(MapKind(caps, maps), stored, live[..i], c).0)
  {
    MapKeyed(caps, maps);
    MapsRefresh(caps, maps, stored, live);
    Pass1Keys(MapKind(caps, maps), MapView(), stored, live[..i], c);
  }

  // After i turns the table has an entry exactly if the dataspace is held.
  lemma {:induction false} KnownAfter(caps: seq<CapKcap>, maps: set<nat>, managed: set<nat>, stored: seq<StoredMap>, live: seq<RegionMap>, c: Copies,
                   rest: multiset<nat>, b: nat, i: nat)
    requires var a := MapAccount(maps, managed);
      AllOk(a, stored, c) && Exact(c, rest + AllRefs(a, stored), managed) && forall l :: l in live ==> a.admissible(l)
    requires WellFormedMaps(live) && ClearMaps(stored, live) && b !in managed && i <= |live|
    ensures Known(Pass1(MapKind(caps, maps), stored, live[..i], c).1, b) <==> HeldAfter(stored, live, i, rest, b)
  {
    RecordsAfter(caps, maps, managed, stored, live[..i], c, rest, b);
    PassedAfter(caps, maps, stored, live, c, i);
    RecalledAfter(MapKind(caps, maps), stored, live, i, Pass1(MapKind(caps, maps), stored, live[..i], c).0, b);
  }

  // The table has an entry exactly while the dataspace is held.
  ghost predicate EntryWhileHeld(caps: seq<CapKcap>, maps: set<nat>, stored: seq<StoredMap>, live: seq<RegionMap>, c: Copies,
                        rest: multiset<nat>, b: nat)
  {
    forall i: nat {:trigger HeldAfter(stored, live, i, rest, b)} :: i <= |live| ==>
      (Known(Pass1(MapKind(caps, maps), stored, live[..i], c).1, b) <==> HeldAfter(stored, live, i, rest, b))
  }

  lemma {:induction false} MomentsHold(caps: seq<CapKcap>, maps: set<nat>, stored: seq<StoredMap>, live: seq<RegionMap>, c: Copies,
                    rest: multiset<nat>, b: nat)
    requires EntryWhileHeld(caps, maps, stored, live, c, rest, b)
    ensures InAll(Moments(MapKind(caps, maps), Nothing(), stored, live, c), b)
            <==> forall i :: 0 < i <= |live| ==> HeldAfter(stored, live, i, rest, b)
  {
    var ms := Moments(MapKind(caps, maps), Nothing(), stored, live, c);
    assert |ms| == |live| by {
      if live != [] {
        MomentsAre(MapKind(caps, maps), stored, live, c, 0);
      }
    }
    forall i | 0 <= i < |live| ensures Known(ms[i], b) <==> HeldAfter(stored, live, i + 1, rest, b) {
      MomentsAre(MapKind(caps, maps), stored, live, c, i);
    }
    if InAll(ms, b) {
      forall i | 0 < i <= |live| ensures HeldAfter(stored, live, i, rest, b) {
        assert ms[i - 1] in ms && Known(ms[i - 1], b);
      }
    }
    if forall i :: 0 < i <= |live| ==> HeldAfter(stored, live, i, rest, b) {
      forall m | m in ms ensures Known(m, b) {
        var i :| 0 <= i < |ms| && ms[i] == m;
        assert HeldAfter(stored, live, i + 1, rest, b);
      }
    }
  }

  // The tables met all have an entry exactly if the dataspace is held after every region map.
  lemma {:induction false} EntriesHeld(caps: seq<CapKcap>, maps: set<nat>, managed: set<nat>, stored: seq<StoredMap>, live: seq<RegionMap>, c: Copies,
                    rest: multiset<nat>, b: nat)
    requires var a := MapAccount(maps, managed);
      AllOk(a, stored, c) && Exact(c, rest + AllRefs(a, stored), managed) && forall l :: l in live ==> a.admissible(l)
    requires WellFormedMaps(live) && ClearMaps(stored, live) && b !in managed
    ensures EntryWhileHeld(caps, maps, stored, live, c, rest, b)
    ensures InAll(Moments(MapKind(caps, maps), Nothing(), stored, live, c), b)
            <==> forall i :: 0 < i <= |live| ==> HeldAfter(stored, live, i, rest, b)
  {
    forall i: nat | i <= |live|
      ensures Known(Pass1(MapKind(caps, maps), stored, live[..i], c).1, b) <==> HeldAfter(stored, live, i, rest, b)
    {
      KnownAfter(caps, maps, managed, stored, live, c, rest, b, i);
    }
    assert EntryWhileHeld(caps, maps, stored, live, c, rest, b);
    MomentsHold(caps, maps, stored, live, c, rest, b);
  }

  // A dataspace that is recorded before and after keeps its copy if and only if it is held after every
  // region map on the way.
  lemma {:induction false} MoveKeepsCopyIff(caps: seq<CapKcap>, maps: set<nat>, managed: set<nat>, stored: seq<StoredMap>, live: seq<RegionMap>, c: Copies,
                         rest: multiset<nat>, b: nat)
    requires var a := MapAccount(maps, managed);
      AllOk(a, stored, c) && Exact(c, rest + AllRefs(a, stored), managed) && forall l :: l in live ==> a.admissible(l)
    requires WellFormedMaps(live) && ClearMaps(stored, live) && b !in managed
    requires HeldAfter(stored, live, 0, rest, b) && (b in rest || exists l :: l in live && Shows(l, b))
    ensures CopyOf(Prepare(MapKind(caps, maps), stored, live, c).1.table, b) == CopyOf(c.table, b)
            <==> forall i :: 0 <= i <= |live| ==> HeldAfter(stored, live, i, rest, b)
  {
    MapTracked(caps, maps);
    PrepareTracks(MapKind(caps, maps), Nothing(), stored, live, c);
    EntriesHeld(caps, maps, managed, stored, live, c, rest, b);
    assert Pass1(MapKind(caps, maps), stored, live[..0], c).1 == c;
    KnownAtTheEnd(caps, maps, managed, stored, live, c, rest, b);
  }

  lemma {:induction false} KnownAtTheEnd(caps: seq<CapKcap>, maps: set<nat>, managed: set<nat>, stored: seq<StoredMap>, live: seq<RegionMap>, c: Copies,
                      rest: multiset<nat>, b: nat)
    requires var a := MapAccount(maps, managed);
      AllOk(a, stored, c) && Exact(c, rest + AllRefs(a, stored), managed) && forall l :: l in live ==> a.admissible(l)
    requires WellFormedMaps(live) && ClearMaps(stored, live) && b !in managed
    requires b in rest || exists l :: l in live && Shows(l, b)
    ensures Known(Prepare(MapKind(caps, maps), stored, live, c).1, b)
  {
    var kind, a := MapKind(caps, maps), MapAccount(maps, managed);
    var (r, c') := Prepare(kind, stored, live, c);
    MapLawful(caps, maps, managed);
    PrepareExact(kind, a, stored, live, c, rest);
    if b !in rest {
      var l :| l in live && Shows(l, b);
      MapsPrepared(caps, maps, stored, live, c);
      assert HasCurrent(MapView(), r, l);
      var s :| s in r && s.head.badge == l.head.badge;
      CurrentShows(r, live, s, l, b);
      MapRefsHas(maps, managed, r, c', b);
    }
    assert b in rest + AllRefs(a, r);
  }
}
