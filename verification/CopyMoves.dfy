// When a checkpoint replaces a copy: which moves of a dataspace between region maps and sessions keep it.
module CopyMoves {
  import opened InfoList
  import opened CapMap
  import opened CopyTable
  import opened Reconcile
  import opened StoredState

  // ---- Work on the table, seen entry by entry ----

  ghost predicate Known(c: Copies, b: nat) {
    Lookup(c.table, b).Some?
  }

  // Copies are numbered in the order in which they are made.
  ghost predicate Numbered(c: Copies) {
    DistinctOrigs(c.table) && forall b :: Known(c, b) ==> CopyOf(c.table, b) < c.next
  }

  ghost predicate Same(c: Copies, c': Copies, b: nat) {
    Known(c, b) && Known(c', b) && CopyOf(c'.table, b) == CopyOf(c.table, b) && SizeOf(c'.table, b) == SizeOf(c.table, b)
  }

  // A copy known afterwards is the one known before, or has been made since.
  ghost predicate Works(c: Copies, c': Copies) {
    Numbered(c) ==>
      && Numbered(c') && c.next <= c'.next
      && forall b :: Known(c', b) ==> Same(c, c', b) || c.next <= CopyOf(c'.table, b)
  }

  // Entries are only added, or only dropped.
  ghost predicate Adds(c: Copies, c': Copies) {
    Works(c, c') && (Numbered(c) ==> forall b :: Known(c, b) ==> Same(c, c', b))
  }

  ghost predicate Drops(c: Copies, c': Copies) {
    Works(c, c') && (Numbered(c) ==> forall b :: Known(c', b) ==> Same(c, c', b))
  }

  // ms are tables met on the way from c to c': a copy is kept exactly if its entry is in all of them.
  ghost predicate Tracks(c: Copies, ms: seq<Copies>, c': Copies) {
    && Works(c, c')
    && (Numbered(c) ==> forall b :: Known(c, b) && Known(c', b) ==> (Same(c, c', b) <==> InAll(ms, b)))
  }

  ghost predicate InAll(ms: seq<Copies>, b: nat) {
    forall m :: m in ms ==> Known(m, b)
  }

  lemma AddRefAdds(c: Copies, badge: nat, size: nat)
    ensures Adds(c, AddRef(c, badge, size))
  {
    if Numbered(c) {
      AddRefDistinct(c, badge, size);
      forall b ensures Known(c, b) ==> Same(c, AddRef(c, badge, size), b)
        ensures Known(AddRef(c, badge, size), b) ==>
          Same(c, AddRef(c, badge, size), b) || (b == badge && CopyOf(AddRef(c, badge, size).table, b) == c.next < AddRef(c, badge, size).next)
      {
        AddRefLookup(c, badge, size, b);
      }
    }
  }

  lemma DropRefDrops(c: Copies, badge: nat)
    ensures Drops(c, DropRef(c, badge))
  {
    if Numbered(c) {
      DropRefDistinct(c, badge);
      forall b ensures Known(DropRef(c, badge), b) ==> Same(c, DropRef(c, badge), b) {
        DropRefLookup(c, badge, b);
      }
    }
  }

  lemma AddsTwice(c: Copies, c1: Copies, c2: Copies)
    requires Adds(c, c1) && Adds(c1, c2)
    ensures Adds(c, c2)
  {
  }

  lemma DropsTwice(c: Copies, c1: Copies, c2: Copies)
    requires Drops(c, c1) && Drops(c1, c2)
    ensures Drops(c, c2)
  {
  }

  // Making new entries before old ones are dropped keeps every copy that is known before and after.
  lemma AddsThenDrops(c: Copies, c1: Copies, c2: Copies)
    requires Adds(c, c1) && Drops(c1, c2)
    ensures Tracks(c, [], c2)
  {
  }

  lemma TracksThenDrops(c: Copies, ms: seq<Copies>, c1: Copies, c2: Copies)
    requires Tracks(c, ms, c1) && Drops(c1, c2)
    ensures Tracks(c, ms, c2)
  {
  }

  lemma TracksThen(c: Copies, ms: seq<Copies>, c1: Copies, ms': seq<Copies>, c2: Copies)
    requires Tracks(c, ms, c1) && Tracks(c1, ms', c2)
    ensures Tracks(c, ms + [c1] + ms', c2)
  {
    if Numbered(c) {
      forall b | Known(c, b) && Known(c2, b) ensures Same(c, c2, b) <==> InAll(ms + [c1] + ms', b) {
        InAllParts(ms, c1, ms', b);
      }
    }
  }

  lemma InAllParts(ms: seq<Copies>, c: Copies, ms': seq<Copies>, b: nat)
    ensures InAll(ms + [c] + ms', b) <==> InAll(ms, b) && Known(c, b) && InAll(ms', b)
  {
    assert c in ms + [c] + ms';
  }

  // ---- The two passes ----

  // Within one update of a record, met gives the tables met on the way.
  ghost function TurnMoments<S, L>(kind: Kind<S, L>, met: (S, L, Copies) -> seq<Copies>, stored: seq<S>, l: L, c: Copies): seq<Copies> {
    var k := FindStored(kind, stored, l);
    if k == |stored| then met(kind.create(l, c).0, l, kind.create(l, c).1) else met(stored[k], l, c)
  }

  // The tables met in the first pass, after every turn and within it.
  ghost function Moments<S, L>(kind: Kind<S, L>, met: (S, L, Copies) -> seq<Copies>, stored: seq<S>, live: seq<L>, c: Copies): seq<Copies>
    decreases |live|
  {
    if live == [] then []
    else
      var (stored', c') := Upsert(kind, stored, live[0], c);
      TurnMoments(kind, met, stored, live[0], c) + [c'] + Moments(kind, met, stored', live[1..], c')
  }

  ghost predicate Tracked<S(!new), L(!new)>(kind: Kind<S, L>, met: (S, L, Copies) -> seq<Copies>) {
    && (forall l, c :: kind.create(l, c).1 == c)
    && (forall s, l, c :: Tracks(c, met(s, l, c), kind.update(s, l, c).1))
    && (forall s, c :: Drops(c, kind.destroy(s, c)))
  }

  ghost predicate Leaf<S(!new), L(!new)>(kind: Kind<S, L>) {
    && (forall l, c :: Adds(c, kind.create(l, c).1))
    && (forall s, l, c :: kind.update(s, l, c) == (s, c))
    && (forall s, c :: Drops(c, kind.destroy(s, c)))
  }

  lemma {:induction false} Pass1Tracks<S(!new), L(!new)>(kind: Kind<S, L>, met: (S, L, Copies) -> seq<Copies>, stored: seq<S>, live: seq<L>, c: Copies)
    requires Tracked(kind, met)
    ensures Tracks(c, Moments(kind, met, stored, live, c), Pass1(kind, stored, live, c).1)
    decreases |live|
  {
    if live != [] {
      var (stored', c') := Upsert(kind, stored, live[0], c);
      Pass1Tracks(kind, met, stored', live[1..], c');
      assert Tracks(c, TurnMoments(kind, met, stored, live[0], c), c');
      TracksThen(c, TurnMoments(kind, met, stored, live[0], c), c', Moments(kind, met, stored', live[1..], c'), Pass1(kind, stored, live, c).1);
    }
  }

  lemma {:induction false} Pass2Drops<S(!new), L(!new)>(kind: Kind<S, L>, stored: seq<S>, live: seq<L>, c: Copies)
    requires forall s, c :: Drops(c, kind.destroy(s, c))
    ensures Drops(c, Pass2(kind, stored, live, c).1)
    decreases |stored|
  {
    if stored != [] {
      if FindLive(kind, live, stored[0]) == |live| {
        Pass2Drops(kind, stored[1..], live, kind.destroy(stored[0], c));
        DropsTwice(c, kind.destroy(stored[0], c), Pass2(kind, stored, live, c).1);
      } else {
        Pass2Drops(kind, stored[1..], live, c);
      }
    }
  }

  lemma {:induction false} Pass1Adds<S(!new), L(!new)>(kind: Kind<S, L>, stored: seq<S>, live: seq<L>, c: Copies)
    requires Leaf(kind)
    ensures Adds(c, Pass1(kind, stored, live, c).1)
    decreases |live|
  {
    if live != [] {
      var (stored', c') := Upsert(kind, stored, live[0], c);
      Pass1Adds(kind, stored', live[1..], c');
      AddsTwice(c, c', Pass1(kind, stored, live, c).1);
    }
  }

  lemma {:induction false} DestroyAllDrops<S(!new), L(!new)>(kind: Kind<S, L>, stored: seq<S>, c: Copies)
    requires forall s, c :: Drops(c, kind.destroy(s, c))
    ensures Drops(c, DestroyAll(kind, stored, c))
    decreases |stored|
  {
    if stored != [] {
      DestroyAllDrops(kind, stored[1..], kind.destroy(stored[0], c));
      DropsTwice(c, kind.destroy(stored[0], c), DestroyAll(kind, stored, c));
    }
  }

  lemma {:induction false} PrepareTracks<S(!new), L(!new)>(kind: Kind<S, L>, met: (S, L, Copies) -> seq<Copies>, stored: seq<S>, live: seq<L>, c: Copies)
    requires Tracked(kind, met)
    ensures Tracks(c, Moments(kind, met, stored, live, c), Prepare(kind, stored, live, c).1)
  {
    var (stored', c') := Pass1(kind, stored, live, c);
    Pass1Tracks(kind, met, stored, live, c);
    Pass2Drops(kind, stored', live, c');
    TracksThenDrops(c, Moments(kind, met, stored, live, c), c', Prepare(kind, stored, live, c).1);
  }

  // Within one list of dataspaces or regions no copy is replaced.
  lemma LeafPrepareKeeps<S(!new), L(!new)>(kind: Kind<S, L>, stored: seq<S>, live: seq<L>, c: Copies)
    requires Leaf(kind)
    ensures Tracks(c, [], Prepare(kind, stored, live, c).1)
  {
    var (stored', c') := Pass1(kind, stored, live, c);
    Pass1Adds(kind, stored, live, c);
    Pass2Drops(kind, stored', live, c');
    AddsThenDrops(c, c', Prepare(kind, stored, live, c).1);
  }

  // ---- The kinds of records ----

  lemma RamDsLeaf(caps: seq<CapKcap>)
    ensures Leaf(RamDsKind(caps))
  {
    forall l: RamDs, c: Copies ensures Adds(c, RamDsKind(caps).create(l, c).1) {
      AddRefAdds(c, l.badge, l.size);
    }
    forall s: StoredRamDs, c: Copies ensures Drops(c, RamDsKind(caps).destroy(s, c)) {
      DropRefDrops(c, s.badge);
    }
  }

  lemma RegionLeaf(caps: seq<CapKcap>, maps: set<nat>)
    ensures Leaf(RegionKind(caps, maps))
  {
    forall l: Region, c: Copies ensures Adds(c, RegionKind(caps, maps).create(l, c).1) {
      AddRefAdds(c, l.dsBadge, l.size);
    }
    forall s: StoredRegion, c: Copies ensures Drops(c, RegionKind(caps, maps).destroy(s, c)) {
      DropRefDrops(c, s.dsBadge);
    }
  }

  ghost function Nothing<S, L>(): (S, L, Copies) -> seq<Copies> {
    (s: S, l: L, c: Copies) => []
  }

  lemma RamTracked(caps: seq<CapKcap>)
    ensures Tracked(RamSessionKind(caps), Nothing())
  {
    RamDsLeaf(caps);
    forall s: StoredRamSession, l: RamSession, c: Copies ensures Tracks(c, [], RamSessionKind(caps).update(s, l, c).1) {
      LeafPrepareKeeps(RamDsKind(caps), s.kids, l.kids, c);
    }
    forall s: StoredRamSession, c: Copies ensures Drops(c, RamSessionKind(caps).destroy(s, c)) {
      DestroyAllDrops(RamDsKind(caps), s.kids, c);
    }
  }

  lemma MapTracked(caps: seq<CapKcap>, maps: set<nat>)
    ensures Tracked(MapKind(caps, maps), Nothing())
  {
    RegionLeaf(caps, maps);
    forall s: StoredMap, l: RegionMap, c: Copies ensures Tracks(c, [], MapKind(caps, maps).update(s, l, c).1) {
      LeafPrepareKeeps(RegionKind(caps, maps), s.kids, l.kids, c);
    }
    forall s: StoredMap, c: Copies ensures Drops(c, MapKind(caps, maps).destroy(s, c)) {
      DestroyAllDrops(RegionKind(caps, maps), s.kids, c);
    }
  }

  // The tables met while the region maps of one session are handled.
  ghost function MapMoments(caps: seq<CapKcap>, maps: set<nat>): (StoredRmSession, RmSession, Copies) -> seq<Copies> {
    (s: StoredRmSession, l: RmSession, c: Copies) => Moments(MapKind(caps, maps), Nothing(), s.kids, l.kids, c)
  }

  lemma RmTracked(caps: seq<CapKcap>, maps: set<nat>)
    ensures Tracked(RmSessionKind(caps, maps), MapMoments(caps, maps))
    ensures Tracked(PdSessionKind(caps, maps), MapMoments(caps, maps))
  {
    MapTracked(caps, maps);
    forall s: StoredRmSession, l: RmSession, c: Copies
      ensures Tracks(c, MapMoments(caps, maps)(s, l, c), RmSessionKind(caps, maps).update(s, l, c).1)
      ensures Tracks(c, MapMoments(caps, maps)(s, l, c), PdSessionKind(caps, maps).update(s, l, c).1)
    {
      PrepareTracks(MapKind(caps, maps), Nothing(), s.kids, l.kids, c);
    }
    forall s: StoredRmSession, c: Copies
      ensures Drops(c, RmSessionKind(caps, maps).destroy(s, c)) && Drops(c, PdSessionKind(caps, maps).destroy(s, c))
    {
      DestroyAllDrops(MapKind(caps, maps), s.kids, c);
      DestroyAllDrops(MapKind(caps, maps), Reverse(s.kids), c);
    }
  }

  // ---- A whole checkpoint ----

  // The tables met during a checkpoint: after every session, and after every region map of a session.
  ghost function CheckpointMoments(s: Stored, w: World, c: Copies): seq<Copies> {
    var c1 := Prepare(RamSessionKind(w.caps), s.ram, w.ram, c).1;
    var c2 := Prepare(PdSessionKind(w.caps, Maps(w)), s.pd, w.pd, c1).1;
    Moments(RamSessionKind(w.caps), Nothing(), s.ram, w.ram, c) + [c1]
    + Moments(PdSessionKind(w.caps, Maps(w)), MapMoments(w.caps, Maps(w)), s.pd, w.pd, c1) + [c2]
    + Moments(RmSessionKind(w.caps, Maps(w)), MapMoments(w.caps, Maps(w)), s.rm, w.rm, c2)
  }

  // A copy that is known before and after a checkpoint is the same one exactly if its entry is there after
  // every session and every region map on the way: dataspaces that move elsewhere in between get a new copy.
  lemma CopyKeptIff(s: Stored, w: World, c: Copies, b: nat)
    requires Numbered(c) && Known(c, b) && Known(Checkpoint(s, w, c).1, b)
    ensures CopyOf(Checkpoint(s, w, c).1.table, b) == CopyOf(c.table, b) <==> InAll(CheckpointMoments(s, w, c), b)
  {
    var maps := Maps(w);
    var c1 := Prepare(RamSessionKind(w.caps), s.ram, w.ram, c).1;
    var c2 := Prepare(PdSessionKind(w.caps, maps), s.pd, w.pd, c1).1;
    var m1 := Moments(RamSessionKind(w.caps), Nothing(), s.ram, w.ram, c);
    var m2 := Moments(PdSessionKind(w.caps, maps), MapMoments(w.caps, maps), s.pd, w.pd, c1);
    var m3 := Moments(RmSessionKind(w.caps, maps), MapMoments(w.caps, maps), s.rm, w.rm, c2);
    RamTracked(w.caps);
    RmTracked(w.caps, maps);
    PrepareTracks(RamSessionKind(w.caps), Nothing(), s.ram, w.ram, c);
    PrepareTracks(PdSessionKind(w.caps, maps), MapMoments(w.caps, maps), s.pd, w.pd, c1);
    PrepareTracks(RmSessionKind(w.caps, maps), MapMoments(w.caps, maps), s.rm, w.rm, c2);
    TracksThen(c, m1, c1, m2, c2);
    TracksThen(c, m1 + [c1] + m2, c2, m3, Checkpoint(s, w, c).1);
  }

  lemma CheckpointWorks(s: Stored, w: World, c: Copies)
    ensures Works(c, Prepare(RamSessionKind(w.caps), s.ram, w.ram, c).1) && Works(c, Checkpoint(s, w, c).1)
  {
    var maps := Maps(w);
    var c1 := Prepare(RamSessionKind(w.caps), s.ram, w.ram, c).1;
    var c2 := Prepare(PdSessionKind(w.caps, maps), s.pd, w.pd, c1).1;
    RamTracked(w.caps);
    RmTracked(w.caps, maps);
    PrepareTracks(RamSessionKind(w.caps), Nothing(), s.ram, w.ram, c);
    PrepareTracks(PdSessionKind(w.caps, maps), MapMoments(w.caps, maps), s.pd, w.pd, c1);
    PrepareTracks(RmSessionKind(w.caps, maps), MapMoments(w.caps, maps), s.rm, w.rm, c2);
    WorksTwice(c, c1, c2);
    WorksTwice(c, c2, Checkpoint(s, w, c).1);
  }

  lemma WorksTwice(c: Copies, c1: Copies, c2: Copies)
    requires Works(c, c1) && Works(c1, c2)
    ensures Works(c, c2)
  {
  }
}
