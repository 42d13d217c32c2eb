// One checkpoint makes the stored state describe the child at every level, and a second one right
// after it changes nothing.
module StoredStateMirror {
  import opened InfoList
  import opened CapMap
  import opened CopyTable
  import opened Reconcile
  import opened ReconcileKeys
  import opened StoredState
  import opened StoredRegions

  // ---- Views ----

  ghost predicate DescribesRamDs(s: StoredRamDs, l: RamDs) {
    && s.badge == l.badge && s.size == l.size && s.cached == l.cached
    && s.bootstrapped == l.bootstrapped && s.managed == l.managed && s.timestamp == l.timestamp
  }

  // A record of a RAM dataspace is never touched again, its copy included.
  ghost function RamDsView(): View<StoredRamDs, RamDs, StoredRamDs> {
    View((s: StoredRamDs) => s.badge, (l: RamDs) => l.badge, (s: StoredRamDs) => s, (s: StoredRamDs, l: RamDs) => DescribesRamDs(s, l))
  }

  // Of an object that owns a list, mirrors says that the lists agree.
  ghost function SessionView<C(!new), D(!new)>(mirrors: (seq<C>, seq<D>) -> bool)
    : View<Node<StoredSessionHead, C>, Node<SessionHead, D>, StoredSessionHead>
  {
    View((s: Node<StoredSessionHead, C>) => s.head.badge, (l: Node<SessionHead, D>) => l.head.badge,
         (s: Node<StoredSessionHead, C>) => s.head,
         (s: Node<StoredSessionHead, C>, l: Node<SessionHead, D>) => s.head.badge == l.head.badge && mirrors(s.kids, l.kids))
  }

  ghost predicate DescribesMap(s: StoredMapHead, l: MapHead) {
    s.badge == l.badge && s.dsBadge == l.dsBadge && s.size == l.size && s.bootstrapped == l.bootstrapped
  }

  // The fault handler is the one field of a region map that is refreshed.
  ghost function MapView(): View<StoredMap, RegionMap, StoredMapHead> {
    View((s: StoredMap) => s.head.badge, (l: RegionMap) => l.head.badge, (s: StoredMap) => s.head.(sigh := 0),
         (s: StoredMap, l: RegionMap) => DescribesMap(s.head, l.head) && s.head.sigh == l.head.sigh && Mirrored(s.kids, l.kids))
  }

  ghost predicate RamMirrors(s: seq<StoredRamDs>, l: seq<RamDs>) {
    Reconciled(RamDsView(), s, l)
  }

  ghost predicate MapsMirror(s: seq<StoredMap>, l: seq<RegionMap>) {
    Reconciled(MapView(), s, l)
  }

  ghost function RamView(): View<StoredRamSession, RamSession, StoredSessionHead> {
    SessionView((s: seq<StoredRamDs>, l: seq<RamDs>) => RamMirrors(s, l))
  }

  ghost function RmView(): View<StoredRmSession, RmSession, StoredSessionHead> {
    SessionView((s: seq<StoredMap>, l: seq<RegionMap>) => MapsMirror(s, l))
  }

  // The stored state describes the child.
  ghost predicate Mirrors(s: Stored, w: World) {
    Reconciled(RamView(), s.ram, w.ram) && Reconciled(RmView(), s.pd, w.pd) && Reconciled(RmView(), s.rm, w.rm)
  }

  // ---- What a checkpoint relies on ----

  // A badge names one object, and a region map has no overlapping attachments.
  ghost predicate WellFormedMaps(live: seq<RegionMap>) {
    DistinctLive(MapView(), live) && forall l :: l in live ==> Separate(l.kids)
  }

  ghost predicate WellFormed(w: World) {
    && DistinctLive(RamView(), w.ram) && (forall l :: l in w.ram ==> DistinctLive(RamDsView(), l.kids))
    && DistinctLive(RmView(), w.pd) && (forall l :: l in w.pd ==> WellFormedMaps(l.kids))
    && DistinctLive(RmView(), w.rm) && (forall l :: l in w.rm ==> WellFormedMaps(l.kids))
  }

  // What the stored list has for a badge.
  ghost function RegionsOf(stored: seq<StoredMap>, badge: nat): seq<StoredRegion> {
    if stored == [] then []
    else if stored[0].head.badge == badge then stored[0].kids
    else RegionsOf(stored[1..], badge)
  }

  ghost function KidsOf<C>(stored: seq<Node<StoredSessionHead, C>>, badge: nat): seq<C> {
    if stored == [] then []
    else if stored[0].head.badge == badge then stored[0].kids
    else KidsOf(stored[1..], badge)
  }

  // A dataspace recorded earlier is still the same one.
  ghost predicate SameRamDs(stored: seq<StoredRamDs>, live: seq<RamDs>) {
    && DistinctKeys(RamDsView(), stored)
    && forall s, l :: s in stored && l in live && s.badge == l.badge ==> DescribesRamDs(s, l)
  }

  // A region map recorded earlier is still the same one, and in none can a lookup be misled.
  ghost predicate ClearMaps(stored: seq<StoredMap>, live: seq<RegionMap>) {
    && DistinctKeys(MapView(), stored)
    && (forall s, l :: s in stored && l in live && s.head.badge == l.head.badge ==> DescribesMap(s.head, l.head))
    && forall l :: l in live ==> Unambiguous(RegionsOf(stored, l.head.badge), l.kids)
  }

  ghost predicate Clear(s: Stored, w: World) {
    && DistinctKeys(RamView(), s.ram) && (forall l :: l in w.ram ==> SameRamDs(KidsOf(s.ram, l.head.badge), l.kids))
    && DistinctKeys(RmView(), s.pd) && (forall l :: l in w.pd ==> ClearMaps(KidsOf(s.pd, l.head.badge), l.kids))
    && DistinctKeys(RmView(), s.rm) && (forall l :: l in w.rm ==> ClearMaps(KidsOf(s.rm, l.head.badge), l.kids))
  }

  lemma {:induction false} KidsOfHas<C(!new)>(stored: seq<Node<StoredSessionHead, C>>, badge: nat)
    ensures (forall s :: s in stored ==> s.head.badge != badge) ==> KidsOf(stored, badge) == []
    ensures (forall i, j :: 0 <= i < j < |stored| ==> stored[i].head.badge != stored[j].head.badge) ==>
      forall s :: s in stored && s.head.badge == badge ==> s.kids == KidsOf(stored, badge)
  {
    if stored != [] {
      assert stored == [stored[0]] + stored[1..];
      KidsOfHas(stored[1..], badge);
    }
  }

  lemma {:induction false} RegionsOfHas(stored: seq<StoredMap>, badge: nat)
    ensures (forall s :: s in stored ==> s.head.badge != badge) ==> RegionsOf(stored, badge) == []
    ensures DistinctKeys(MapView(), stored) ==>
      forall s :: s in stored && s.head.badge == badge ==> s.kids == RegionsOf(stored, badge)
  {
    if stored != [] {
      assert stored == [stored[0]] + stored[1..];
      RegionsOfHas(stored[1..], badge);
    }
  }

  // ---- RAM sessions ----

  lemma RamDsPrepared(caps: seq<CapKcap>, stored: seq<StoredRamDs>, live: seq<RamDs>, c: Copies)
    requires DistinctLive(RamDsView(), live) && SameRamDs(stored, live)
    ensures RamMirrors(Prepare(RamDsKind(caps), stored, live, c).0, live)
    ensures forall s, l :: s in stored && l in live && s.badge == l.badge ==> s in Prepare(RamDsKind(caps), stored, live, c).0
  {
    var kind, v := RamDsKind(caps), RamDsView();
    assert Keyed(kind, v);
    PrepareReconciles(kind, v, stored, live, c);
    forall s, l | s in stored && l in live && s.badge == l.badge ensures s in Prepare(kind, stored, live, c).0 {
      assert Updated(kind, Prepare(kind, stored, live, c).0, s, l);
    }
  }

  lemma {:induction false} RamPrepared(caps: seq<CapKcap>, stored: seq<StoredRamSession>, live: seq<RamSession>, c: Copies)
    requires DistinctLive(RamView(), live) && (forall l :: l in live ==> DistinctLive(RamDsView(), l.kids))
    requires DistinctKeys(RamView(), stored) && (forall l :: l in live ==> SameRamDs(KidsOf(stored, l.head.badge), l.kids))
    ensures Reconciled(RamView(), Prepare(RamSessionKind(caps), stored, live, c).0, live)
  {
    var kind, v := RamSessionKind(caps), RamView();
    RamKeyed(caps);
    RamRefreshes(caps, stored, live);
    PrepareReconciles(kind, v, stored, live, c);
  }

  lemma {:induction false} RamRefreshes(caps: seq<CapKcap>, stored: seq<StoredRamSession>, live: seq<RamSession>)
    requires DistinctKeys(RamView(), stored)
    requires forall l :: l in live ==> DistinctLive(RamDsView(), l.kids) && SameRamDs(KidsOf(stored, l.head.badge), l.kids)
    ensures forall l :: l in live ==> Refreshes(RamSessionKind(caps), RamView(), stored, l)
  {
    forall l | l in live ensures Refreshes(RamSessionKind(caps), RamView(), stored, l) {
      KidsOfHas(stored, l.head.badge);
      forall c1 ensures RamMirrors(Prepare(RamDsKind(caps), KidsOf(stored, l.head.badge), l.kids, c1).0, l.kids) {
        RamDsPrepared(caps, KidsOf(stored, l.head.badge), l.kids, c1);
      }
    }
  }

  lemma RamKeyed(caps: seq<CapKcap>)
    ensures Keyed(RamSessionKind(caps), RamView())
  {
    var kind := RamSessionKind(caps);
    forall s, l ensures kind.found(s, l) == SameSession(s.head, l.head) && kind.alive(l, s) == SameSession(s.head, l.head) {
    }
  }

  // ---- Region maps, PD and RM sessions ----

  lemma MapKeyed(caps: seq<CapKcap>, maps: set<nat>)
    ensures Keyed(MapKind(caps, maps), MapView())
  {
  }

  lemma RmKeyed(caps: seq<CapKcap>, maps: set<nat>)
    ensures Keyed(RmSessionKind(caps, maps), RmView()) && Keyed(PdSessionKind(caps, maps), RmView())
  {
    var kind, kind' := RmSessionKind(caps, maps), PdSessionKind(caps, maps);
    forall s, l ensures kind.found(s, l) == SameSession(s.head, l.head) && kind.alive(l, s) == SameSession(s.head, l.head) {
    }
    forall s, l ensures kind'.found(s, l) == SameSession(s.head, l.head) && kind'.alive(l, s) == SameSession(s.head, l.head) {
    }
  }

  lemma MapsRefresh(caps: seq<CapKcap>, maps: set<nat>, stored: seq<StoredMap>, live: seq<RegionMap>)
    requires WellFormedMaps(live) && ClearMaps(stored, live)
    ensures forall l :: l in live ==> Refreshes(MapKind(caps, maps), MapView(), stored, l)
  {
    forall l | l in live ensures Refreshes(MapKind(caps, maps), MapView(), stored, l) {
      RegionsOfHas(stored, l.head.badge);
      forall c1 ensures Mirrored(Prepare(RegionKind(caps, maps), RegionsOf(stored, l.head.badge), l.kids, c1).0, l.kids) {
        RegionsMirroredIff(caps, maps, RegionsOf(stored, l.head.badge), l.kids, c1);
      }
    }
  }

  lemma MapsPrepared(caps: seq<CapKcap>, maps: set<nat>, stored: seq<StoredMap>, live: seq<RegionMap>, c: Copies)
    requires WellFormedMaps(live) && ClearMaps(stored, live)
    ensures MapsMirror(Prepare(MapKind(caps, maps), stored, live, c).0, live)
  {
    MapKeyed(caps, maps);
    MapsRefresh(caps, maps, stored, live);
    PrepareReconciles(MapKind(caps, maps), MapView(), stored, live, c);
  }

  lemma SeedDescribes(caps: seq<CapKcap>, l: RmSession, s: StoredMap, m: RegionMap)
    requires DistinctLive(MapView(), l.kids) && s in PdSeed(caps, l) && m in l.kids && s.head.badge == m.head.badge
    ensures DescribesMap(s.head, m.head)
  {
    var i :| 0 <= i < |l.kids| && PdSeed(caps, l)[i] == s;
    var j :| 0 <= j < |l.kids| && l.kids[j] == m;
    assert MapView().liveKey(l.kids[i]) == MapView().liveKey(l.kids[j]);
  }

  lemma SeedDistinct(caps: seq<CapKcap>, l: RmSession)
    requires DistinctLive(MapView(), l.kids)
    ensures DistinctKeys(MapView(), PdSeed(caps, l))
  {
    var seed := PdSeed(caps, l);
    forall i, j | 0 <= i < j < |seed| ensures MapView().key(seed[i]) != MapView().key(seed[j]) {
      assert MapView().liveKey(l.kids[i]) != MapView().liveKey(l.kids[j]);
    }
  }

  // A new PD record comes with three empty region maps, which is as good as none.
  lemma SeedIsClear(caps: seq<CapKcap>, l: RmSession)
    requires WellFormedMaps(l.kids) && ClearMaps([], l.kids)
    ensures ClearMaps(PdSeed(caps, l), l.kids)
  {
    SeedDistinct(caps, l);
    forall s, m | s in PdSeed(caps, l) && m in l.kids && s.head.badge == m.head.badge ensures DescribesMap(s.head, m.head) {
      SeedDescribes(caps, l, s, m);
    }
    forall m | m in l.kids ensures RegionsOf(PdSeed(caps, l), m.head.badge) == [] {
      EmptyMaps(PdSeed(caps, l), m.head.badge);
    }
  }

  lemma {:induction false} EmptyMaps(stored: seq<StoredMap>, badge: nat)
    requires forall i :: 0 <= i < |stored| ==> stored[i].kids == []
    ensures RegionsOf(stored, badge) == []
  {
    if stored != [] {
      EmptyMaps(stored[1..], badge);
    }
  }

  lemma {:induction false} RmRefreshes(caps: seq<CapKcap>, maps: set<nat>, stored: seq<StoredRmSession>, live: seq<RmSession>)
    requires DistinctKeys(RmView(), stored) && forall l :: l in live ==> WellFormedMaps(l.kids) && ClearMaps(KidsOf(stored, l.head.badge), l.kids)
    ensures forall l :: l in live ==>
      Refreshes(RmSessionKind(caps, maps), RmView(), stored, l) && Refreshes(PdSessionKind(caps, maps), RmView(), stored, l)
  {
    var rm, pd, v := RmSessionKind(caps, maps), PdSessionKind(caps, maps), RmView();
    forall l | l in live ensures Refreshes(rm, v, stored, l) && Refreshes(pd, v, stored, l) {
      KidsOfHas(stored, l.head.badge);
      var kids := KidsOf(stored, l.head.badge);
      forall c1 ensures MapsMirror(Prepare(MapKind(caps, maps), kids, l.kids, c1).0, l.kids) {
        MapsPrepared(caps, maps, kids, l.kids, c1);
      }
      if !HasKey(v, stored, l.head.badge) {
        SeedIsClear(caps, l);
        forall c1 ensures MapsMirror(Prepare(MapKind(caps, maps), PdSeed(caps, l), l.kids, c1).0, l.kids) {
          MapsPrepared(caps, maps, PdSeed(caps, l), l.kids, c1);
        }
      }
    }
  }

  lemma {:induction false} RmPrepared(caps: seq<CapKcap>, maps: set<nat>, stored: seq<StoredRmSession>, live: seq<RmSession>, c: Copies)
    requires DistinctLive(RmView(), live) && (forall l :: l in live ==> WellFormedMaps(l.kids))
    requires DistinctKeys(RmView(), stored) && (forall l :: l in live ==> ClearMaps(KidsOf(stored, l.head.badge), l.kids))
    ensures Reconciled(RmView(), Prepare(RmSessionKind(caps, maps), stored, live, c).0, live)
    ensures Reconciled(RmView(), Prepare(PdSessionKind(caps, maps), stored, live, c).0, live)
  {
    RmKeyed(caps, maps);
    RmRefreshes(caps, maps, stored, live);
    PrepareReconciles(RmSessionKind(caps, maps), RmView(), stored, live, c);
    PrepareReconciles(PdSessionKind(caps, maps), RmView(), stored, live, c);
  }

  // Unless a lookup of attached regions is misled, one checkpoint makes the stored state describe the
  // child: the same sessions, dataspaces, region maps and attachments at every level.
  lemma CheckpointMirrors(s: Stored, w: World, c: Copies)
    requires WellFormed(w) && Clear(s, w)
    ensures Mirrors(Checkpoint(s, w, c).0, w)
  {
    RamPrepared(w.caps, s.ram, w.ram, c);
    var (ram, c1) := Prepare(RamSessionKind(w.caps), s.ram, w.ram, c);
    RmPrepared(w.caps, Maps(w), s.pd, w.pd, c1);
    var (pd, c2) := Prepare(PdSessionKind(w.caps, Maps(w)), s.pd, w.pd, c1);
    RmPrepared(w.caps, Maps(w), s.rm, w.rm, c2);
  }

  // ---- A second checkpoint ----

  lemma RegionsIdle(caps: seq<CapKcap>, maps: set<nat>, stored: seq<StoredRegion>, live: seq<Region>, c: Copies)
    requires Mirrored(stored, live)
    ensures Prepare(RegionKind(caps, maps), stored, live, c) == (stored, c)
  {
    forall l | l in live ensures Found(stored, l) {
      assert LiveAt(live, l.relAddr);
      var s :| s in stored && s.relAddr == l.relAddr;
      assert Covers(s.relAddr, s.size, l.relAddr);
    }
    RegionPass1Idle(caps, maps, stored, live, c);
    forall s | s in stored ensures CoveredBy(live, s) {
      assert StoredAt(stored, s.relAddr);
      var l :| l in live && l.relAddr == s.relAddr;
      assert Covers(l.relAddr, l.size, s.relAddr);
    }
    RegionPass2Idle(caps, maps, stored, live, c);
  }

  lemma {:induction false} RegionPass1Idle(caps: seq<CapKcap>, maps: set<nat>, stored: seq<StoredRegion>, live: seq<Region>, c: Copies)
    requires forall l :: l in live ==> Found(stored, l)
    ensures Pass1(RegionKind(caps, maps), stored, live, c) == (stored, c)
    decreases |live|
  {
    if live != [] {
      UpsertRegion(caps, maps, stored, live[0], c);
      assert Found(stored, live[0]) && forall l :: l in live[1..] ==> l in live;
      RegionPass1Idle(caps, maps, stored, live[1..], c);
    }
  }

  lemma {:induction false} RegionPass2Idle(caps: seq<CapKcap>, maps: set<nat>, stored: seq<StoredRegion>, live: seq<Region>, c: Copies)
    requires forall s :: s in stored ==> CoveredBy(live, s)
    ensures Pass2(RegionKind(caps, maps), stored, live, c) == (stored, c)
    decreases |stored|
  {
    if stored != [] {
      var s := stored[0];
      assert CoveredBy(live, s);
      var l :| l in live && Covers(l.relAddr, l.size, s.relAddr);
      assert FindLive(RegionKind(caps, maps), live, s) < |live|;
      assert forall s :: s in stored[1..] ==> s in stored;
      RegionPass2Idle(caps, maps, stored[1..], live, c);
      assert [s] + stored[1..] == stored;
    }
  }

  lemma RamIdle(caps: seq<CapKcap>, stored: seq<StoredRamSession>, live: seq<RamSession>, c: Copies)
    requires Reconciled(RamView(), stored, live)
    ensures Prepare(RamSessionKind(caps), stored, live, c) == (stored, c)
  {
    var kind, v := RamSessionKind(caps), RamView();
    RamKeyed(caps);
    assert Keyed(RamDsKind(caps), RamDsView());
    forall s, l, c1 | s in stored && l in live && v.current(s, l) ensures kind.update(s, l, c1) == (s, c1) {
      assert RamMirrors(s.kids, l.kids);
      PrepareIdempotent(RamDsKind(caps), RamDsView(), s.kids, l.kids, c1);
    }
    PrepareIdempotent(kind, v, stored, live, c);
  }

  lemma MapsIdle(caps: seq<CapKcap>, maps: set<nat>, stored: seq<StoredMap>, live: seq<RegionMap>, c: Copies)
    requires MapsMirror(stored, live)
    ensures Prepare(MapKind(caps, maps), stored, live, c) == (stored, c)
  {
    var kind, v := MapKind(caps, maps), MapView();
    MapKeyed(caps, maps);
    forall s, l, c1 | s in stored && l in live && v.current(s, l) ensures kind.update(s, l, c1) == (s, c1) {
      RegionsIdle(caps, maps, s.kids, l.kids, c1);
    }
    PrepareIdempotent(kind, v, stored, live, c);
  }

  lemma RmIdle(caps: seq<CapKcap>, maps: set<nat>, stored: seq<StoredRmSession>, live: seq<RmSession>, c: Copies)
    requires Reconciled(RmView(), stored, live)
    ensures Prepare(RmSessionKind(caps, maps), stored, live, c) == (stored, c)
    ensures Prepare(PdSessionKind(caps, maps), stored, live, c) == (stored, c)
  {
    var rm, pd, v := RmSessionKind(caps, maps), PdSessionKind(caps, maps), RmView();
    RmKeyed(caps, maps);
    forall s, l, c1 | s in stored && l in live && v.current(s, l) ensures rm.update(s, l, c1) == (s, c1) && pd.update(s, l, c1) == (s, c1) {
      assert MapsMirror(s.kids, l.kids);
      MapsIdle(caps, maps, s.kids, l.kids, c1);
    }
    PrepareIdempotent(rm, v, stored, live, c);
    PrepareIdempotent(pd, v, stored, live, c);
  }

  // A checkpoint of an unchanged child leaves the stored state and the table of copies as they are.
  lemma CheckpointIdempotent(s: Stored, w: World, c: Copies)
    requires Mirrors(s, w)
    ensures Checkpoint(s, w, c) == (s, c)
  {
    RamIdle(w.caps, s.ram, w.ram, c);
    RmIdle(w.caps, Maps(w), s.pd, w.pd, c);
    RmIdle(w.caps, Maps(w), s.rm, w.rm, c);
  }
}
