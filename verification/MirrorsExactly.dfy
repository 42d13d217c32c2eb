// Exactly when one checkpoint makes the stored state describe the child.
module MirrorsExactly {
  import opened InfoList
  import opened CapMap
  import opened CopyTable
  import opened Reconcile
  import opened ReconcileKeys
  import opened StoredState
  import opened StoredRegions
  import opened StoredStateMirror

  // No object is recorded twice.
  ghost predicate RecordedOnce(s: Stored) {
    && DistinctKeys(RamView(), s.ram) && (forall x :: x in s.ram ==> DistinctKeys(RamDsView(), x.kids))
    && DistinctKeys(RmView(), s.pd) && (forall x :: x in s.pd ==> DistinctKeys(MapView(), x.kids))
    && DistinctKeys(RmView(), s.rm) && (forall x :: x in s.rm ==> DistinctKeys(MapView(), x.kids))
  }

  // ---- RAM sessions ----

  lemma RamDsIff(caps: seq<CapKcap>, stored: seq<StoredRamDs>, live: seq<RamDs>, c: Copies)
    requires DistinctLive(RamDsView(), live) && DistinctKeys(RamDsView(), stored)
    ensures RamMirrors(Prepare(RamDsKind(caps), stored, live, c).0, live) <==> SameRamDs(stored, live)
  {
    var kind, v := RamDsKind(caps), RamDsView();
    assert Keyed(kind, v);
    PrepareReconcilesIff(kind, v, stored, live, c);
    forall l | l in live
      ensures Refreshes(kind, v, stored, l) <==> forall s :: s in stored && s.badge == l.badge ==> DescribesRamDs(s, l)
    {
      if Refreshes(kind, v, stored, l) {
        forall s | s in stored && s.badge == l.badge ensures DescribesRamDs(s, l) {
          assert v.current(kind.update(s, l, c).0, l);
        }
      }
    }
  }

  lemma {:induction false} RamKidsIff(caps: seq<CapKcap>, stored: seq<StoredRamSession>, l: RamSession, s: StoredRamSession, c: Copies)
    requires DistinctKeys(RamView(), stored) && s in stored && s.head.badge == l.head.badge
    requires DistinctLive(RamDsView(), l.kids) && DistinctKeys(RamDsView(), s.kids)
    ensures RamView().current(RamSessionKind(caps).update(s, l, c).0, l) <==> SameRamDs(KidsOf(stored, l.head.badge), l.kids)
  {
    KidsOfHas(stored, l.head.badge);
    RamDsIff(caps, s.kids, l.kids, c);
  }

  lemma NewRamMirrors(caps: seq<CapKcap>, l: RamSession, c: Copies, c': Copies)
    requires DistinctLive(RamDsView(), l.kids)
    ensures var k := RamSessionKind(caps); RamView().current(k.update(k.create(l, c).0, l, c').0, l)
  {
    RamDsIff(caps, [], l.kids, c');
  }

  lemma {:induction false} RamIff(caps: seq<CapKcap>, stored: seq<StoredRamSession>, live: seq<RamSession>, c: Copies)
    requires DistinctLive(RamView(), live) && (forall l :: l in live ==> DistinctLive(RamDsView(), l.kids))
    requires DistinctKeys(RamView(), stored) && (forall s :: s in stored ==> DistinctKeys(RamDsView(), s.kids))
    ensures Reconciled(RamView(), Prepare(RamSessionKind(caps), stored, live, c).0, live)
            <==> forall l :: l in live ==> SameRamDs(KidsOf(stored, l.head.badge), l.kids)
  {
    var kind, v := RamSessionKind(caps), RamView();
    RamKeyed(caps);
    forall l | l in live
      ensures Steady(kind, v, stored, l) && (Refreshes(kind, v, stored, l) <==> SameRamDs(KidsOf(stored, l.head.badge), l.kids))
    {
      RamSessionIff(caps, stored, l);
    }
    PrepareReconcilesIff(kind, v, stored, live, c);
  }

  lemma {:induction false} RamSessionIff(caps: seq<CapKcap>, stored: seq<StoredRamSession>, l: RamSession)
    requires DistinctLive(RamDsView(), l.kids)
    requires DistinctKeys(RamView(), stored) && (forall s :: s in stored ==> DistinctKeys(RamDsView(), s.kids))
    ensures Steady(RamSessionKind(caps), RamView(), stored, l)
    ensures Refreshes(RamSessionKind(caps), RamView(), stored, l) <==> SameRamDs(KidsOf(stored, l.head.badge), l.kids)
  {
    forall s, c | s in stored && s.head.badge == l.head.badge
      ensures RamView().current(RamSessionKind(caps).update(s, l, c).0, l) <==> SameRamDs(KidsOf(stored, l.head.badge), l.kids)
    {
      RamKidsIff(caps, stored, l, s, c);
    }
    forall c, c' ensures var k := RamSessionKind(caps); RamView().current(k.update(k.create(l, c).0, l, c').0, l) {
      NewRamMirrors(caps, l, c, c');
    }
    FromUpdates(RamSessionKind(caps), RamView(), stored, l, SameRamDs(KidsOf(stored, l.head.badge), l.kids), true);
    if !HasKey(RamView(), stored, l.head.badge) {
      KidsOfHas(stored, l.head.badge);
    }
  }

  // Whether records are brought up to date, told by two conditions that do not depend on the table.
  lemma FromUpdates<S(!new), L(!new), F(!new)>(kind: Kind<S, L>, v: View<S, L, F>, stored: seq<S>, l: L, old': bool, new': bool)
    requires forall s, c :: s in stored && v.key(s) == v.liveKey(l) ==> (v.current(kind.update(s, l, c).0, l) <==> old')
    requires !HasKey(v, stored, v.liveKey(l)) ==> forall c, c' :: v.current(kind.update(kind.create(l, c).0, l, c').0, l) <==> new'
    ensures Steady(kind, v, stored, l)
    ensures Refreshes(kind, v, stored, l) <==> if HasKey(v, stored, v.liveKey(l)) then old' else new'
  {
    var c := Copies([], 1);
    if HasKey(v, stored, v.liveKey(l)) {
      var s :| s in stored && v.key(s) == v.liveKey(l);
      assert v.current(kind.update(s, l, c).0, l) <==> old';
    } else {
      assert v.current(kind.update(kind.create(l, c).0, l, c).0, l) <==> new';
    }
  }

  // ---- Region maps ----

  ghost predicate ClearMap(stored: seq<StoredMap>, l: RegionMap) {
    && (forall s :: s in stored && s.head.badge == l.head.badge ==> DescribesMap(s.head, l.head))
    && Unambiguous(RegionsOf(stored, l.head.badge), l.kids)
  }

  lemma MapUpdateIff(caps: seq<CapKcap>, maps: set<nat>, stored: seq<StoredMap>, l: RegionMap, s: StoredMap, c: Copies)
    requires DistinctKeys(MapView(), stored) && s in stored && s.head.badge == l.head.badge && Separate(l.kids)
    ensures MapView().current(MapKind(caps, maps).update(s, l, c).0, l) <==> ClearMap(stored, l)
  {
    RegionsOfHas(stored, l.head.badge);
    RegionsMirroredIff(caps, maps, s.kids, l.kids, c);
    forall t | t in stored && t.head.badge == l.head.badge ensures t == s {
      SameRecord(MapView(), stored, t, s);
    }
  }

  lemma NewMapIff(caps: seq<CapKcap>, maps: set<nat>, stored: seq<StoredMap>, l: RegionMap, c: Copies, c': Copies)
    requires !HasKey(MapView(), stored, l.head.badge) && Separate(l.kids)
    ensures var k := MapKind(caps, maps); MapView().current(k.update(k.create(l, c).0, l, c').0, l) <==> ClearMap(stored, l)
  {
    assert forall s :: s in stored ==> MapView().key(s) != l.head.badge;
    RegionsOfHas(stored, l.head.badge);
    RegionsMirroredIff(caps, maps, [], l.kids, c');
  }

  lemma MapsIff(caps: seq<CapKcap>, maps: set<nat>, stored: seq<StoredMap>, live: seq<RegionMap>, c: Copies)
    requires WellFormedMaps(live) && DistinctKeys(MapView(), stored)
    ensures MapsMirror(Prepare(MapKind(caps, maps), stored, live, c).0, live) <==> ClearMaps(stored, live)
  {
    var kind, v := MapKind(caps, maps), MapView();
    MapKeyed(caps, maps);
    forall l | l in live ensures Steady(kind, v, stored, l) && (Refreshes(kind, v, stored, l) <==> ClearMap(stored, l)) {
      MapIff(caps, maps, stored, l);
    }
    PrepareReconcilesIff(kind, v, stored, live, c);
    assert ClearMaps(stored, live) <==> forall l :: l in live ==> ClearMap(stored, l);
  }

  lemma MapIff(caps: seq<CapKcap>, maps: set<nat>, stored: seq<StoredMap>, l: RegionMap)
    requires DistinctKeys(MapView(), stored) && Separate(l.kids)
    ensures Steady(MapKind(caps, maps), MapView(), stored, l)
    ensures Refreshes(MapKind(caps, maps), MapView(), stored, l) <==> ClearMap(stored, l)
  {
    var kind, v := MapKind(caps, maps), MapView();
    forall s, c | s in stored && v.key(s) == v.liveKey(l) ensures v.current(kind.update(s, l, c).0, l) <==> ClearMap(stored, l) {
      MapUpdateIff(caps, maps, stored, l, s, c);
    }
    if !HasKey(v, stored, v.liveKey(l)) {
      forall c, c' ensures v.current(kind.update(kind.create(l, c).0, l, c').0, l) <==> ClearMap(stored, l) {
        NewMapIff(caps, maps, stored, l, c, c');
      }
    }
    FromUpdates(kind, v, stored, l, ClearMap(stored, l), ClearMap(stored, l));
  }

  // ---- PD and RM sessions ----

  lemma SeedIff(caps: seq<CapKcap>, l: RmSession)
    requires WellFormedMaps(l.kids)
    ensures DistinctKeys(MapView(), PdSeed(caps, l)) && (ClearMaps(PdSeed(caps, l), l.kids) <==> ClearMaps([], l.kids))
  {
    SeedDistinct(caps, l);
    forall s, m | s in PdSeed(caps, l) && m in l.kids && s.head.badge == m.head.badge ensures DescribesMap(s.head, m.head) {
      SeedDescribes(caps, l, s, m);
    }
    forall m | m in l.kids ensures RegionsOf(PdSeed(caps, l), m.head.badge) == RegionsOf([], m.head.badge) {
      EmptyMaps(PdSeed(caps, l), m.head.badge);
    }
  }

  lemma {:induction false} RmUpdateIff(caps: seq<CapKcap>, maps: set<nat>, stored: seq<StoredRmSession>, l: RmSession, s: StoredRmSession, c: Copies)
    requires DistinctKeys(RmView(), stored) && s in stored && s.head.badge == l.head.badge
    requires WellFormedMaps(l.kids) && DistinctKeys(MapView(), s.kids)
    ensures var clear := ClearMaps(KidsOf(stored, l.head.badge), l.kids);
      && (RmView().current(RmSessionKind(caps, maps).update(s, l, c).0, l) <==> clear)
      && (RmView().current(PdSessionKind(caps, maps).update(s, l, c).0, l) <==> clear)
  {
    KidsOfHas(stored, l.head.badge);
    MapsIff(caps, maps, s.kids, l.kids, c);
  }

  lemma NewRmIff(caps: seq<CapKcap>, maps: set<nat>, l: RmSession, c: Copies, c': Copies)
    requires WellFormedMaps(l.kids)
    ensures var k := RmSessionKind(caps, maps); RmView().current(k.update(k.create(l, c).0, l, c').0, l) <==> ClearMaps([], l.kids)
    ensures var k := PdSessionKind(caps, maps); RmView().current(k.update(k.create(l, c).0, l, c').0, l) <==> ClearMaps([], l.kids)
  {
    MapsIff(caps, maps, [], l.kids, c');
    SeedIff(caps, l);
    MapsIff(caps, maps, PdSeed(caps, l), l.kids, c');
  }

  lemma {:induction false} RmSessionIff(caps: seq<CapKcap>, maps: set<nat>, pd: bool, stored: seq<StoredRmSession>, l: RmSession)
    requires WellFormedMaps(l.kids)
    requires DistinctKeys(RmView(), stored) && (forall s :: s in stored ==> DistinctKeys(MapView(), s.kids))
    ensures var kind := if pd then PdSessionKind(caps, maps) else RmSessionKind(caps, maps);
      && Steady(kind, RmView(), stored, l)
      && (Refreshes(kind, RmView(), stored, l) <==> ClearMaps(KidsOf(stored, l.head.badge), l.kids))
  {
    var kind, v := if pd then PdSessionKind(caps, maps) else RmSessionKind(caps, maps), RmView();
    var clear := ClearMaps(KidsOf(stored, l.head.badge), l.kids);
    forall s, c | s in stored && v.key(s) == v.liveKey(l) ensures v.current(kind.update(s, l, c).0, l) <==> clear {
      RmUpdateIff(caps, maps, stored, l, s, c);
    }
    forall c, c' ensures v.current(kind.update(kind.create(l, c).0, l, c').0, l) <==> ClearMaps([], l.kids) {
      NewRmIff(caps, maps, l, c, c');
    }
    FromUpdates(kind, v, stored, l, clear, ClearMaps([], l.kids));
    if !HasKey(v, stored, l.head.badge) {
      assert forall s :: s in stored ==> v.key(s) != l.head.badge;
      KidsOfHas(stored, l.head.badge);
    }
  }

  lemma {:induction false} RmIff(caps: seq<CapKcap>, maps: set<nat>, pd: bool, stored: seq<StoredRmSession>, live: seq<RmSession>, c: Copies)
    requires DistinctLive(RmView(), live) && (forall l :: l in live ==> WellFormedMaps(l.kids))
    requires DistinctKeys(RmView(), stored) && (forall s :: s in stored ==> DistinctKeys(MapView(), s.kids))
    ensures var kind := if pd then PdSessionKind(caps, maps) else RmSessionKind(caps, maps);
      Reconciled(RmView(), Prepare(kind, stored, live, c).0, live) <==> forall l :: l in live ==> ClearMaps(KidsOf(stored, l.head.badge), l.kids)
  {
    var kind, v := if pd then PdSessionKind(caps, maps) else RmSessionKind(caps, maps), RmView();
    RmKeyed(caps, maps);
    forall l | l in live
      ensures Steady(kind, v, stored, l) && (Refreshes(kind, v, stored, l) <==> ClearMaps(KidsOf(stored, l.head.badge), l.kids))
    {
      RmSessionIff(caps, maps, pd, stored, l);
    }
    PrepareReconcilesIff(kind, v, stored, live, c);
  }

  // ---- The whole state ----

  // One checkpoint makes the stored state describe the child at every level if and only if no object recorded
  // earlier is another one now and no lookup of attached regions is misled.
  lemma CheckpointMirrorsIff(s: Stored, w: World, c: Copies)
    requires WellFormed(w) && RecordedOnce(s)
    ensures Mirrors(Checkpoint(s, w, c).0, w) <==> Clear(s, w)
  {
    var (ram, c1) := Prepare(RamSessionKind(w.caps), s.ram, w.ram, c);
    var (pd, c2) := Prepare(PdSessionKind(w.caps, Maps(w)), s.pd, w.pd, c1);
    RamIff(w.caps, s.ram, w.ram, c);
    RmIff(w.caps, Maps(w), true, s.pd, w.pd, c1);
    RmIff(w.caps, Maps(w), false, s.rm, w.rm, c2);
  }
}
