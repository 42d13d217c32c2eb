// The loops of src/rtcr/checkpointer.cc that bring the stored state up to date, each proved to
// compute the reconciliation of its kind of record.
module Checkpointer {
  import opened InfoList
  import opened CapMap
  import opened CopyTable
  import opened CopyRegistry
  import opened Reconcile
  import opened StoredState

  class Checkpointer {
    const copyDataspaces: CopyDataspaces
    var capabilityMapInfos: seq<CapKcap>
    var regionMapDataspaces: seq<nat>

    ghost predicate Valid()
      reads this, copyDataspaces, copyDataspaces.Repr
    {
      this !in copyDataspaces.Repr && copyDataspaces.Valid()
    }

    ghost function Table(): Copies
      requires Valid()
      reads this, copyDataspaces, copyDataspaces.Repr
    {
      copyDataspaces.Table()
    }

    ghost function MapSet(): set<nat>
      reads this
    {
      set b | b in regionMapDataspaces
    }

    constructor ()
      ensures Valid() && fresh(copyDataspaces) && fresh(copyDataspaces.Repr) && Table() == Copies([], 1)
    {
      copyDataspaces := new CopyDataspaces();
      capabilityMapInfos, regionMapDataspaces := [], [];
    }

    // ---- RAM sessions ----

    method CreateStoredRamDataspace(l: RamDs) returns (s: StoredRamDs)
      requires Valid()
      modifies copyDataspaces.Repr
      ensures Valid() && fresh(copyDataspaces.Repr - old(copyDataspaces.Repr))
      ensures (s, Table()) == CreateRamDs(capabilityMapInfos, l, old(Table()))
    {
      var copy := copyDataspaces.Acquire(l.badge, l.size);
      s := StoredRamDs(KcapOf(capabilityMapInfos, l.badge), l.badge, l.bootstrapped, copy, l.size, l.cached, l.managed, l.timestamp);
    }

    method UpdateRamDataspace(stored: seq<StoredRamDs>, l: RamDs) returns (r: seq<StoredRamDs>)
      requires Valid()
      modifies copyDataspaces.Repr
      ensures Valid() && fresh(copyDataspaces.Repr - old(copyDataspaces.Repr))
      ensures (r, Table()) == Upsert(RamDsKind(capabilityMapInfos), stored, l, old(Table()))
    {
      ghost var kind := RamDsKind(capabilityMapInfos);
      r := stored;
      var k := FirstIndex(r, (s: StoredRamDs) => s.badge == l.badge);
      FoundStored(kind, stored, l, k);
      if k == |r| {
        var s := CreateStoredRamDataspace(l);
        r := [s] + r;
      } else {
        assert r[k := r[k]] == r;
      }
    }

    method PrepareRamDataspaces(stored: seq<StoredRamDs>, live: seq<RamDs>) returns (r: seq<StoredRamDs>)
      requires Valid()
      modifies copyDataspaces.Repr
      ensures Valid() && fresh(copyDataspaces.Repr - old(copyDataspaces.Repr))
      ensures (r, Table()) == Prepare(RamDsKind(capabilityMapInfos), stored, live, old(Table()))
    {
      ghost var kind, c0 := RamDsKind(capabilityMapInfos), Table();
      r := stored;
      FirstLoopStarts(kind, stored, live, c0);
      var i := 0;
      while i < |live|
        invariant 0 <= i <= |live| && Valid() && fresh(copyDataspaces.Repr - old(copyDataspaces.Repr))
        invariant FirstLoop(kind, stored, live, c0, i, r, Table())
      {
        FirstLoopTurns(kind, stored, live, c0, i, r, Table());
        r := UpdateRamDataspace(r, live[i]);
        i := i + 1;
      }
      FirstLoopEnds(kind, stored, live, c0, r, Table());
      r := DeleteOldRamDataspaces(r, live);
    }

    method DeleteOldRamDataspaces(stored: seq<StoredRamDs>, live: seq<RamDs>) returns (r: seq<StoredRamDs>)
      requires Valid()
      modifies copyDataspaces.Repr
      ensures Valid() && fresh(copyDataspaces.Repr - old(copyDataspaces.Repr))
      ensures (r, Table()) == Pass2(RamDsKind(capabilityMapInfos), stored, live, old(Table()))
    {
      ghost var kind, c0 := RamDsKind(capabilityMapInfos), Table();
      SecondLoopStarts(kind, stored, live, c0);
      r := stored;
      var p := 0;
      while p < |r|
        invariant 0 <= p <= |r| && Valid() && fresh(copyDataspaces.Repr - old(copyDataspaces.Repr))
        invariant SecondLoop(kind, stored, live, c0, p, r, Table())
        decreases |r| - p
      {
        var s := r[p];
        var k := FirstIndex(live, (l: RamDs) => l.badge == s.badge);
        SecondLoopTurns(kind, stored, live, c0, p, r, Table(), k);
        if k == |live| {
          r := RemoveAt(r, p);
          copyDataspaces.Release(s.badge);
        } else {
          p := p + 1;
        }
      }
      SecondLoopEnds(kind, stored, live, c0, r, Table());
    }

    method DestroyStoredRamDataspaces(stored: seq<StoredRamDs>)
      requires Valid()
      modifies copyDataspaces.Repr
      ensures Valid() && fresh(copyDataspaces.Repr - old(copyDataspaces.Repr))
      ensures Table() == DestroyAll(RamDsKind(capabilityMapInfos), stored, old(Table()))
    {
      ghost var kind, c0 := RamDsKind(capabilityMapInfos), Table();
      DestroyLoopStartsEnds(kind, stored, c0);
      var i := 0;
      while i < |stored|
        invariant 0 <= i <= |stored| && Valid() && fresh(copyDataspaces.Repr - old(copyDataspaces.Repr))
        invariant DestroyLoop(kind, stored, c0, i, Table())
      {
        DestroyLoopTurns(kind, stored, c0, i, Table());
        copyDataspaces.Release(stored[i].badge);
        i := i + 1;
      }
    }

    method UpdateRamSession(stored: seq<StoredRamSession>, l: RamSession) returns (r: seq<StoredRamSession>)
      requires Valid()
      modifies copyDataspaces.Repr
      ensures Valid() && fresh(copyDataspaces.Repr - old(copyDataspaces.Repr))
      ensures (r, Table()) == Upsert(RamSessionKind(capabilityMapInfos), stored, l, old(Table()))
    {
      ghost var kind := RamSessionKind(capabilityMapInfos);
      SessionsByBadge(capabilityMapInfos, MapSet());
      r := stored;
      var k := FirstIndex(r, (s: StoredRamSession) => s.head.badge == l.head.badge);
      FoundStored(kind, stored, l, k);
      if k == |r| {
        var kids := PrepareRamDataspaces([], l.kids);
        r := [Node(MakeSession(capabilityMapInfos, l.head), kids)] + r;
      } else {
        var kids := PrepareRamDataspaces(r[k].kids, l.kids);
        r := r[k := Node(r[k].head, kids)];
      }
    }

    method PrepareRamSessions(stored: seq<StoredRamSession>, live: seq<RamSession>) returns (r: seq<StoredRamSession>)
      requires Valid()
      modifies copyDataspaces.Repr
      ensures Valid() && fresh(copyDataspaces.Repr - old(copyDataspaces.Repr))
      ensures (r, Table()) == Prepare(RamSessionKind(capabilityMapInfos), stored, live, old(Table()))
    {
      ghost var kind, c0 := RamSessionKind(capabilityMapInfos), Table();
      SessionsByBadge(capabilityMapInfos, MapSet());
      r := stored;
      FirstLoopStarts(kind, stored, live, c0);
      var i := 0;
      while i < |live|
        invariant 0 <= i <= |live| && Valid() && fresh(copyDataspaces.Repr - old(copyDataspaces.Repr))
        invariant FirstLoop(kind, stored, live, c0, i, r, Table())
      {
        FirstLoopTurns(kind, stored, live, c0, i, r, Table());
        r := UpdateRamSession(r, live[i]);
        i := i + 1;
      }
      FirstLoopEnds(kind, stored, live, c0, r, Table());
      r := DeleteOldRamSessions(r, live);
    }

    method DeleteOldRamSessions(stored: seq<StoredRamSession>, live: seq<RamSession>) returns (r: seq<StoredRamSession>)
      requires Valid()
      modifies copyDataspaces.Repr
      ensures Valid() && fresh(copyDataspaces.Repr - old(copyDataspaces.Repr))
      ensures (r, Table()) == Pass2(RamSessionKind(capabilityMapInfos), stored, live, old(Table()))
    {
      ghost var kind, c0 := RamSessionKind(capabilityMapInfos), Table();
      SessionsByBadge(capabilityMapInfos, MapSet());
      SecondLoopStarts(kind, stored, live, c0);
      r := stored;
      var p := 0;
      while p < |r|
        invariant 0 <= p <= |r| && Valid() && fresh(copyDataspaces.Repr - old(copyDataspaces.Repr))
        invariant SecondLoop(kind, stored, live, c0, p, r, Table())
        decreases |r| - p
      {
        var s := r[p];
        var k := FirstIndex(live, (l: RamSession) => l.head.badge == s.head.badge);
        SecondLoopTurns(kind, stored, live, c0, p, r, Table(), k);
        if k == |live| {
          r := RemoveAt(r, p);
          DestroyStoredRamDataspaces(s.kids);
        } else {
          p := p + 1;
        }
      }
      SecondLoopEnds(kind, stored, live, c0, r, Table());
    }

    // ---- Region maps ----

    method CreateStoredAttachedRegion(l: Region) returns (s: StoredRegion)
      requires Valid()
      modifies copyDataspaces.Repr
      ensures Valid() && fresh(copyDataspaces.Repr - old(copyDataspaces.Repr))
      ensures (s, Table()) == CreateRegion(capabilityMapInfos, MapSet(), l, old(Table()))
    {
      var copy := copyDataspaces.AcquireUnless(l.dsBadge, l.size, regionMapDataspaces);
      s := StoredRegion(KcapOf(capabilityMapInfos, l.dsBadge), l.bootstrapped, l.dsBadge, copy, l.size, l.offset, l.relAddr, l.executable);
    }

    method UpdateAttachedRegion(stored: seq<StoredRegion>, l: Region) returns (r: seq<StoredRegion>)
      requires Valid()
      modifies copyDataspaces.Repr
      ensures Valid() && fresh(copyDataspaces.Repr - old(copyDataspaces.Repr))
      ensures (r, Table()) == Upsert(RegionKind(capabilityMapInfos, MapSet()), stored, l, old(Table()))
    {
      ghost var kind := RegionKind(capabilityMapInfos, MapSet());
      r := stored;
      var k := FirstIndex(r, (s: StoredRegion) => Covers(s.relAddr, s.size, l.relAddr));
      FoundStored(kind, stored, l, k);
      if k == |r| {
        var s := CreateStoredAttachedRegion(l);
        r := [s] + r;
      } else {
        assert r[k := r[k]] == r;
      }
    }

    method PrepareAttachedRegions(stored: seq<StoredRegion>, live: seq<Region>) returns (r: seq<StoredRegion>)
      requires Valid()
      modifies copyDataspaces.Repr
      ensures Valid() && fresh(copyDataspaces.Repr - old(copyDataspaces.Repr))
      ensures (r, Table()) == Prepare(RegionKind(capabilityMapInfos, MapSet()), stored, live, old(Table()))
    {
      ghost var kind, c0 := RegionKind(capabilityMapInfos, MapSet()), Table();
      r := stored;
      FirstLoopStarts(kind, stored, live, c0);
      var i := 0;
      while i < |live|
        invariant 0 <= i <= |live| && Valid() && fresh(copyDataspaces.Repr - old(copyDataspaces.Repr))
        invariant FirstLoop(kind, stored, live, c0, i, r, Table())
      {
        FirstLoopTurns(kind, stored, live, c0, i, r, Table());
        r := UpdateAttachedRegion(r, live[i]);
        i := i + 1;
      }
      FirstLoopEnds(kind, stored, live, c0, r, Table());
      r := DeleteOldAttachedRegions(r, live);
    }

    method DeleteOldAttachedRegions(stored: seq<StoredRegion>, live: seq<Region>) returns (r: seq<StoredRegion>)
      requires Valid()
      modifies copyDataspaces.Repr
      ensures Valid() && fresh(copyDataspaces.Repr - old(copyDataspaces.Repr))
      ensures (r, Table()) == Pass2(RegionKind(capabilityMapInfos, MapSet()), stored, live, old(Table()))
    {
      ghost var kind, c0 := RegionKind(capabilityMapInfos, MapSet()), Table();
      SecondLoopStarts(kind, stored, live, c0);
      r := stored;
      var p := 0;
      while p < |r|
        invariant 0 <= p <= |r| && Valid() && fresh(copyDataspaces.Repr - old(copyDataspaces.Repr))
        invariant SecondLoop(kind, stored, live, c0, p, r, Table())
        decreases |r| - p
      {
        var s := r[p];
        var k := FirstIndex(live, (l: Region) => Covers(l.relAddr, l.size, s.relAddr));
        SecondLoopTurns(kind, stored, live, c0, p, r, Table(), k);
        if k == |live| {
          r := RemoveAt(r, p);
          copyDataspaces.Release(s.dsBadge);
        } else {
          p := p + 1;
        }
      }
      SecondLoopEnds(kind, stored, live, c0, r, Table());
    }

    method DestroyStoredAttachedRegions(stored: seq<StoredRegion>)
      requires Valid()
      modifies copyDataspaces.Repr
      ensures Valid() && fresh(copyDataspaces.Repr - old(copyDataspaces.Repr))
      ensures Table() == DestroyAll(RegionKind(capabilityMapInfos, MapSet()), stored, old(Table()))
    {
      ghost var kind, c0 := RegionKind(capabilityMapInfos, MapSet()), Table();
      DestroyLoopStartsEnds(kind, stored, c0);
      var i := 0;
      while i < |stored|
        invariant 0 <= i <= |stored| && Valid() && fresh(copyDataspaces.Repr - old(copyDataspaces.Repr))
        invariant DestroyLoop(kind, stored, c0, i, Table())
      {
        DestroyLoopTurns(kind, stored, c0, i, Table());
        copyDataspaces.Release(stored[i].dsBadge);
        i := i + 1;
      }
    }

    // Every region map seen is noted again in _region_map_dataspaces, where it already is.
    method UpdateRegionMap(stored: seq<StoredMap>, l: RegionMap) returns (r: seq<StoredMap>)
      requires Valid() && l.head.dsBadge in MapSet()
      modifies this`regionMapDataspaces, copyDataspaces.Repr
      ensures Valid() && fresh(copyDataspaces.Repr - old(copyDataspaces.Repr)) && MapSet() == old(MapSet())
      ensures (r, Table()) == Upsert(MapKind(capabilityMapInfos, MapSet()), stored, l, old(Table()))
    {
      ghost var kind := MapKind(capabilityMapInfos, MapSet());
      r := stored;
      var k := FirstIndex(r, (s: StoredMap) => s.head.badge == l.head.badge);
      FoundStored(kind, stored, l, k);
      if k == |r| {
        var kids := PrepareAttachedRegions([], l.kids);
        r := [Node(MakeMap(capabilityMapInfos, l.head), kids)] + r;
      } else {
        var kids := PrepareAttachedRegions(r[k].kids, l.kids);
        r := r[k := Node(r[k].head.(sigh := l.head.sigh), kids)];
      }
      ghost var maps := MapSet();
      regionMapDataspaces := [l.head.dsBadge] + regionMapDataspaces;
      assert MapSet() == maps;
    }

    method PrepareRegionMaps(stored: seq<StoredMap>, live: seq<RegionMap>) returns (r: seq<StoredMap>)
      requires Valid() && MapBadges(live) <= MapSet()
      modifies this`regionMapDataspaces, copyDataspaces.Repr
      ensures Valid() && fresh(copyDataspaces.Repr - old(copyDataspaces.Repr)) && MapSet() == old(MapSet())
      ensures (r, Table()) == Prepare(MapKind(capabilityMapInfos, MapSet()), stored, live, old(Table()))
    {
      ghost var kind, c0 := MapKind(capabilityMapInfos, MapSet()), Table();
      r := stored;
      FirstLoopStarts(kind, stored, live, c0);
      var i := 0;
      while i < |live|
        invariant 0 <= i <= |live| && Valid() && fresh(copyDataspaces.Repr - old(copyDataspaces.Repr)) && MapSet() == old(MapSet())
        invariant FirstLoop(kind, stored, live, c0, i, r, Table())
      {
        FirstLoopTurns(kind, stored, live, c0, i, r, Table());
        assert live[i].head.dsBadge in MapBadges(live);
        r := UpdateRegionMap(r, live[i]);
        i := i + 1;
      }
      FirstLoopEnds(kind, stored, live, c0, r, Table());
      r := DeleteOldRegionMaps(r, live);
    }

    method DeleteOldRegionMaps(stored: seq<StoredMap>, live: seq<RegionMap>) returns (r: seq<StoredMap>)
      requires Valid()
      modifies copyDataspaces.Repr
      ensures Valid() && fresh(copyDataspaces.Repr - old(copyDataspaces.Repr))
      ensures (r, Table()) == Pass2(MapKind(capabilityMapInfos, MapSet()), stored, live, old(Table()))
    {
      ghost var kind, c0 := MapKind(capabilityMapInfos, MapSet()), Table();
      SecondLoopStarts(kind, stored, live, c0);
      r := stored;
      var p := 0;
      while p < |r|
        invariant 0 <= p <= |r| && Valid() && fresh(copyDataspaces.Repr - old(copyDataspaces.Repr))
        invariant SecondLoop(kind, stored, live, c0, p, r, Table())
        decreases |r| - p
      {
        var s := r[p];
        var k := FirstIndex(live, (l: RegionMap) => l.head.badge == s.head.badge);
        SecondLoopTurns(kind, stored, live, c0, p, r, Table(), k);
        if k == |live| {
          r := RemoveAt(r, p);
          DestroyStoredAttachedRegions(s.kids);
        } else {
          p := p + 1;
        }
      }
      SecondLoopEnds(kind, stored, live, c0, r, Table());
    }

    method DestroyStoredRegionMaps(stored: seq<StoredMap>)
      requires Valid()
      modifies copyDataspaces.Repr
      ensures Valid() && fresh(copyDataspaces.Repr - old(copyDataspaces.Repr))
      ensures Table() == DestroyAll(MapKind(capabilityMapInfos, MapSet()), stored, old(Table()))
    {
      ghost var kind, c0 := MapKind(capabilityMapInfos, MapSet()), Table();
      DestroyLoopStartsEnds(kind, stored, c0);
      var i := 0;
      while i < |stored|
        invariant 0 <= i <= |stored| && Valid() && fresh(copyDataspaces.Repr - old(copyDataspaces.Repr))
        invariant DestroyLoop(kind, stored, c0, i, Table())
      {
        DestroyLoopTurns(kind, stored, c0, i, Table());
        DestroyStoredAttachedRegions(stored[i].kids);
        i := i + 1;
      }
    }

    // ---- RM and PD sessions ----

    method UpdateRmSession(stored: seq<StoredRmSession>, l: RmSession) returns (r: seq<StoredRmSession>)
      requires Valid() && MapBadges(l.kids) <= MapSet()
      modifies this`regionMapDataspaces, copyDataspaces.Repr
      ensures Valid() && fresh(copyDataspaces.Repr - old(copyDataspaces.Repr)) && MapSet() == old(MapSet())
      ensures (r, Table()) == Upsert(RmSessionKind(capabilityMapInfos, MapSet()), stored, l, old(Table()))
    {
      ghost var kind := RmSessionKind(capabilityMapInfos, MapSet());
      SessionsByBadge(capabilityMapInfos, MapSet());
      r := stored;
      var k := FirstIndex(r, (s: StoredRmSession) => s.head.badge == l.head.badge);
      FoundStored(kind, stored, l, k);
      if k == |r| {
        var kids := PrepareRegionMaps([], l.kids);
        r := [Node(MakeSession(capabilityMapInfos, l.head), kids)] + r;
      } else {
        var kids := PrepareRegionMaps(r[k].kids, l.kids);
        r := r[k := Node(r[k].head, kids)];
      }
    }

    method PrepareRmSessions(stored: seq<StoredRmSession>, live: seq<RmSession>) returns (r: seq<StoredRmSession>)
      requires Valid() && SessionMapBadges(live) <= MapSet()
      modifies this`regionMapDataspaces, copyDataspaces.Repr
      ensures Valid() && fresh(copyDataspaces.Repr - old(copyDataspaces.Repr)) && MapSet() == old(MapSet())
      ensures (r, Table()) == Prepare(RmSessionKind(capabilityMapInfos, MapSet()), stored, live, old(Table()))
    {
      ghost var kind, c0 := RmSessionKind(capabilityMapInfos, MapSet()), Table();
      SessionsByBadge(capabilityMapInfos, MapSet());
      r := stored;
      FirstLoopStarts(kind, stored, live, c0);
      var i := 0;
      while i < |live|
        invariant 0 <= i <= |live| && Valid() && fresh(copyDataspaces.Repr - old(copyDataspaces.Repr)) && MapSet() == old(MapSet())
        invariant FirstLoop(kind, stored, live, c0, i, r, Table())
      {
        FirstLoopTurns(kind, stored, live, c0, i, r, Table());
        assert MapBadges(live[i].kids) <= SessionMapBadges(live);
        r := UpdateRmSession(r, live[i]);
        i := i + 1;
      }
      FirstLoopEnds(kind, stored, live, c0, r, Table());
      r := DeleteOldRmSessions(r, live);
    }

    method DeleteOldRmSessions(stored: seq<StoredRmSession>, live: seq<RmSession>) returns (r: seq<StoredRmSession>)
      requires Valid()
      modifies copyDataspaces.Repr
      ensures Valid() && fresh(copyDataspaces.Repr - old(copyDataspaces.Repr))
      ensures (r, Table()) == Pass2(RmSessionKind(capabilityMapInfos, MapSet()), stored, live, old(Table()))
    {
      ghost var kind, c0 := RmSessionKind(capabilityMapInfos, MapSet()), Table();
      SessionsByBadge(capabilityMapInfos, MapSet());
      SecondLoopStarts(kind, stored, live, c0);
      r := stored;
      var p := 0;
      while p < |r|
        invariant 0 <= p <= |r| && Valid() && fresh(copyDataspaces.Repr - old(copyDataspaces.Repr))
        invariant SecondLoop(kind, stored, live, c0, p, r, Table())
        decreases |r| - p
      {
        var s := r[p];
        var k := FirstIndex(live, (l: RmSession) => l.head.badge == s.head.badge);
        SecondLoopTurns(kind, stored, live, c0, p, r, Table(), k);
        if k == |live| {
          r := RemoveAt(r, p);
          DestroyStoredRegionMaps(s.kids);
        } else {
          p := p + 1;
        }
      }
      SecondLoopEnds(kind, stored, live, c0, r, Table());
    }

    method UpdatePdSession(stored: seq<StoredRmSession>, l: RmSession) returns (r: seq<StoredRmSession>)
      requires Valid() && MapBadges(l.kids) <= MapSet()
      modifies this`regionMapDataspaces, copyDataspaces.Repr
      ensures Valid() && fresh(copyDataspaces.Repr - old(copyDataspaces.Repr)) && MapSet() == old(MapSet())
      ensures (r, Table()) == Upsert(PdSessionKind(capabilityMapInfos, MapSet()), stored, l, old(Table()))
    {
      ghost var kind := PdSessionKind(capabilityMapInfos, MapSet());
      SessionsByBadge(capabilityMapInfos, MapSet());
      r := stored;
      var k := FirstIndex(r, (s: StoredRmSession) => s.head.badge == l.head.badge);
      FoundStored(kind, stored, l, k);
      if k == |r| {
        var kids := PrepareRegionMaps(PdSeed(capabilityMapInfos, l), l.kids);
        r := [Node(MakeSession(capabilityMapInfos, l.head), kids)] + r;
      } else {
        var kids := PrepareRegionMaps(r[k].kids, l.kids);
        r := r[k := Node(r[k].head, kids)];
      }
    }

    method PreparePdSessions(stored: seq<StoredRmSession>, live: seq<RmSession>) returns (r: seq<StoredRmSession>)
      requires Valid() && SessionMapBadges(live) <= MapSet()
      modifies this`regionMapDataspaces, copyDataspaces.Repr
      ensures Valid() && fresh(copyDataspaces.Repr - old(copyDataspaces.Repr)) && MapSet() == old(MapSet())
      ensures (r, Table()) == Prepare(PdSessionKind(capabilityMapInfos, MapSet()), stored, live, old(Table()))
    {
      ghost var kind, c0 := PdSessionKind(capabilityMapInfos, MapSet()), Table();
      SessionsByBadge(capabilityMapInfos, MapSet());
      r := stored;
      FirstLoopStarts(kind, stored, live, c0);
      var i := 0;
      while i < |live|
        invariant 0 <= i <= |live| && Valid() && fresh(copyDataspaces.Repr - old(copyDataspaces.Repr)) && MapSet() == old(MapSet())
        invariant FirstLoop(kind, stored, live, c0, i, r, Table())
      {
        FirstLoopTurns(kind, stored, live, c0, i, r, Table());
        assert MapBadges(live[i].kids) <= SessionMapBadges(live);
        r := UpdatePdSession(r, live[i]);
        i := i + 1;
      }
      FirstLoopEnds(kind, stored, live, c0, r, Table());
      r := DeleteOldPdSessions(r, live);
    }

    method DeleteOldPdSessions(stored: seq<StoredRmSession>, live: seq<RmSession>) returns (r: seq<StoredRmSession>)
      requires Valid()
      modifies copyDataspaces.Repr
      ensures Valid() && fresh(copyDataspaces.Repr - old(copyDataspaces.Repr))
      ensures (r, Table()) == Pass2(PdSessionKind(capabilityMapInfos, MapSet()), stored, live, old(Table()))
    {
      ghost var kind, c0 := PdSessionKind(capabilityMapInfos, MapSet()), Table();
      SessionsByBadge(capabilityMapInfos, MapSet());
      SecondLoopStarts(kind, stored, live, c0);
      r := stored;
      var p := 0;
      while p < |r|
        invariant 0 <= p <= |r| && Valid() && fresh(copyDataspaces.Repr - old(copyDataspaces.Repr))
        invariant SecondLoop(kind, stored, live, c0, p, r, Table())
        decreases |r| - p
      {
        var s := r[p];
        var k := FirstIndex(live, (l: RmSession) => l.head.badge == s.head.badge);
        SecondLoopTurns(kind, stored, live, c0, p, r, Table(), k);
        if k == |live| {
          r := RemoveAt(r, p);
          DestroyStoredRegionMaps(Reverse(s.kids));
        } else {
          p := p + 1;
        }
      }
      SecondLoopEnds(kind, stored, live, c0, r, Table());
    }

    // ---- A whole checkpoint ----

    // _create_region_map_dataspaces
    method NoteRegionMaps(maps: seq<RegionMap>)
      modifies this`regionMapDataspaces
      ensures MapSet() == old(MapSet()) + MapBadges(maps)
    {
      var j := 0;
      while j < |maps|
        invariant 0 <= j <= |maps| && MapSet() == old(MapSet()) + MapBadges(maps[..j])
      {
        MapBadgesNext(maps, j);
        ghost var before := MapSet();
        regionMapDataspaces := [maps[j].head.dsBadge] + regionMapDataspaces;
        assert MapSet() == before + {maps[j].head.dsBadge};
        j := j + 1;
      }
      assert maps[..j] == maps;
    }

    method NoteSessionMaps(sessions: seq<RmSession>)
      modifies this`regionMapDataspaces
      ensures MapSet() == old(MapSet()) + SessionMapBadges(sessions)
    {
      var i := 0;
      while i < |sessions|
        invariant 0 <= i <= |sessions| && MapSet() == old(MapSet()) + SessionMapBadges(sessions[..i])
      {
        SessionMapBadgesNext(sessions, i);
        ghost var before := MapSet();
        NoteRegionMaps(sessions[i].kids);
        assert MapSet() == before + MapBadges(sessions[i].kids);
        i := i + 1;
      }
      assert sessions[..i] == sessions;
    }

    // The preparation phase of checkpoint(), with the capability map already read.
    method PrepareState(s: Stored, w: World) returns (s': Stored)
      requires Valid()
      modifies this, copyDataspaces.Repr
      ensures Valid() && fresh(copyDataspaces.Repr - old(copyDataspaces.Repr))
      ensures (s', Table()) == Checkpoint(s, w, old(Table()))
    {
      ghost var c0 := Table();
      capabilityMapInfos, regionMapDataspaces := w.caps, [];
      NoteSessionMaps(w.pd);
      NoteSessionMaps(w.rm);
      assert MapSet() == Maps(w) && Table() == c0;
      var ram := PrepareRamSessions(s.ram, w.ram);
      ghost var c1 := Table();
      assert (ram, c1) == Prepare(RamSessionKind(w.caps), s.ram, w.ram, c0);
      var pd := PreparePdSessions(s.pd, w.pd);
      ghost var c2 := Table();
      assert (pd, c2) == Prepare(PdSessionKind(w.caps, Maps(w)), s.pd, w.pd, c1);
      var rm := PrepareRmSessions(s.rm, w.rm);
      s' := Stored(ram, pd, rm);
      CheckpointIs(s, w, c0, s', c1, c2, Table());
    }
  }
}
