// Which dataspaces the stored state and the child know, and that the copy table has an entry for exactly those.
module StoredBadges {
  import opened InfoList
  import opened CapMap
  import opened CopyTable
  import opened Reconcile
  import opened ReconcileKeys
  import opened StoredState
  import opened StoredRegions
  import opened StoredStateMirror
  import opened StoredStateRefs

  ghost predicate Shows(l: RegionMap, b: nat) {
    exists r :: r in l.kids && r.dsBadge == b
  }

  ghost predicate Recalls(s: StoredMap, b: nat) {
    exists r :: r in s.kids && r.dsBadge == b
  }

  ghost predicate RamRecord(ram: seq<StoredRamSession>, b: nat) {
    exists s, d :: s in ram && d in s.kids && d.badge == b
  }

  ghost predicate RegionRecord(rm: seq<StoredRmSession>, b: nat) {
    exists s, m :: s in rm && m in s.kids && Recalls(m, b)
  }

  ghost predicate RamLive(ram: seq<RamSession>, b: nat) {
    exists l, d :: l in ram && d in l.kids && d.badge == b
  }

  ghost predicate RegionLive(rm: seq<RmSession>, b: nat) {
    exists l, m :: l in rm && m in l.kids && Shows(m, b)
  }

  // ---- Entries and records ----

  lemma {:induction false} RegionRefsHas(maps: set<nat>, managed: set<nat>, stored: seq<StoredRegion>, b: nat)
    ensures b in AllRefs(RegionAccount(maps, managed), stored) <==> exists r :: r in stored && r.copy.Some? && r.dsBadge == b
  {
    if stored != [] {
      RegionRefsHas(maps, managed, stored[1..], b);
      assert stored == [stored[0]] + stored[1..];
    }
  }

  lemma {:induction false} MapRefsHas(maps: set<nat>, managed: set<nat>, stored: seq<StoredMap>, c: Copies, b: nat)
    requires AllOk(MapAccount(maps, managed), stored, c) && b !in managed
    ensures b in AllRefs(MapAccount(maps, managed), stored) <==> exists s :: s in stored && Recalls(s, b)
  {
    if stored != [] {
      var s, rest, a := stored[0], stored[1..], RegionAccount(maps, managed);
      assert stored == [s] + rest;
      forall i | 0 <= i < |rest| ensures MapAccount(maps, managed).ok(rest[i], c) {
        assert MapAccount(maps, managed).ok(stored[i + 1], c);
      }
      MapRefsHas(maps, managed, rest, c, b);
      assert MapAccount(maps, managed).ok(stored[0], c);
      RegionRefsHas(maps, managed, s.kids, b);
      forall r | r in s.kids && r.dsBadge == b ensures r.copy.Some? {
        var k :| 0 <= k < |s.kids| && s.kids[k] == r;
        assert a.ok(s.kids[k], c);
      }
      assert b in AllRefs(a, s.kids) <==> Recalls(s, b);
      assert AllRefs(MapAccount(maps, managed), stored) == AllRefs(a, s.kids) + AllRefs(MapAccount(maps, managed), rest);
      assert (exists t :: t in stored && Recalls(t, b)) <==> Recalls(s, b) || exists t :: t in rest && Recalls(t, b);
    }
  }

  lemma {:induction false} RamDsRefsHas(managed: set<nat>, stored: seq<StoredRamDs>, b: nat)
    ensures b in AllRefs(RamDsAccount(managed), stored) <==> exists d :: d in stored && d.badge == b
  {
    if stored != [] {
      RamDsRefsHas(managed, stored[1..], b);
      assert stored == [stored[0]] + stored[1..];
    }
  }

  lemma {:induction false} RamRefsHas(managed: set<nat>, stored: seq<StoredRamSession>, b: nat)
    ensures b in AllRefs(RamAccount(managed), stored) <==> RamRecord(stored, b)
  {
    if stored != [] {
      var rest, refs := stored[1..], AllRefs(RamDsAccount(managed), stored[0].kids);
      RamRefsHas(managed, rest, b);
      RamDsRefsHas(managed, stored[0].kids, b);
      assert stored == [stored[0]] + rest;
      assert AllRefs(RamAccount(managed), stored) == refs + AllRefs(RamAccount(managed), rest);
      assert RamRecord(stored, b) <==> (exists d :: d in stored[0].kids && d.badge == b) || RamRecord(rest, b);
    }
  }

  lemma {:induction false} RmRefsHas(maps: set<nat>, managed: set<nat>, stored: seq<StoredRmSession>, c: Copies, b: nat)
    requires AllOk(RmAccount(maps, managed), stored, c) && b !in managed
    ensures b in AllRefs(RmAccount(maps, managed), stored) <==> RegionRecord(stored, b)
  {
    if stored != [] {
      var s, rest, a := stored[0], stored[1..], MapAccount(maps, managed);
      assert stored == [s] + rest;
      forall i | 0 <= i < |rest| ensures RmAccount(maps, managed).ok(rest[i], c) {
        assert RmAccount(maps, managed).ok(stored[i + 1], c);
      }
      RmRefsHas(maps, managed, rest, c, b);
      assert RmAccount(maps, managed).ok(stored[0], c);
      MapRefsHas(maps, managed, s.kids, c, b);
      assert AllRefs(RmAccount(maps, managed), stored) == AllRefs(a, s.kids) + AllRefs(RmAccount(maps, managed), rest);
      assert RegionRecord(stored, b) <==> (exists m :: m in s.kids && Recalls(m, b)) || RegionRecord(rest, b);
    }
  }

  // ---- What a mirrored state records ----

  // The record of a map that has been handled recalls what the map shows.
  lemma CurrentShows(r: seq<StoredMap>, live: seq<RegionMap>, s: StoredMap, l: RegionMap, b: nat)
    requires DistinctKeys(MapView(), r) && HasCurrent(MapView(), r, l) && s in r && s.head.badge == l.head.badge
    ensures Recalls(s, b) <==> Shows(l, b)
  {
    var v := MapView();
    var t :| t in r && v.key(t) == v.liveKey(l) && v.current(t, l);
    assert s == t by {
      var i :| 0 <= i < |r| && r[i] == s;
      var j :| 0 <= j < |r| && r[j] == t;
      assert v.key(r[i]) == v.key(r[j]);
    }
    assert Mirrored(s.kids, l.kids);
    if q :| q in s.kids && q.dsBadge == b {
      assert StoredAt(s.kids, q.relAddr);
      var p :| p in l.kids && p.relAddr == q.relAddr;
      assert RecordOf(q, p);
    }
    if p :| p in l.kids && p.dsBadge == b {
      assert LiveAt(l.kids, p.relAddr);
      var q :| q in s.kids && q.relAddr == p.relAddr;
      assert RecordOf(q, p);
    }
  }

  // The dataspace of a record, and that the record describes it.
  lemma RamRecordDescribes(stored: seq<StoredRamSession>, live: seq<RamSession>, s: StoredRamSession, d: StoredRamDs)
    requires Reconciled(RamView(), stored, live) && s in stored && d in s.kids
    ensures exists l, e :: l in live && e in l.kids && DescribesRamDs(d, e)
  {
    var v, w := RamView(), RamDsView();
    assert HasKey(v, stored, s.head.badge);
    var l :| l in live && l.head.badge == s.head.badge;
    RecordIsCurrent(v, stored, live, s, l);
    assert HasKey(w, s.kids, d.badge);
    var e :| e in l.kids && e.badge == d.badge;
    RecordIsCurrent(w, s.kids, l.kids, d, e);
  }

  lemma RamRecordIffLive(stored: seq<StoredRamSession>, live: seq<RamSession>, b: nat)
    requires Reconciled(RamView(), stored, live)
    ensures RamRecord(stored, b) <==> RamLive(live, b)
  {
    var v, w := RamView(), RamDsView();
    if RamRecord(stored, b) {
      var s, d :| s in stored && d in s.kids && d.badge == b;
      RamRecordDescribes(stored, live, s, d);
    }
    if RamLive(live, b) {
      var l, d :| l in live && d in l.kids && d.badge == b;
      assert HasCurrent(v, stored, l);
      var s :| s in stored && s.head.badge == l.head.badge && v.current(s, l);
      assert HasLive(w, l.kids, b);
      var e :| e in s.kids && e.badge == b;
    }
  }

  lemma MapRecordIffLive(stored: seq<StoredMap>, live: seq<RegionMap>, b: nat)
    requires MapsMirror(stored, live)
    ensures (exists s :: s in stored && Recalls(s, b)) <==> (exists l :: l in live && Shows(l, b))
  {
    var v := MapView();
    if s :| s in stored && Recalls(s, b) {
      assert HasKey(v, stored, s.head.badge);
      var l :| l in live && l.head.badge == s.head.badge;
      CurrentShows(stored, live, s, l, b);
    }
    if l :| l in live && Shows(l, b) {
      assert HasCurrent(v, stored, l);
      var s :| s in stored && s.head.badge == l.head.badge;
      CurrentShows(stored, live, s, l, b);
    }
  }

  lemma RegionRecordIffLive(stored: seq<StoredRmSession>, live: seq<RmSession>, b: nat)
    requires Reconciled(RmView(), stored, live)
    ensures RegionRecord(stored, b) <==> RegionLive(live, b)
  {
    var v := RmView();
    if RegionRecord(stored, b) {
      var s, m :| s in stored && m in s.kids && Recalls(m, b);
      assert HasKey(v, stored, s.head.badge);
      var l :| l in live && l.head.badge == s.head.badge;
      RecordIsCurrent(v, stored, live, s, l);
      MapRecordIffLive(s.kids, l.kids, b);
    }
    if RegionLive(live, b) {
      var l, m :| l in live && m in l.kids && Shows(m, b);
      assert HasCurrent(v, stored, l);
      var s :| s in stored && s.head.badge == l.head.badge && v.current(s, l);
      MapRecordIffLive(s.kids, l.kids, b);
    }
  }

  // The dataspaces of a child that a checkpoint saves: those of its RAM sessions, and what else is attached
  // except for region maps.
  ghost predicate Saved(w: World, b: nat) {
    RamLive(w.ram, b) || (b !in Maps(w) && (RegionLive(w.pd, b) || RegionLive(w.rm, b)))
  }

  // After a checkpoint the table has an entry for exactly the dataspaces to be saved.
  lemma {:induction false} EntryIffSaved(s: Stored, w: World, c: Copies, managed: set<nat>, b: nat)
    requires Consistent(s, c, Maps(w), managed) && Admissible(w, managed) && Mirrors(s, w)
    ensures Lookup(c.table, b).Some? <==> Saved(w, b)
  {
    LiveNotManaged(w, managed, b);
    RamRefsHas(managed, s.ram, b);
    RamRecordIffLive(s.ram, w.ram, b);
    assert Lookup(c.table, b).Some? <==> b in StateRefs(s, Maps(w), managed);
    assert b in managed ==> StateRefs(s, Maps(w), managed)[b] == 0;
    if b !in managed {
      RmRefsHas(Maps(w), managed, s.pd, c, b);
      RmRefsHas(Maps(w), managed, s.rm, c, b);
      RegionRecordIffLive(s.pd, w.pd, b);
      RegionRecordIffLive(s.rm, w.rm, b);
    }
  }

  lemma LiveNotManaged(w: World, managed: set<nat>, b: nat)
    requires Admissible(w, managed)
    ensures RamLive(w.ram, b) ==> b !in managed
    ensures RegionLive(w.pd, b) || RegionLive(w.rm, b) ==> (b in managed <==> b in Maps(w))
  {
    if RamLive(w.ram, b) {
      var l, d :| l in w.ram && d in l.kids && d.badge == b;
      assert RamAccount(managed).admissible(l) && RamDsAccount(managed).admissible(d);
    }
    if RegionLive(w.pd, b) {
      ShownAdmissible(w.pd, w, managed, b);
    }
    if RegionLive(w.rm, b) {
      ShownAdmissible(w.rm, w, managed, b);
    }
  }

  lemma ShownAdmissible(rm: seq<RmSession>, w: World, managed: set<nat>, b: nat)
    requires (forall l :: l in rm ==> RmAccount(Maps(w), managed).admissible(l)) && RegionLive(rm, b)
    ensures b in managed <==> b in Maps(w)
  {
    var l, m :| l in rm && m in l.kids && Shows(m, b);
    var r :| r in m.kids && r.dsBadge == b;
    assert RmAccount(Maps(w), managed).admissible(l) && MapAccount(Maps(w), managed).admissible(m);
    assert RegionAccount(Maps(w), managed).admissible(r);
  }
}
