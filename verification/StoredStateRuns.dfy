// Copies over any number of checkpoints: which copy a record names, how long it stays the same and
// which records share it.
module StoredStateRuns {
  import opened InfoList
  import opened CapMap
  import opened CopyTable
  import opened Reconcile
  import opened ReconcileKeys
  import opened StoredState
  import opened StoredRegions
  import opened StoredStateRefs
  import opened StoredStateMirror
  import opened RamIdentify

  // ---- Sharing ----

  // A record of a RAM dataspace or of an attached region names a copy for a badge.
  ghost predicate RamNames(ram: seq<StoredRamSession>, badge: nat, copy: nat) {
    exists i, k :: 0 <= i < |ram| && 0 <= k < |ram[i].kids| && ram[i].kids[k].badge == badge && ram[i].kids[k].copy == copy
  }

  ghost predicate RegionNames(rm: seq<StoredRmSession>, badge: nat, copy: nat) {
    exists i, j, k :: 0 <= i < |rm| && 0 <= j < |rm[i].kids| && 0 <= k < |rm[i].kids[j].kids|
      && rm[i].kids[j].kids[k].dsBadge == badge && rm[i].kids[j].kids[k].copy == Some(copy)
  }

  ghost predicate Names(s: Stored, badge: nat, copy: nat) {
    RamNames(s.ram, badge, copy) || RegionNames(s.pd, badge, copy) || RegionNames(s.rm, badge, copy)
  }

  lemma InRefs(part: multiset<nat>, all: multiset<nat>, badge: nat)
    requires part <= all && badge in part
    ensures badge in all
  {
    assert part[badge] <= all[badge];
  }

  lemma RamNamesCopy(s: Stored, c: Copies, maps: set<nat>, managed: set<nat>, badge: nat, copy: nat)
    requires Consistent(s, c, maps, managed) && RamNames(s.ram, badge, copy)
    ensures badge in StateRefs(s, maps, managed) && copy == CopyOf(c.table, badge)
  {
    var a, d := RamAccount(managed), RamDsAccount(managed);
    var i, k :| 0 <= i < |s.ram| && 0 <= k < |s.ram[i].kids| && s.ram[i].kids[k].badge == badge && s.ram[i].kids[k].copy == copy;
    assert a.ok(s.ram[i], c) && d.ok(s.ram[i].kids[k], c);
    RefsOfMember(d, s.ram[i].kids, k);
    RefsOfMember(a, s.ram, i);
    InRefs(d.refs(s.ram[i].kids[k]), AllRefs(d, s.ram[i].kids), badge);
    InRefs(a.refs(s.ram[i]), AllRefs(a, s.ram), badge);
  }

  lemma {:induction false} RegionNamesCopy(rm: seq<StoredRmSession>, c: Copies, maps: set<nat>, managed: set<nat>, badge: nat, copy: nat)
    requires AllOk(RmAccount(maps, managed), rm, c) && RegionNames(rm, badge, copy)
    ensures badge in AllRefs(RmAccount(maps, managed), rm) && copy == CopyOf(c.table, badge)
  {
    var a, m, r := RmAccount(maps, managed), MapAccount(maps, managed), RegionAccount(maps, managed);
    var i, j, k :| 0 <= i < |rm| && 0 <= j < |rm[i].kids| && 0 <= k < |rm[i].kids[j].kids|
      && rm[i].kids[j].kids[k].dsBadge == badge && rm[i].kids[j].kids[k].copy == Some(copy);
    var map0, reg := rm[i].kids[j], rm[i].kids[j].kids[k];
    assert a.ok(rm[i], c) && m.ok(map0, c) && r.ok(reg, c);
    RefsOfMember(r, map0.kids, k);
    InRefs(r.refs(reg), AllRefs(r, map0.kids), badge);
    RefsOfMember(m, rm[i].kids, j);
    InRefs(m.refs(map0), AllRefs(m, rm[i].kids), badge);
    RefsOfMember(a, rm, i);
    InRefs(a.refs(rm[i]), AllRefs(a, rm), badge);
  }

  lemma NamesCopy(s: Stored, c: Copies, maps: set<nat>, managed: set<nat>, badge: nat, copy: nat)
    requires Consistent(s, c, maps, managed) && Names(s, badge, copy)
    ensures badge in StateRefs(s, maps, managed) && copy == CopyOf(c.table, badge)
  {
    if RamNames(s.ram, badge, copy) {
      RamNamesCopy(s, c, maps, managed, badge, copy);
    } else if RegionNames(s.pd, badge, copy) {
      RegionNamesCopy(s.pd, c, maps, managed, badge, copy);
    } else {
      RegionNamesCopy(s.rm, c, maps, managed, badge, copy);
    }
  }

  // After any sequence of checkpoints two records share a copy exactly if they are records of the
  // same dataspace.
  lemma {:induction false} SharedCopyIff(worlds: seq<World>, managed: set<nat>, b: nat, copy: nat, b': nat, copy': nat)
    requires forall n :: 0 <= n < |worlds| ==> Admissible(worlds[n], managed)
    requires Names(After(worlds).0, b, copy) && Names(After(worlds).0, b', copy')
    ensures copy == copy' <==> b == b'
  {
    var (s, c) := After(worlds);
    RefCountsExact(worlds, managed);
    NamesCopy(s, c, LastMaps(worlds), managed, b, copy);
    NamesCopy(s, c, LastMaps(worlds), managed, b', copy');
  }

  // ---- Stability ----

  // The RAM dataspace d of the session is recorded, or alive.
  ghost predicate Recorded(ram: seq<StoredRamSession>, session: nat, d: StoredRamDs) {
    exists s :: s in ram && s.head.badge == session && d in s.kids
  }

  ghost predicate Alive(ram: seq<RamSession>, session: nat, badge: nat) {
    exists l, d :: l in ram && l.head.badge == session && d in l.kids && d.badge == badge
  }

  ghost predicate RamClear(ram: seq<StoredRamSession>, live: seq<RamSession>) {
    && DistinctLive(RamView(), live) && (forall l :: l in live ==> DistinctLive(RamDsView(), l.kids))
    && DistinctKeys(RamView(), ram) && (forall l :: l in live ==> SameRamDs(KidsOf(ram, l.head.badge), l.kids))
  }

  // One checkpoint keeps the record of a RAM dataspace that is still allocated, unchanged.
  lemma RecordKept(caps: seq<CapKcap>, ram: seq<StoredRamSession>, live: seq<RamSession>, c: Copies, session: nat, d: StoredRamDs)
    requires RamClear(ram, live) && Recorded(ram, session, d) && Alive(live, session, d.badge)
    ensures Recorded(Prepare(RamSessionKind(caps), ram, live, c).0, session, d)
  {
    var kind, v := RamSessionKind(caps), RamView();
    RamPrepared(caps, ram, live, c);
    var s :| s in ram && s.head.badge == session && d in s.kids;
    var l, e :| l in live && l.head.badge == session && e in l.kids && e.badge == d.badge;
    KidsOfHas(ram, session);
    RamSessionUpdated(caps, ram, live, c, s, l);
    var c1 :| kind.update(s, l, c1).0 in Prepare(kind, ram, live, c).0;
    RamDsPrepared(caps, s.kids, l.kids, c1);
  }

  lemma RamSessionUpdated(caps: seq<CapKcap>, ram: seq<StoredRamSession>, live: seq<RamSession>, c: Copies, s: StoredRamSession, l: RamSession)
    requires RamClear(ram, live) && s in ram && l in live && s.head.badge == l.head.badge
    ensures Updated(RamSessionKind(caps), Prepare(RamSessionKind(caps), ram, live, c).0, s, l)
  {
    var kind, v := RamSessionKind(caps), RamView();
    RamKeyed(caps);
    RamRefreshes(caps, ram, live);
    PrepareReconciles(kind, v, ram, live, c);
  }

  // Every RAM dataspace badge belongs to one dataspace for good.
  ghost predicate SameFacts(ram: seq<RamSession>, facts: nat -> RamDs) {
    forall l, d :: l in ram && d in l.kids ==> d == facts(d.badge)
  }

  ghost predicate WellFormedRam(w: World) {
    DistinctLive(RamView(), w.ram) && forall l :: l in w.ram ==> DistinctLive(RamDsView(), l.kids)
  }

  lemma MirrorsAreClear(ram: seq<StoredRamSession>, before: seq<RamSession>, live: seq<RamSession>, facts: nat -> RamDs)
    requires Reconciled(RamView(), ram, before) && SameFacts(before, facts)
    requires SameFacts(live, facts) && DistinctLive(RamView(), live) && forall l :: l in live ==> DistinctLive(RamDsView(), l.kids)
    ensures RamClear(ram, live)
  {
    forall l | l in live ensures SameRamDs(KidsOf(ram, l.head.badge), l.kids) {
      KidsOfHas(ram, l.head.badge);
      if s :| s in ram && s.head.badge == l.head.badge {
        assert HasKey(RamView(), ram, s.head.badge);
        var b :| b in before && b.head.badge == s.head.badge;
        RecordIsCurrent(RamView(), ram, before, s, b);
        assert RamMirrors(s.kids, b.kids);
        forall d, e | d in s.kids && e in l.kids && d.badge == e.badge ensures DescribesRamDs(d, e) {
          assert HasKey(RamDsView(), s.kids, d.badge);
          var f :| f in b.kids && f.badge == d.badge;
          RecordIsCurrent(RamDsView(), s.kids, b.kids, d, f);
        }
      }
    }
  }

  ghost function LastRam(worlds: seq<World>): seq<RamSession> {
    if worlds == [] then [] else worlds[|worlds| - 1].ram
  }

  ghost predicate GoodRun(worlds: seq<World>, facts: nat -> RamDs) {
    forall n :: 0 <= n < |worlds| ==> WellFormedRam(worlds[n]) && SameFacts(worlds[n].ram, facts)
  }

  // After any sequence of checkpoints the RAM records are those of the last one, whatever came before.
  lemma {:induction false} RamAlwaysMirrors(worlds: seq<World>, facts: nat -> RamDs)
    requires GoodRun(worlds, facts)
    ensures Reconciled(RamView(), After(worlds).0.ram, LastRam(worlds))
  {
    if worlds != [] {
      var init, w := worlds[..|worlds| - 1], worlds[|worlds| - 1];
      RamAlwaysMirrors(init, facts);
      assert init != [] ==> init[|init| - 1] == worlds[|init| - 1];
      MirrorsAreClear(After(init).0.ram, LastRam(init), w.ram, facts);
      RamPrepared(w.caps, After(init).0.ram, w.ram, After(init).1);
    }
  }

  // While a RAM dataspace stays allocated its record and with it its copy is never replaced.
  lemma {:induction false} CopyNeverReplaced(worlds: seq<World>, n: nat, facts: nat -> RamDs, session: nat, d: StoredRamDs)
    requires n <= |worlds| && GoodRun(worlds, facts)
    requires Recorded(After(worlds[..n]).0.ram, session, d)
    requires forall i :: n <= i < |worlds| ==> Alive(worlds[i].ram, session, d.badge)
    ensures Recorded(After(worlds).0.ram, session, d)
    decreases |worlds|
  {
    if n == |worlds| {
      assert worlds[..n] == worlds;
    } else {
      var init, w := worlds[..|worlds| - 1], worlds[|worlds| - 1];
      assert init[..n] == worlds[..n];
      CopyNeverReplaced(init, n, facts, session, d);
      RamAlwaysMirrors(init, facts);
      assert init != [] ==> init[|init| - 1] == worlds[|init| - 1];
      MirrorsAreClear(After(init).0.ram, LastRam(init), w.ram, facts);
      RecordKept(w.caps, After(init).0.ram, w.ram, After(init).1, session, d);
    }
  }

  // ---- Regions that move ----

  lemma {:induction false} Pass1Keeps(caps: seq<CapKcap>, maps: set<nat>, stored: seq<StoredRegion>, live: seq<Region>, c: Copies, s: StoredRegion)
    requires s in stored
    ensures s in Pass1(RegionKind(caps, maps), stored, live, c).0
    decreases |live|
  {
    if live != [] {
      UpsertRegion(caps, maps, stored, live[0], c);
      var (st, c') := Upsert(RegionKind(caps, maps), stored, live[0], c);
      assert !Found(stored, live[0]) ==> st == [st[0]] + stored;
      Pass1Keeps(caps, maps, st, live[1..], c', s);
    }
  }

  // New records are made before old ones are dropped: within one region map a dataspace keeps its
  // copy, even if all its attachments move to other addresses and its last reference with them.
  lemma {:induction false} MoveKeepsCopy(caps: seq<CapKcap>, maps: set<nat>, managed: set<nat>, stored: seq<StoredRegion>, live: seq<Region>, c: Copies,
                      rest: multiset<nat>, s: StoredRegion, r: StoredRegion)
    requires var a := RegionAccount(maps, managed);
      AllOk(a, stored, c) && Exact(c, rest + AllRefs(a, stored), managed) && forall l :: l in live ==> a.admissible(l)
    requires s in stored && r in Prepare(RegionKind(caps, maps), stored, live, c).0 && s.dsBadge == r.dsBadge
    ensures s.copy == r.copy
  {
    var kind, a := RegionKind(caps, maps), RegionAccount(maps, managed);
    RegionLawful(caps, maps, managed);
    Pass1Exact(kind, a, stored, live, c, rest);
    var (m, c1) := Pass1(kind, stored, live, c);
    Pass1Keeps(caps, maps, stored, live, c, s);
    RegionPass2(caps, maps, m, live, c1, r);
    var i :| 0 <= i < |m| && m[i] == s;
    var j :| 0 <= j < |m| && m[j] == r;
    assert a.ok(m[i], c1) && a.ok(m[j], c1);
  }

  // Not so between region maps: a dataspace that moves from a map to one further back in the list
  // loses its copy and gets a new one.
  lemma MoveToAnotherMapReplacesCopy(caps: seq<CapKcap>)
    ensures
      var live := [Node(MapHead(1, 101, 0x2000, 0, false), []),
                   Node(MapHead(2, 102, 0x2000, 0, false), [Region(50, 0x1000, 0, 0, false, false)])];
      var stored := [Node(StoredMapHead(0, 1, false, 0x2000, 101, 0), [StoredRegion(0, false, 50, Some(7), 0x1000, 0, 0, false)]),
                     Node(StoredMapHead(0, 2, false, 0x2000, 102, 0), [])];
      var (r, _) := Prepare(MapKind(caps, {101, 102}), stored, live, Copies([CopyEntry(50, 7, 0x1000, 1)], 8));
      |r| == 2 && |r[1].kids| == 1 && r[1].kids[0].dsBadge == 50 && r[1].kids[0].copy == Some(8)
  {
    var kind, regions := MapKind(caps, {101, 102}), RegionKind(caps, {101, 102});
    var was := StoredRegion(0, false, 50, Some(7), 0x1000, 0, 0, false);
    var reg := Region(50, 0x1000, 0, 0, false, false);
    var a: RegionMap, b: RegionMap := Node(MapHead(1, 101, 0x2000, 0, false), []), Node(MapHead(2, 102, 0x2000, 0, false), [reg]);
    var sa: StoredMap := Node(StoredMapHead(0, 1, false, 0x2000, 101, 0), [was]);
    var sb: StoredMap := Node(StoredMapHead(0, 2, false, 0x2000, 102, 0), []);
    var sa': StoredMap := Node(StoredMapHead(0, 1, false, 0x2000, 101, 0), []);
    var c0, c1 := Copies([CopyEntry(50, 7, 0x1000, 1)], 8), Copies([], 8);
    var (n, c2) := CreateRegion(caps, {101, 102}, reg, c1);
    var sb' := Node(StoredMapHead(0, 2, false, 0x2000, 102, 0), [n]);
    assert kind.update(sa, a, c0) == (sa', c1) by {
      assert c0.table[1..] == [];
      assert regions.destroy(was, c0) == c1;
      DroppedAlone(regions, was, c0, c1);
    }
    assert kind.update(sb, b, c1) == (sb', c2) by {
      CreatedAlone(caps, {101, 102}, reg, c1);
    }
    var stored, live := [sa, sb], [a, b];
    TwoPrepared(caps, {101, 102}, stored, live, c0, sa', sb', c1, c2);
  }

  // An object seen for the first time, alone.
  lemma MadeAlone<S, L>(kind: Kind<S, L>, l: L, c: Copies)
    requires var (s, c1) := kind.create(l, c); kind.alive(l, kind.update(s, l, c1).0)
    ensures var (s, c1) := kind.create(l, c); var (s', c2) := kind.update(s, l, c1); Prepare(kind, [], [l], c) == ([s'], c2)
  {
    var (s, c1) := kind.create(l, c);
    var (s', c2) := kind.update(s, l, c1);
    var none: seq<S>, live := [], [l];
    assert FindStored(kind, none, l) == |none| && [s'] + none == [s'];
    assert Upsert(kind, none, live[0], c) == ([s'], c2);
    assert live[1..] == [];
    assert Pass1(kind, [s'], live[1..], c2) == ([s'], c2);
    assert Pass1(kind, none, live, c) == ([s'], c2);
    assert FindLive(kind, live, s') == 0;
    assert [s'][1..] == none;
    assert Pass2(kind, none, live, c2) == (none, c2);
  }

  lemma CreatedAlone(caps: seq<CapKcap>, maps: set<nat>, reg: Region, c: Copies)
    ensures var (n, c') := CreateRegion(caps, maps, reg, c); Prepare(RegionKind(caps, maps), [], [reg], c) == ([n], c')
  {
    MadeAlone(RegionKind(caps, maps), reg, c);
  }

  lemma DroppedAlone<S, L>(kind: Kind<S, L>, s: S, c: Copies, c': Copies)
    requires kind.destroy(s, c) == c'
    ensures Prepare(kind, [s], [], c) == ([], c')
  {
    var none: seq<L> := [];
    assert Pass1(kind, [s], none, c) == ([s], c);
    assert FindLive(kind, none, s) == |none|;
    assert [s][1..] == [];
    assert Pass2(kind, [s][1..], none, c') == ([], c');
  }

  // Region maps that all have a record, in the order of the live list, and what updating one after the other gives.
  ghost predicate UpdatesInTurn(caps: seq<CapKcap>, maps: set<nat>, stored: seq<StoredMap>, live: seq<RegionMap>, r: seq<StoredMap>, cs: seq<Copies>) {
    && |stored| == |live| == |r| && |cs| == |r| + 1
    && (forall i, j :: 0 <= i < j < |live| ==> live[i].head.badge != live[j].head.badge)
    && forall i :: 0 <= i < |live| ==>
      stored[i].head.badge == live[i].head.badge == r[i].head.badge && MapKind(caps, maps).update(stored[i], live[i], cs[i]) == (r[i], cs[i + 1])
  }

  lemma {:induction false} MapsUpdated(caps: seq<CapKcap>, maps: set<nat>, stored: seq<StoredMap>, live: seq<RegionMap>, r: seq<StoredMap>,
                                       cs: seq<Copies>, i: nat)
    requires UpdatesInTurn(caps, maps, stored, live, r, cs) && i <= |r|
    ensures Pass1(MapKind(caps, maps), r[..i] + stored[i..], live[i..], cs[i]) == (r, cs[|r|])
    decreases |r| - i
  {
    var kind, m := MapKind(caps, maps), r[..i] + stored[i..];
    if i < |r| {
      assert forall j :: 0 <= j < i ==> !kind.found(m[j], live[i]);
      FoundStored(kind, m, live[i], i);
      assert m[i := r[i]] == r[..i + 1] + stored[i + 1..];
      assert live[i..][0] == live[i] && live[i..][1..] == live[i + 1..];
      MapsUpdated(caps, maps, stored, live, r, cs, i + 1);
    } else {
      assert m == r;
    }
  }

  lemma PreparedInTurn(caps: seq<CapKcap>, maps: set<nat>, stored: seq<StoredMap>, live: seq<RegionMap>, r: seq<StoredMap>, cs: seq<Copies>)
    requires UpdatesInTurn(caps, maps, stored, live, r, cs)
    ensures Prepare(MapKind(caps, maps), stored, live, cs[0]) == (r, cs[|r|])
  {
    MapsUpdated(caps, maps, stored, live, r, cs, 0);
    assert r[..0] + stored[0..] == stored && live[0..] == live;
    MapsAlive(r, live);
    MapKeyed(caps, maps);
    Pass2Idle(MapKind(caps, maps), MapView(), r, live, cs[|r|]);
  }

  lemma MapsAlive(r: seq<StoredMap>, live: seq<RegionMap>)
    requires |r| == |live| && forall i :: 0 <= i < |r| ==> r[i].head.badge == live[i].head.badge
    ensures forall s :: s in r ==> HasLive(MapView(), live, MapView().key(s))
  {
    forall s | s in r ensures HasLive(MapView(), live, MapView().key(s)) {
      var i :| 0 <= i < |r| && r[i] == s;
      assert live[i] in live && MapView().liveKey(live[i]) == MapView().key(s);
    }
  }

  lemma TwoPrepared(caps: seq<CapKcap>, maps: set<nat>, stored: seq<StoredMap>, live: seq<RegionMap>, c: Copies,
                    s0: StoredMap, s1: StoredMap, c1: Copies, c2: Copies)
    requires |stored| == |live| == 2 && live[0].head.badge != live[1].head.badge
    requires stored[0].head.badge == live[0].head.badge == s0.head.badge && stored[1].head.badge == live[1].head.badge == s1.head.badge
    requires MapKind(caps, maps).update(stored[0], live[0], c) == (s0, c1) && MapKind(caps, maps).update(stored[1], live[1], c1) == (s1, c2)
    ensures Prepare(MapKind(caps, maps), stored, live, c) == ([s0, s1], c2)
  {
    PreparedInTurn(caps, maps, stored, live, [s0, s1], [c, c1, c2]);
  }

  // ---- The first checkpoint ----

  // The records of a list seen for the first time, in reverse order, in front of those of st.
  ghost predicate ReversedOnto(r: seq<StoredRamDs>, live: seq<RamDs>, st: seq<StoredRamDs>) {
    && |r| == |live| + |st|
    && (forall k :: 0 <= k < |live| ==> DescribesRamDs(r[k], live[|live| - 1 - k]))
    && (forall k :: |live| <= k < |r| ==> r[k] == st[k - |live|])
  }

  ghost predicate ReverseOf(stored: seq<StoredRamDs>, live: seq<RamDs>) {
    |stored| == |live| && forall k :: 0 <= k < |live| ==> DescribesRamDs(stored[k], live[|live| - 1 - k])
  }

  lemma ReversedOntoCons(r: seq<StoredRamDs>, live: seq<RamDs>, s: StoredRamDs, st: seq<StoredRamDs>)
    requires live != [] && DescribesRamDs(s, live[0]) && ReversedOnto(r, live[1..], [s] + st)
    ensures ReversedOnto(r, live, st)
  {
    var n := |live| - 1;
    forall k | 0 <= k < n ensures DescribesRamDs(r[k], live[n - k]) {
      assert live[1..][n - 1 - k] == live[n - k];
    }
    forall k | |live| <= k < |r| ensures r[k] == st[k - |live|] {
      assert r[k] == ([s] + st)[k - n];
    }
  }

  lemma {:induction false} Pass1Reverses(caps: seq<CapKcap>, st: seq<StoredRamDs>, live: seq<RamDs>, c: Copies)
    requires DistinctLive(RamDsView(), live) && forall s, l :: s in st && l in live ==> s.badge != l.badge
    ensures ReversedOnto(Pass1(RamDsKind(caps), st, live, c).0, live, st)
    decreases |live|
  {
    if live != [] {
      var kind, rest := RamDsKind(caps), live[1..];
      assert FindStored(kind, st, live[0]) == |st|;
      var (s, c') := CreateRamDs(caps, live[0], c);
      assert Upsert(kind, st, live[0], c) == ([s] + st, c');
      NotAmongRest(RamDsView(), live);
      forall t, l | t in [s] + st && l in rest ensures t.badge != l.badge {
        if t !in st {
          assert t == s && !HasLive(RamDsView(), rest, live[0].badge);
        }
      }
      Pass1Reverses(caps, [s] + st, rest, c');
      ReversedOntoCons(Pass1(kind, [s] + st, rest, c').0, live, s, st);
    }
  }

  lemma FirstReverses(caps: seq<CapKcap>, live: seq<RamDs>, c: Copies)
    requires DistinctLive(RamDsView(), live)
    ensures ReverseOf(Prepare(RamDsKind(caps), [], live, c).0, live)
  {
    var kind, v := RamDsKind(caps), RamDsView();
    Pass1Reverses(caps, [], live, c);
    var (m, c') := Pass1(kind, [], live, c);
    forall s | s in m ensures HasLive(v, live, s.badge) {
      var k :| 0 <= k < |m| && m[k] == s;
      assert DescribesRamDs(m[k], live[|live| - 1 - k]) && live[|live| - 1 - k] in live;
    }
    assert Keyed(kind, v);
    Pass2Idle(kind, v, m, live, c');
  }

  // As Ram_session_component keeps its list: youngest first, so bootstrapped entries last.
  ghost predicate YoungestFirst(live: seq<RamDs>) {
    && DistinctLive(RamDsView(), live)
    && (forall i, j :: 0 <= i < j < |live| ==> live[j].timestamp < live[i].timestamp)
    && (forall i, j :: 0 <= i < j < |live| && live[i].bootstrapped ==> live[j].bootstrapped)
  }

  ghost predicate FitsMatcher(stored: seq<StoredRamDs>, live: seq<RamDs>) {
    ReverseOf(stored, live) && Distinct(Entries(stored)) && BootstrappedPrefix(Entries(stored)) && FillInBounds(Entries(stored))
  }

  lemma ReversedFits(stored: seq<StoredRamDs>, live: seq<RamDs>)
    requires YoungestFirst(live) && ReverseOf(stored, live)
    ensures FitsMatcher(stored, live)
  {
    FillInBoundsIffPrefix(Entries(stored));
  }

  // The state made by a child's first checkpoint is one the restorer can match: its arrays are filled
  // without a gap and inside their bounds.
  lemma FirstCheckpointFits(w: World)
    requires DistinctLive(RamView(), w.ram) && forall l :: l in w.ram ==> YoungestFirst(l.kids)
    ensures forall s, l :: s in After([w]).0.ram && l in w.ram && s.head.badge == l.head.badge ==> FitsMatcher(s.kids, l.kids)
  {
    var kind := RamSessionKind(w.caps);
    var v := SessionView((s: seq<StoredRamDs>, l: seq<RamDs>) => ReverseOf(s, l));
    RamKeyed(w.caps);
    assert Keyed(kind, v);
    forall l | l in w.ram ensures Refreshes(kind, v, [], l) {
      forall c ensures ReverseOf(Prepare(RamDsKind(w.caps), [], l.kids, c).0, l.kids) {
        FirstReverses(w.caps, l.kids, c);
      }
    }
    var c := Copies([], 1);
    assert [w][..0] == [];
    PrepareReconciles(kind, v, [], w.ram, c);
    var ram := Prepare(kind, [], w.ram, c).0;
    assert After([w]).0.ram == ram;
    forall s, l | s in ram && l in w.ram && s.head.badge == l.head.badge ensures FitsMatcher(s.kids, l.kids) {
      RecordIsCurrent(v, ram, w.ram, s, l);
      ReversedFits(s.kids, l.kids);
    }
  }

  // ---- A later checkpoint ----

  // The record of a dataspace allocated since goes in front of those there are.
  lemma LaterGoesInFront(caps: seq<CapKcap>, stored: seq<StoredRamDs>, d: RamDs, live: seq<RamDs>, c: Copies)
    requires DistinctLive(RamDsView(), [d] + live) && ReverseOf(stored, live)
    ensures Prepare(RamDsKind(caps), stored, [d] + live, c).0 == [CreateRamDs(caps, d, c).0] + stored
  {
    var kind, v, all := RamDsKind(caps), RamDsView(), [d] + live;
    var (s, c') := CreateRamDs(caps, d, c);
    forall k | 0 <= k < |stored| ensures stored[k].badge != d.badge {
      assert all[|live| - k] == live[|live| - 1 - k] && v.liveKey(all[0]) != v.liveKey(all[|live| - k]);
    }
    assert all[1..] == live;
    FoundStored(kind, stored, d, |stored|);
    FoundStored(kind, [s] + stored, d, 0);
    assert ([s] + stored)[0 := s] == [s] + stored;
    assert Upsert(kind, [s] + stored, d, c') == ([s] + stored, c') == Upsert(kind, stored, d, c);
    assert Prepare(kind, stored, all, c) == Prepare(kind, [s] + stored, all, c');
    LaterReconciled(s, stored, d, live);
    PrepareIdempotent(kind, v, [s] + stored, all, c');
  }

  lemma LaterReconciled(s: StoredRamDs, stored: seq<StoredRamDs>, d: RamDs, live: seq<RamDs>)
    requires DistinctLive(RamDsView(), [d] + live) && ReverseOf(stored, live) && DescribesRamDs(s, d)
    ensures Reconciled(RamDsView(), [s] + stored, [d] + live)
  {
    var v, r, all := RamDsView(), [s] + stored, [d] + live;
    forall i | 0 <= i < |r| ensures exists k :: 0 <= k < |all| && DescribesRamDs(r[i], all[k]) && k == if i == 0 then 0 else |all| - i {
      var k := if i == 0 then 0 else |all| - i;
      assert i > 0 ==> r[i] == stored[i - 1] && all[k] == live[|live| - i];
      assert DescribesRamDs(r[i], all[k]);
    }
    forall l | l in all ensures HasCurrent(v, r, l) {
      var k :| 0 <= k < |all| && all[k] == l;
      var i := if k == 0 then 0 else |all| - k;
      assert r[i] in r && DescribesRamDs(r[i], all[k]);
    }
    forall x | x in r ensures HasLive(v, all, v.key(x)) {
      var i :| 0 <= i < |r| && r[i] == x;
    }
  }

  // One session, seen for the first time or again.
  lemma OneRamSession(caps: seq<CapKcap>, stored: seq<StoredRamSession>, l: RamSession, c: Copies)
    requires stored == [] || (|stored| == 1 && stored[0].head.badge == l.head.badge)
    ensures var r := Prepare(RamSessionKind(caps), stored, [l], c).0;
      && |r| == 1 && r[0].head.badge == l.head.badge
      && r[0].kids == Prepare(RamDsKind(caps), if stored == [] then [] else stored[0].kids, l.kids, c).0
  {
    var kind := RamSessionKind(caps);
    RamKeyed(caps);
    var s := if stored == [] then kind.create(l, c).0 else stored[0];
    var (s', c') := kind.update(s, l, c);
    FoundStored(kind, stored, l, 0);
    if stored == [] {
      assert kind.create(l, c) == (s, c) && Upsert(kind, stored, l, c) == ([s'] + stored, c') && [s'] + stored == [s'];
    } else {
      assert Upsert(kind, stored, l, c) == (stored[0 := s'], c') && stored[0 := s'] == [s'];
    }
    assert Pass1(kind, [s'], [], c') == ([s'], c') && Pass1(kind, stored, [l], c) == Pass1(kind, [s'], [], c');
    assert kind.alive(l, s') && FindLive(kind, [l], s') == 0;
    assert Pass2(kind, [], [l], c') == ([], c') && Pass2(kind, [s'], [l], c').0 == [s'] + [];
  }

  lemma FirstRecords(w: World)
    requires |w.ram| == 1 && DistinctLive(RamDsView(), w.ram[0].kids)
    ensures var ram := After([w]).0.ram; |ram| == 1 && ram[0].head.badge == w.ram[0].head.badge && ReverseOf(ram[0].kids, w.ram[0].kids)
  {
    var c := Copies([], 1);
    assert [w][..0] == [] && w.ram == [w.ram[0]];
    OneRamSession(w.caps, [], w.ram[0], c);
    FirstReverses(w.caps, w.ram[0].kids, c);
  }

  lemma LaterRecords(s: Stored, c: Copies, w: World, d: RamDs, live: seq<RamDs>)
    requires |s.ram| == |w.ram| == 1 && s.ram[0].head.badge == w.ram[0].head.badge && w.ram[0].kids == [d] + live
    requires DistinctLive(RamDsView(), w.ram[0].kids) && ReverseOf(s.ram[0].kids, live)
    ensures var ram := Checkpoint(s, w, c).0.ram;
      |ram| == 1 && ram[0].kids != [] && DescribesRamDs(ram[0].kids[0], d) && ram[0].kids[1..] == s.ram[0].kids
  {
    assert w.ram == [w.ram[0]];
    OneRamSession(w.caps, s.ram, w.ram[0], c);
    LaterGoesInFront(w.caps, s.ram[0].kids, d, live, c);
  }

  // After a child has allocated one dataspace between two checkpoints, the restorer's fill stays in bounds if
  // and only if the child had no bootstrapped dataspace before.
  lemma LaterAllocationOverruns(w1: World, w2: World, d: RamDs)
    requires |w1.ram| == |w2.ram| == 1 && w2.ram[0].head.badge == w1.ram[0].head.badge && w2.ram[0].kids == [d] + w1.ram[0].kids
    requires YoungestFirst(w2.ram[0].kids) && !d.bootstrapped
    ensures var ram := After([w1, w2]).0.ram;
      && |ram| == 1 && (FillInBounds(Entries(ram[0].kids)) <==> forall l :: l in w1.ram[0].kids ==> !l.bootstrapped)
      && ((forall s :: s in ram[0].kids ==> !s.bootstrapped) <==> forall l :: l in w1.ram[0].kids ==> !l.bootstrapped)
  {
    var live := w1.ram[0].kids;
    assert [w1, w2][..1] == [w1];
    forall i, j | 0 <= i < j < |live| ensures live[i].badge != live[j].badge {
      assert ([d] + live)[i + 1] == live[i] && ([d] + live)[j + 1] == live[j];
      assert RamDsView().liveKey(([d] + live)[i + 1]) != RamDsView().liveKey(([d] + live)[j + 1]);
    }
    FirstRecords(w1);
    LaterRecords(After([w1]).0, After([w1]).1, w2, d, live);
    NewInFront(After([w1, w2]).0.ram[0].kids, After([w1]).0.ram[0].kids, live);
  }

  lemma NewInFront(stored: seq<StoredRamDs>, before: seq<StoredRamDs>, live: seq<RamDs>)
    requires stored != [] && stored[1..] == before && !stored[0].bootstrapped && ReverseOf(before, live)
    ensures FillInBounds(Entries(stored)) <==> forall l :: l in live ==> !l.bootstrapped
    ensures (forall s :: s in stored ==> !s.bootstrapped) <==> forall l :: l in live ==> !l.bootstrapped
  {
    FillInBoundsIffPrefix(Entries(stored));
    if l :| l in live && l.bootstrapped {
      var k :| 0 <= k < |live| && live[k] == l;
      assert DescribesRamDs(before[|live| - 1 - k], live[|live| - 1 - (|live| - 1 - k)]);
      assert Entries(stored)[|live| - k].bootstrapped && !Entries(stored)[0].bootstrapped;
    } else {
      forall i | 0 <= i < |stored| ensures !Entries(stored)[i].bootstrapped {
        if i > 0 {
          assert DescribesRamDs(before[i - 1], live[|live| - 1 - (i - 1)]) && stored[i] == before[i - 1];
        }
      }
    }
  }
}
