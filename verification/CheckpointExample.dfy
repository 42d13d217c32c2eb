// The predecessor of RestoreExample alive: the run of a child whose first checkpoint stores that state.
module CheckpointExample {
  import opened Variants
  import opened InfoList
  import opened CapMap
  import opened CopyTable
  import opened Reconcile
  import opened StoredState
  import opened StoredStateRuns
  import opened RestoreState
  import opened Memory
  import opened Tiles
  import opened MemoryPlan
  import opened IncrementalShipped
  import opened StoredRegions
  import opened StoredStateMirror
  import opened StoredStateRefs
  import opened StoredBadges
  import opened PrepareStep
  import opened SavedRecords
  import Inc = Incremental
  import opened RestoreExample

  // One dataspace of its RAM session, one of unknown origin that it found attached, and a region map of its own.
  function Caps(): seq<CapKcap> {
    [CapKcap(0x7000, 47), CapKcap(0x8000, 48)]
  }

  function LiveMaps(): seq<RegionMap> {
    [Node(MapHead(34, 35, 4096, 0, true), [Region(43, 4096, 0, 0x10000, true, true)]),
     Node(MapHead(36, 37, 4096, 0, true), []), Node(MapHead(38, 39, 4096, 0, true), [])]
  }

  function Predecessor(): World {
    World([Node(SessionHead(31, "", "", true), [RamDs(32, 4096, 0, true, true, 5)])],
          [Node(SessionHead(33, "", "", true), LiveMaps())],
          [Node(SessionHead(47, "", "", false), [Node(MapHead(48, 49, 4096, 0, false), [])])],
          Caps())
  }

  lemma Kcaps(b: nat)
    ensures KcapOf(Caps(), b) == if b == 47 then 0x7000 else if b == 48 then 0x8000 else 0
  {
    var caps, p := Caps(), (e: CapKcap) => e.badge == b;
    assert caps[1..] == [caps[1]] && caps[1..][1..] == [];
  }

  // The table empty, with the copy of the RAM dataspace, and with both copies.
  function NoCopies(): Copies {
    Copies([], 90)
  }

  function OneCopy(): Copies {
    Copies([CopyEntry(32, 90, 4096, 1)], 91)
  }

  function BothCopies(): Copies {
    Copies([CopyEntry(43, 91, 4096, 1), CopyEntry(32, 90, 4096, 1)], 92)
  }

  lemma CopiesMade()
    ensures AddRef(NoCopies(), 32, 4096) == OneCopy() && AddRef(OneCopy(), 43, 4096) == BothCopies()
  {
    var none: seq<CopyEntry> := [];
    assert OneCopy().table[1..] == [] && OneCopy().table + none == OneCopy().table;
    assert [CopyEntry(43, 91, 4096, 1)] + OneCopy().table == BothCopies().table;
  }

  // A session seen for the first time, alone.
  lemma SessionMade<C(!new), D(!new)>(kind: Kind<Node<StoredSessionHead, C>, Node<SessionHead, D>>, child: Kind<C, D>, l: Node<SessionHead, D>,
                                      c: Copies, s0: Node<StoredSessionHead, C>, kids: seq<C>, c': Copies)
    requires ByBadge(kind, child) && kind.create(l, c) == (s0, c) && s0.head.badge == l.head.badge
    requires Prepare(child, s0.kids, l.kids, c) == (kids, c')
    ensures Prepare(kind, [], [l], c) == ([Node(s0.head, kids)], c')
  {
    assert kind.update(s0, l, c) == (Node(s0.head, kids), c');
    MadeAlone(kind, l, c);
  }

  lemma RamMade()
    ensures Prepare(RamSessionKind(Caps()), [], Predecessor().ram, NoCopies()) == (StoredPredecessor().ram, OneCopy())
  {
    var l, s := Predecessor().ram[0], StoredPredecessor().ram[0];
    var kind, child := RamSessionKind(Caps()), RamDsKind(Caps());
    RamDsMade();
    Kcaps(31);
    SessionsByBadge(Caps(), {});
    var s0: StoredRamSession := Node(s.head, []);
    assert kind.create(l, NoCopies()) == (s0, NoCopies());
    SessionMade(kind, child, l, NoCopies(), s0, s.kids, OneCopy());
  }

  lemma RamDsMade()
    ensures Prepare(RamDsKind(Caps()), [], Predecessor().ram[0].kids, NoCopies()) == (StoredPredecessor().ram[0].kids, OneCopy())
  {
    var l, s, child := Predecessor().ram[0].kids[0], StoredPredecessor().ram[0].kids[0], RamDsKind(Caps());
    Kcaps(32);
    CopiesMade();
    assert child.create(l, NoCopies()) == (s, OneCopy());
    MadeAlone(child, l, NoCopies());
  }

  lemma EmptyPrepared(maps: set<nat>, c: Copies)
    ensures Prepare(RegionKind(Caps(), maps), [], [], c) == ([], c)
  {
  }

  lemma MapUpdated(maps: set<nat>, s: StoredMap, l: RegionMap, c: Copies, kids: seq<StoredRegion>, c': Copies)
    requires Prepare(RegionKind(Caps(), maps), s.kids, l.kids, c) == (kids, c') && s.head.sigh == l.head.sigh
    ensures MapKind(Caps(), maps).update(s, l, c) == (Node(s.head, kids), c')
  {
    assert s.head.(sigh := l.head.sigh) == s.head;
  }

  lemma RomRecorded(maps: set<nat>)
    requires 43 !in maps
    ensures Prepare(RegionKind(Caps(), maps), [], LiveMaps()[0].kids, OneCopy()) == (StoredMaps()[0].kids, BothCopies())
  {
    Kcaps(43);
    CopiesMade();
    CreatedAlone(Caps(), maps, LiveMaps()[0].kids[0], OneCopy());
  }

  lemma OwnMapsMade(maps: set<nat>, seed: seq<StoredMap>)
    requires 43 !in maps && |seed| == 3 && forall i :: 0 <= i < 3 ==> seed[i] == Node(StoredMaps()[i].head, [])
    ensures Prepare(MapKind(Caps(), maps), seed, LiveMaps(), OneCopy()) == (StoredMaps(), BothCopies())
  {
    var live, r := LiveMaps(), StoredMaps();
    RomRecorded(maps);
    EmptyPrepared(maps, BothCopies());
    MapUpdated(maps, seed[0], live[0], OneCopy(), r[0].kids, BothCopies());
    MapUpdated(maps, seed[1], live[1], BothCopies(), [], BothCopies());
    MapUpdated(maps, seed[2], live[2], BothCopies(), [], BothCopies());
    ThreeUpdated(maps, seed, live, r, OneCopy(), BothCopies());
  }

  lemma ThreeUpdated(maps: set<nat>, seed: seq<StoredMap>, live: seq<RegionMap>, r: seq<StoredMap>, c: Copies, c': Copies)
    requires |seed| == |live| == |r| == 3 && (forall i, j :: 0 <= i < j < 3 ==> live[i].head.badge != live[j].head.badge)
    requires forall i :: 0 <= i < 3 ==> seed[i].head.badge == live[i].head.badge == r[i].head.badge
    requires forall i :: 0 <= i < 3 ==> MapKind(Caps(), maps).update(seed[i], live[i], if i == 0 then c else c') == (r[i], c')
    ensures Prepare(MapKind(Caps(), maps), seed, live, c) == (r, c')
  {
    PreparedInTurn(Caps(), maps, seed, live, r, [c, c', c', c']);
  }

  lemma Seeded()
    ensures var seed := PdSeed(Caps(), Predecessor().pd[0]); |seed| == 3 && forall i :: 0 <= i < 3 ==> seed[i] == Node(StoredMaps()[i].head, [])
  {
    Kcaps(34);
    Kcaps(36);
    Kcaps(38);
  }

  lemma PdMade(maps: set<nat>)
    requires 43 !in maps
    ensures Prepare(PdSessionKind(Caps(), maps), [], Predecessor().pd, OneCopy()) == ([StoredPredecessor().pd[0].session], BothCopies())
  {
    var l, s, kind := Predecessor().pd[0], StoredPredecessor().pd[0].session, PdSessionKind(Caps(), maps);
    var seed := PdSeed(Caps(), l);
    Kcaps(33);
    Seeded();
    OwnMapsMade(maps, seed);
    SessionsByBadge(Caps(), maps);
    assert kind.create(l, OneCopy()) == (Node(s.head, seed), OneCopy());
    SessionMade(kind, MapKind(Caps(), maps), l, OneCopy(), Node(s.head, seed), s.kids, BothCopies());
  }

  lemma RmMapMade(maps: set<nat>)
    ensures Prepare(MapKind(Caps(), maps), [], Predecessor().rm[0].kids, BothCopies()) == (StoredPredecessor().rm[0].kids, BothCopies())
  {
    var l, s, child := Predecessor().rm[0].kids[0], StoredPredecessor().rm[0].kids[0], MapKind(Caps(), maps);
    Kcaps(48);
    EmptyPrepared(maps, BothCopies());
    assert child.create(l, BothCopies()) == (s, BothCopies());
    MapUpdated(maps, s, l, BothCopies(), [], BothCopies());
    MadeAlone(child, l, BothCopies());
  }

  lemma RmMade(maps: set<nat>)
    ensures Prepare(RmSessionKind(Caps(), maps), [], Predecessor().rm, BothCopies()) == (StoredPredecessor().rm, BothCopies())
  {
    var l, s, kind := Predecessor().rm[0], StoredPredecessor().rm[0], RmSessionKind(Caps(), maps);
    Kcaps(47);
    RmMapMade(maps);
    SessionsByBadge(Caps(), maps);
    var s0: StoredRmSession := Node(s.head, []);
    assert kind.create(l, BothCopies()) == (s0, BothCopies());
    SessionMade(kind, MapKind(Caps(), maps), l, BothCopies(), s0, s.kids, BothCopies());
  }

  lemma MapsOfPredecessor()
    ensures Maps(Predecessor()) == {35, 37, 39, 49}
  {
    var w := Predecessor();
    assert MapBadges(w.pd[0].kids) == {35, 37, 39} by {
      assert w.pd[0].kids[0] in w.pd[0].kids && w.pd[0].kids[1] in w.pd[0].kids && w.pd[0].kids[2] in w.pd[0].kids;
    }
    assert MapBadges(w.rm[0].kids) == {49} by {
      assert w.rm[0].kids[0] in w.rm[0].kids;
    }
    assert w.pd[0] in w.pd && w.rm[0] in w.rm;
    assert SessionMapBadges(w.pd) == {35, 37, 39} && SessionMapBadges(w.rm) == {49};
  }

  function Empty(): Stored {
    Stored([], [], [])
  }

  // The state of RestoreExample is what its first checkpoint stores.
  lemma PredecessorStored(s: StoredChild, w: World)
    requires s == StoredPredecessor() && w == Predecessor()
    ensures Checkpoint(Empty(), w, NoCopies()) == (Stored(s.ram, [s.pd[0].session], s.rm), BothCopies())
  {
    assert 43 !in Maps(w) by {
      MapsOfPredecessor();
    }
    assert Prepare(RamSessionKind(w.caps), [], w.ram, NoCopies()) == (s.ram, OneCopy()) by {
      RamMade();
    }
    assert Prepare(PdSessionKind(w.caps, Maps(w)), [], w.pd, OneCopy()) == ([s.pd[0].session], BothCopies()) by {
      PdMade(Maps(w));
    }
    assert Prepare(RmSessionKind(w.caps, Maps(w)), [], w.rm, BothCopies()) == (s.rm, BothCopies()) by {
      RmMade(Maps(w));
    }
    StoredBy(s, w, NoCopies(), OneCopy(), BothCopies());
  }

  lemma StoredBy(s: StoredChild, w: World, c: Copies, c1: Copies, c2: Copies)
    requires |s.pd| == 1 && Prepare(RamSessionKind(w.caps), [], w.ram, c) == (s.ram, c1)
    requires Prepare(PdSessionKind(w.caps, Maps(w)), [], w.pd, c1) == ([s.pd[0].session], c2)
    requires Prepare(RmSessionKind(w.caps, Maps(w)), [], w.rm, c2) == (s.rm, c2)
    ensures Checkpoint(Empty(), w, c) == (Stored(s.ram, [s.pd[0].session], s.rm), c2)
  {
    CheckpointIs(Empty(), w, c, Stored(s.ram, [s.pd[0].session], s.rm), c1, c2, c2);
  }

  // ---- The child before the reconciliation ----

  lemma ItsBadges()
    ensures forall b :: RamLive(Predecessor().ram, b) <==> b == 32
    ensures forall b :: RegionLive(Predecessor().pd, b) <==> b == 43
    ensures forall b :: !RegionLive(Predecessor().rm, b)
  {
    var w := Predecessor();
    assert w.ram[0] in w.ram && w.ram[0].kids[0] in w.ram[0].kids;
    assert w.pd[0] in w.pd && w.pd[0].kids[0] in w.pd[0].kids && w.pd[0].kids[0].kids[0] in w.pd[0].kids[0].kids;
    assert Shows(w.pd[0].kids[0], 43);
    forall b, m | m in w.pd[0].kids && Shows(m, b) ensures b == 43 {
    }
  }

  lemma ItsSaved()
    ensures forall b :: Saved(Predecessor(), b) <==> b == 32 || b == 43
  {
    ItsBadges();
    MapsOfPredecessor();
  }

  lemma ItsRegions(b: nat, n: nat)
    ensures RegionSizedAs(Predecessor().pd, b, n) ==> n == 4096
    ensures !RegionSizedAs(Predecessor().rm, b, n)
  {
    var w := Predecessor();
    forall m, r | m in w.pd[0].kids && r in m.kids ensures r.size == 4096 {
    }
  }

  lemma NothingStoredYet(live: seq<Region>)
    requires live == [] || (|live| == 1 && live[0].size > 0)
    ensures Separate(live) && Unambiguous([], live)
  {
  }

  lemma MapsWell(live: seq<RegionMap>)
    requires forall l :: l in live ==> l.kids == [] || (|l.kids| == 1 && l.kids[0].size > 0)
    requires forall i, j :: 0 <= i < j < |live| ==> live[i].head.badge != live[j].head.badge
    ensures WellFormedMaps(live) && ClearMaps([], live)
  {
    forall l | l in live ensures Separate(l.kids) && Unambiguous(RegionsOf([], l.head.badge), l.kids) {
      NothingStoredYet(l.kids);
    }
  }

  lemma WellIf(w: World)
    requires |w.ram| == |w.pd| == |w.rm| == 1 && |w.ram[0].kids| == 1
    requires WellFormedMaps(w.pd[0].kids) && ClearMaps([], w.pd[0].kids) && WellFormedMaps(w.rm[0].kids) && ClearMaps([], w.rm[0].kids)
    ensures WellFormed(w) && Clear(Empty(), w)
  {
    assert forall l :: l in w.pd ==> l == w.pd[0];
    assert forall l :: l in w.rm ==> l == w.rm[0];
  }

  lemma ItIsWell()
    ensures WellFormed(Predecessor()) && Clear(Empty(), Predecessor())
  {
    MapsWell(LiveMaps());
    MapsWell(Predecessor().rm[0].kids);
    WellIf(Predecessor());
  }

  lemma MapsAdmissible(live: seq<RegionMap>, maps: set<nat>)
    ensures forall l :: l in live ==> MapAccount(maps, maps).admissible(l)
  {
  }

  lemma ItIsAdmissible()
    ensures Admissible(Predecessor(), {35, 37, 39, 49})
  {
    var w := Predecessor();
    MapsOfPredecessor();
    forall l | l in w.pd + w.rm ensures RmAccount(Maps(w), Maps(w)).admissible(l) {
      MapsAdmissible(l.kids, Maps(w));
    }
    assert forall l :: l in w.ram ==> RamAccount(Maps(w)).admissible(l);
  }

  lemma NothingIsConsistent(managed: set<nat>)
    ensures Consistent(Empty(), NoCopies(), {}, managed)
  {
    assert StateRefs(Empty(), {}, managed) == multiset{};
  }

  // ---- Its run ----

  ghost function RamPage(): Ds {
    Ds(32, 4096, Some([Tile(60, 0, 4096, true)]))
  }

  ghost function Rom(): Ds {
    Ds(43, 4096, None)
  }

  ghost function Memory1(): map<nat, seq<byte>> {
    map[60 := Fill(4096, 7)]
  }

  ghost function Memory2(): map<nat, seq<byte>> {
    Memory1()[43 := Fill(4096, 9)]
  }

  ghost function InPhase(ds: seq<Ds>, mem: map<nat, seq<byte>>, phase: Inc.Phase): Inc.State {
    Inc.State(ds, [], mem, phase, 0, [], [])
  }

  // It allocates a page, attaches the other dataspace, is paused, and its capability map is read.
  ghost function ItsRun(): seq<Inc.State> {
    var ds := [Rom(), RamPage()];
    [InPhase([], map[], Inc.Running), InPhase([RamPage()], Memory1(), Inc.Running), InPhase(ds, Memory2(), Inc.Running),
     InPhase(ds, Memory2(), Inc.Paused), InPhase(ds, Memory2(), Inc.Marked), InPhase(ds, Memory2(), Inc.Scanned)]
  }

  lemma PageShape()
    ensures Inc.Shaped([RamPage()])
  {
    assert Align(4096) == 4096 && RamPage().tiles.value[1..] == [];
  }

  lemma ItsShape()
    ensures Inc.Shaped([Rom(), RamPage()])
  {
    assert Align(4096) == 4096 && RamPage().tiles.value[1..] == [];
  }

  lemma Allocated(v: Variant, s: Inc.State, s': Inc.State, d: Ds)
    requires s.phase == Inc.Running && s.table == [] && s'.ds == [d] + s.ds && s' == s.(ds := s'.ds, mem := s'.mem)
    requires (forall t :: t in Slices(d) ==> t.attached) && Inc.SameContent(s.mem, s'.mem) && Inc.Shaped(s'.ds) && Inc.Backed(s'.ds, s'.mem)
    ensures Inc.Good(v, s, s')
  {
    assert Inc.Allocates(s, s', d);
  }

  lemma PageAllocated(v: Variant)
    ensures Inc.Good(v, ItsRun()[0], ItsRun()[1])
  {
    assert [RamPage()] + [] == [RamPage()];
    PageShape();
    Allocated(v, ItsRun()[0], ItsRun()[1], RamPage());
  }

  lemma RomAttached(v: Variant)
    ensures Inc.Good(v, ItsRun()[1], ItsRun()[2])
  {
    assert [Rom()] + [RamPage()] == [Rom(), RamPage()];
    ItsShape();
    Allocated(v, ItsRun()[1], ItsRun()[2], Rom());
  }

  lemma RunIs(v: Variant)
    ensures Inc.IsRun(v, ItsRun()) && Inc.ResolvesAll(v, ItsRun()[5].ds)
  {
    PageAllocated(v);
    RomAttached(v);
    assert Inc.Pauses(ItsRun()[2], ItsRun()[3]);
    assert Inc.Marks(ItsRun()[3], ItsRun()[4], 0);
    assert Inc.Unmarks(ItsRun()[4], ItsRun()[5]);
    var run := ItsRun();
    forall n | 0 <= n < |run| - 1 ensures Inc.Good(v, run[n], run[n + 1]) {
      assert n == 0 || n == 1 || n == 2 || n == 3 || n == 4;
    }
  }

  // Memory with room for both copies.
  ghost function Memory3(): map<nat, seq<byte>> {
    Memory2()[90 := Fill(4096, 0)][91 := Fill(4096, 0)]
  }

  lemma ItsLists()
    ensures Lists([Rom(), RamPage()], Predecessor()) && Fitting(Predecessor(), Memory2())
  {
    var ds := [Rom(), RamPage()];
    ItsBadges();
    ItsSaved();
    forall b | Saved(Predecessor(), b) ensures exists i :: 0 <= i < |ds| && ds[i].badge == b {
      assert ds[0].badge == 43 && ds[1].badge == 32;
    }
    forall b: nat, n: nat | (RegionSizedAs(Predecessor().pd, b, n) || RegionSizedAs(Predecessor().rm, b, n)) && b in Memory2()
      ensures n <= |Memory2()[b]|
    {
      ItsRegions(b, n);
    }
  }

  lemma CopiesGranted()
    ensures Granted(Memory2(), NoCopies(), BothCopies(), Memory3())
  {
    assert Align(4096) == 4096;
  }

  lemma BeforeReconciliation(v: Variant)
    ensures Inc.Inv(ItsRun()[5])
  {
    RunIs(v);
    Inc.RunKeeps(v, ItsRun(), 5);
  }

  lemma ReadyToStore(v: Variant, w: World, st: Inc.State)
    requires w == Predecessor() && st == ItsRun()[5]
    ensures Ready(Empty(), w, NoCopies(), {}, {35, 37, 39, 49}, st, Memory3())
  {
    BeforeReconciliation(v);
    ItIsWell();
    ItIsAdmissible();
    NothingIsConsistent({35, 37, 39, 49});
    ItsLists();
    PredecessorStored(StoredPredecessor(), w);
    CopiesGranted();
    ReadyIf(Empty(), w, NoCopies(), BothCopies(), {}, {35, 37, 39, 49}, st, Memory3());
  }

  lemma ReadyIf(s: Stored, w: World, c: Copies, c': Copies, maps: set<nat>, managed: set<nat>, st: Inc.State, mem': map<nat, seq<byte>>)
    requires Consistent(s, c, maps, managed) && Admissible(w, managed) && WellFormed(w) && Clear(s, w) && OneSession(s.ram, w.ram)
    requires Inc.Inv(st) && st.phase == Inc.Scanned && st.table == c.table && c' == Checkpoint(s, w, c).1
    requires Lists(st.ds, w) && Fitting(w, st.mem) && Granted(st.mem, c, c', mem')
    ensures Ready(s, w, c, maps, managed, st, mem')
  {
    OpenReady(s, w, c, maps, managed, st, mem');
  }

  lemma ItsPreparedDs()
    ensures Resize([Rom(), RamPage()], Predecessor(), BothCopies().table) == [Rom(), RamPage()]
  {
    ItsBadges();
    var t := BothCopies().table;
    assert SizeOf(t, 43) == 4096;
  }

  // The whole run, in which the checkpoint has stored the state of RestoreExample.
  lemma PredecessorRun(v: Variant) returns (run: seq<Inc.State>)
    ensures Inc.IsRun(v, run) && 6 < |run| && Stores(run, 6, |run| - 1, StoredPredecessor())
    ensures Inc.SameShape([Rom(), RamPage()], run[|run| - 1].ds)
  {
    ReadyToStore(v, Predecessor(), ItsRun()[5]);
    PredecessorStored(StoredPredecessor(), Predecessor());
    RunIs(v);
    ItsPreparedDs();
    run := RunStores(v, ItsRun(), Empty(), Predecessor(), NoCopies(), {}, {35, 37, 39, 49}, Memory3(), StoredPredecessor());
  }
}
