// A whole round trip: the run of CheckpointExample, the fresh child of RestoreExample, and a restore that gets through.
module RoundTripExample {
  import opened Variants
  import opened InfoList
  import opened Memory
  import opened CapMap
  import opened RamIdentify
  import opened Tiles
  import opened CopyTable
  import opened StoredState
  import opened Translation
  import opened RestoreState
  import opened MemoryPlan
  import opened IncrementalShipped
  import opened RestoreRegions
  import opened RestoreSessions
  import opened RestoredState
  import opened RestoreMemory
  import opened SavedRecords
  import opened RestoreList
  import opened RoundTrip
  import opened RestoreExample
  import opened CheckpointExample
  import StoredRegions
  import Inc = Incremental

  // ---- The restore ----

  // Everything stored gets the badge that is 30 lower; 43, of unknown origin, is not in the restorer's list.
  ghost function Pairs(): (r: seq<CkptResto>)
    ensures |r| == 18 && forall i :: 0 <= i < 18 ==> r[i] == if i < 12 then CkptResto(31 + i, 1 + i) else CkptResto(32 + i, 2 + i)
  {
    seq(18, i requires 0 <= i < 18 => if i < 12 then CkptResto(31 + i, 1 + i) else CkptResto(32 + i, 2 + i))
  }

  ghost function AllPairs(): (r: seq<CkptResto>)
    ensures |r| == 19 && forall i :: 0 <= i < 19 ==> r[i] == CkptResto(31 + i, 1 + i)
  {
    seq(19, i requires 0 <= i < 19 => CkptResto(31 + i, 1 + i))
  }

  lemma PairsHas(badge: nat, target: nat)
    ensures CkptResto(badge, target) in Pairs() <==> 31 <= badge <= 49 && badge != 43 && target + 30 == badge
    ensures CkptResto(badge, target) in AllPairs() <==> 31 <= badge <= 49 && target + 30 == badge
  {
    if 31 <= badge <= 49 && target + 30 == badge {
      assert AllPairs()[badge - 31] == CkptResto(badge, target);
      if badge < 43 {
        assert Pairs()[badge - 31] == CkptResto(badge, target);
      } else if badge > 43 {
        assert Pairs()[badge - 32] == CkptResto(badge, target);
      }
    }
  }

  lemma PairsFaithful()
    ensures Faithful(Pairs()) && Extended(Pairs(), AllPairs())
    ensures forall b: nat :: Translate(AllPairs(), b) == if 31 <= b <= 49 then Some(b - 30) else None
  {
    forall e | e in Pairs() ensures e in AllPairs() {
      PairsHas(e.ckptBadge, e.restoBadge);
    }
    forall b: nat ensures Translate(AllPairs(), b) == if 31 <= b <= 49 then Some(b - 30) else None {
      if Translate(AllPairs(), b).Some? {
        TranslateIs(AllPairs(), b, Translate(AllPairs(), b).value);
        PairsHas(b, Translate(AllPairs(), b).value);
      } else if 31 <= b <= 49 {
        TranslateIs(AllPairs(), b, b - 30);
        PairsHas(b, b - 30);
      }
    }
  }

  ghost function ItsBindings(): Bound {
    Bound(Pairs(), [CapKcap(0x8000, 18), CapKcap(0x7000, 17), CapKcap(0x6800, 16), CapKcap(0x6000, 15), CapKcap(0x5000, 14)])
  }

  // What the fresh child becomes.
  ghost function RestoredChild(): Child {
    var c := FreshChild();
    Child(c.ram, [Pd(c.pd[0].session, [10], [Context(14, 10, 1)])],
          [Node(c.cpu[0].head, [Thread(15, "worker", 3), Thread(16, "worker", 3), Thread(12, "main", 3)])],
          [Node(SessionHead(17, "", "", false), [Node(MapHead(18, 19, 4096, 0, false), [])])])
  }

  lemma AllFoundAt<S(!new), L(!new)>(b: Bound, stands: (Bound, S, L) -> bool, stored: seq<S>, made: seq<L>)
    requires |stored| == |made| && forall i :: 0 <= i < |stored| ==> stands(b, stored[i], made[i])
    ensures AllFound(b, stands, stored, made, |stored|)
  {
    forall i | 0 <= i < |stored| ensures Found(b, stands, made, stored[i]) {
      assert made[i] in made;
    }
    OpenAllFound(b, stands, stored, made, |stored|);
  }

  lemma RamBound()
    ensures RamStands(ItsBindings(), StoredPredecessor().ram[0], FreshChild().ram[0], RestoredChild().ram[0])
  {
    var s, l, b := StoredPredecessor().ram[0], FreshChild().ram[0], ItsBindings();
    PairsHas(31, 1);
    PairsHas(32, 2);
    assert Entries(s.kids) == [Entry(32, 5, true)] && LiveEntries(l.kids) == [Entry(2, 0, true)];
    assert [Entry(32, 5, true)][1..] == [] && [Entry(2, 0, true)][1..] == [];
    assert l.kids[0] in l.kids;
    AllFoundAt(b, RamDsOf(s.kids, l.kids), s.kids, l.kids);
  }

  lemma PdBound()
    ensures PdStands(ItsBindings(), StoredPredecessor().pd[0], FreshChild().pd[0], RestoredChild().pd[0])
  {
    var s, l, b := StoredPredecessor().pd[0], RestoredChild().pd[0], ItsBindings();
    PairsHas(33, 3);
    PairsHas(34, 4);
    PairsHas(35, 5);
    PairsHas(36, 6);
    PairsHas(37, 7);
    PairsHas(38, 8);
    PairsHas(39, 9);
    PairsHas(40, 10);
    PairsHas(44, 14);
    assert b.caps[4] == CapKcap(0x5000, 14);
    AllFoundAt(b, SourceOf(10), s.sources, l.sources);
    AllFoundAt(b, ContextOf(), s.contexts, l.contexts);
  }

  lemma CpuBound()
    ensures AllFound(ItsBindings(), CpuOf(FreshChild().cpu), StoredPredecessor().cpu, RestoredChild().cpu, 1)
  {
    var c, s, l, b := FreshChild(), StoredPredecessor().cpu[0], RestoredChild().cpu[0], ItsBindings();
    PairsHas(41, 11);
    PairsHas(45, 15);
    PairsHas(46, 16);
    PairsHas(42, 12);
    PairsHas(33, 3);
    assert b.caps[3] == CapKcap(0x6000, 15) && b.caps[2] == CapKcap(0x6800, 16);
    assert ThreadsFor(c.cpu, s) == c.cpu[0].kids && c.cpu[0].kids[0] in c.cpu[0].kids;
    AllFoundAt(b, ThreadOf(c.cpu[0].kids), s.kids, l.kids);
    AllFoundAt(b, CpuOf(c.cpu), StoredPredecessor().cpu, RestoredChild().cpu);
  }

  lemma RmBound()
    ensures AllFound(ItsBindings(), RmOf(), StoredPredecessor().rm, RestoredChild().rm, 1) && DistinctBy(RestoredChild().rm, RmKey())
    ensures HasRmRestored(ItsBindings(), StoredPredecessor().rm[0], RestoredChild().rm)
  {
    var s, l, b := StoredPredecessor().rm[0], RestoredChild().rm[0], ItsBindings();
    PairsHas(47, 17);
    PairsHas(48, 18);
    PairsHas(49, 19);
    assert b.caps[1] == CapKcap(0x7000, 17) && b.caps[0] == CapKcap(0x8000, 18);
    AllFoundAt(b, NewMapOf(), s.kids, l.kids);
    AllFoundAt(b, RmOf(), StoredPredecessor().rm, RestoredChild().rm);
    assert l.kids[0] in l.kids && NewMapRestored(b, s.kids[0], l.kids[0]);
    assert l in RestoredChild().rm;
  }

  lemma AllBound()
    ensures Restored(ItsBindings(), FreshChild(), StoredPredecessor(), RestoredChild())
  {
    RamBound();
    PdBound();
    CpuBound();
    RmBound();
  }

  // ---- The second half ----

  ghost function ItsMaps(): seq<nat> {
    [35, 37, 39, 49]
  }

  lemma TheseAreMaps()
    ensures AreMaps(ItsMaps(), StoredPredecessor())
  {
    var s := StoredPredecessor();
    var own, recreated := s.pd[0].session.kids, s.rm[0].kids;
    assert s.pd[0] in s.pd && s.rm[0] in s.rm;
    assert own[0] in own && own[1] in own && own[2] in own && recreated[0] in recreated;
    assert StoredMapBadges(own) == {35, 37, 39} && StoredMapBadges(recreated) == {49};
  }

  // The one attached region is found where it was.
  lemma MapsRestorable()
    ensures StateRestorable(Pairs(), FreshChild(), StoredPredecessor(), RestoredChild().pd)
  {
    var s, c := StoredPredecessor(), FreshChild();
    var stored, live := s.pd[0].session.kids[0].kids, c.pd[0].session.kids[0].kids;
    assert Reattached(Pairs(), stored, 0) + live == live;
    OpenRegionRestorable(Pairs(), live, stored, 0);
    assert RegionsRestorable(Pairs(), live, stored, 0);
    assert RegionsRestorable(Pairs(), live, stored, 1);
  }

  lemma MapsAsTheyWere()
    ensures StateRestored(ItsBindings(), FreshChild(), StoredPredecessor(), RestoredChild())
  {
    var stored, live := StoredPredecessor().pd[0].session.kids, FreshChild().pd[0].session.kids;
    RmBound();
    forall k | 0 <= k < 3 ensures RestoredMap(Pairs(), stored[k], live[k]) == live[k] {
      assert Reattached(Pairs(), stored[k].kids, |stored[k].kids|) == [];
      assert [] + live[k].kids == live[k].kids;
    }
  }

  ghost function Jobs(): seq<Job> {
    var ws := StateWants(Pairs(), ItsMaps(), FreshChild(), StoredPredecessor());
    RegionJobs(ws, RamJobs(Pairs(), StoredPredecessor().ram[0].kids, [], 1), |ws|)
  }

  ghost function Restore(v: Variant): Restoration {
    Restoration(v, 14, FreshChild(), ItsBindings(), RestoredChild(), ItsMaps(), RestoredChild(), Jobs())
  }

  lemma ItsMemory()
    ensures MemoryCollected(Pairs(), ItsMaps(), FreshChild(), StoredPredecessor(), Jobs())
  {
    PairsFaithful();
    PairsHas(32, 2);
    TranslateIs(Pairs(), 32, 2);
  }

  lemma {:induction false} ItsNeeds()
    ensures StateNeeds(StoredPredecessor()) == [Need(0x5000, 44), Need(0x6000, 45), Need(0x6800, 46), Need(0x7000, 47), Need(0x8000, 48)]
  {
    var s := StoredPredecessor();
    var cpu, rm := s.cpu[0], s.rm[0];
    assert NeedsTo(s.ram[0].kids, RamDsNeed(), 0) == [] && NeedsTo(s.ram[0].kids, RamDsNeed(), 1) == [];
    assert NeedsTo(s.pd[0].sources, SourceNeed(), 0) == [] && NeedsTo(s.pd[0].sources, SourceNeed(), 1) == [];
    assert NeedsTo(s.pd[0].contexts, ContextNeed(), 0) == [] && NeedsTo(s.pd[0].contexts, ContextNeed(), 1) == [Need(0x5000, 44)];
    assert NeedsTo(cpu.kids, ThreadNeed(), 0) == [] && NeedsTo(cpu.kids, ThreadNeed(), 1) == [Need(0x6000, 45)];
    assert NeedsTo(cpu.kids, ThreadNeed(), 2) == [Need(0x6000, 45), Need(0x6800, 46)] == NeedsTo(cpu.kids, ThreadNeed(), 3);
    assert NeedsTo(s.cpu, CpuNeed(), 0) == [] && NeedsTo(s.cpu, CpuNeed(), 1) == [Need(0x6000, 45), Need(0x6800, 46)];
    assert NeedsTo(rm.kids, MapNeed(), 0) == [] && NeedsTo(rm.kids, MapNeed(), 1) == [Need(0x8000, 48)];
    assert NeedsTo(s.rm, RmNeed(), 0) == [] && NeedsTo(s.rm, RmNeed(), 1) == [Need(0x7000, 47), Need(0x8000, 48)];
  }

  lemma {:induction false} ItsCapabilities()
    ensures Slotted(Bound([], []), ItsBindings(), StateNeeds(StoredPredecessor()))
  {
    ItsNeeds();
    PairsHas(44, 14);
    PairsHas(45, 15);
    PairsHas(46, 16);
    PairsHas(47, 17);
    PairsHas(48, 18);
    var caps, needs := ItsBindings().caps, StateNeeds(StoredPredecessor());
    assert needs[..4][..3] == needs[..3] && needs[..3][..2] == needs[..2] && needs[..2][..1] == needs[..1] && needs[..1][..0] == [];
    assert caps[1..][1..] == caps[2..] && caps[2..][1..] == caps[3..] && caps[3..][1..] == caps[4..] && caps[4..][1..] == [];
    assert SlotsMade(Pairs(), [], caps[4..], needs[..1]);
    assert SlotsMade(Pairs(), [], caps[3..], needs[..2]);
    assert SlotsMade(Pairs(), [], caps[2..], needs[..3]);
    assert SlotsMade(Pairs(), [], caps[1..], needs[..4]);
  }

  lemma RestoreComesTo(v: Variant, o: Restoration, s: StoredChild)
    requires o == Restore(v) && s == StoredPredecessor()
    ensures ComesTo(o, s)
  {
    PredecessorRestorable(v);
    PairsFaithful();
    AllBound();
    TheseAreMaps();
    MapsRestorable();
    MapsAsTheyWere();
    ItsMemory();
    ItsCapabilities();
    ComesToIf(o, s);
  }

  lemma OneAttachment(tr: seq<CkptResto>, all: seq<CkptResto>, q: StoredRegion, r: Region)
    requires q.bootstrapped && r.size > 0 && Renames(all, q, r)
    ensures OwnAttachments(all, [q], [r]) && NotMisled(tr, all, [r], [q])
  {
    assert q in [q] && r in [r];
    assert Reattached(tr, [q], 0) + [r] == [r];
  }

  lemma NoAttachment(tr: seq<CkptResto>, all: seq<CkptResto>)
    ensures OwnAttachments(all, [], []) && NotMisled(tr, all, [], [])
  {
  }

  lemma {:induction false} FreshAsBefore(all: seq<CkptResto>, c: Child, s: StoredChild)
    requires |c.pd| == |s.pd| == 1 && ThreeMaps(s.pd[0], c.pd[0]) && OwnAttachments(all, [], [])
    requires OwnAttachments(all, s.pd[0].session.kids[0].kids, c.pd[0].session.kids[0].kids)
    requires forall k :: 1 <= k < 3 ==> s.pd[0].session.kids[k].kids == [] && c.pd[0].session.kids[k].kids == []
    requires forall i, k :: 0 <= i < |s.rm| && 0 <= k < |s.rm[i].kids| ==> s.rm[i].kids[k].kids == []
    ensures FreshAttachments(all, c, s)
  {
  }

  lemma {:induction false} NoneMisled(tr: seq<CkptResto>, all: seq<CkptResto>, c: Child, s: StoredChild)
    requires |c.pd| == |s.pd| == 1 && ThreeMaps(s.pd[0], c.pd[0]) && NotMisled(tr, all, [], [])
    requires NotMisled(tr, all, c.pd[0].session.kids[0].kids, s.pd[0].session.kids[0].kids)
    requires forall k :: 1 <= k < 3 ==> s.pd[0].session.kids[k].kids == [] && c.pd[0].session.kids[k].kids == []
    requires forall i, k :: 0 <= i < |s.rm| && 0 <= k < |s.rm[i].kids| ==> s.rm[i].kids[k].kids == []
    ensures NothingMisled(tr, all, c, s)
  {
  }

  lemma OneAsBefore(tr: seq<CkptResto>, all: seq<CkptResto>, stored: seq<StoredRegion>, live: seq<Region>)
    requires |stored| == |live| == 1 && stored[0].bootstrapped && live[0].size > 0 && Renames(all, stored[0], live[0])
    ensures OwnAttachments(all, stored, live) && NotMisled(tr, all, live, stored)
  {
    OneAttachment(tr, all, stored[0], live[0]);
    assert stored == [stored[0]] && live == [live[0]];
  }

  lemma {:induction false} ItsAttachments(tr: seq<CkptResto>, all: seq<CkptResto>, c: Child, s: StoredChild)
    requires c == FreshChild() && s == StoredPredecessor() && Translate(all, 43) == Some(13)
    ensures FreshAttachments(all, c, s) && NothingMisled(tr, all, c, s)
  {
    OneAsBefore(tr, all, s.pd[0].session.kids[0].kids, c.pd[0].session.kids[0].kids);
    NoAttachment(tr, all);
    FreshAsBefore(all, c, s);
    NoneMisled(tr, all, c, s);
  }

  lemma RestoreReachesIt(v: Variant, o: Restoration, s: StoredChild)
    requires o == Restore(v) && s == StoredPredecessor()
    ensures RestoredInto(o, AllPairs(), s)
  {
    RestoreComesTo(v, o, s);
    PairsFaithful();
    ItsAttachments(o.b.tr, AllPairs(), o.start, s);
  }

  // ---- The memory ----

  // What the checkpoint's last state is known to have: both dataspaces, with the copies 90 and 91.
  ghost predicate AsStored(st: Inc.State) {
    && Inc.Inv(st) && st.phase == Inc.Finished && Inc.SameShape([Rom(), RamPage()], st.ds)
    && RecordsOf(StoredPredecessor(), st.ds, st.table)
  }

  lemma ItsRecords(q: StoredRegion)
    ensures UnknownStored(StoredPredecessor(), q) <==> q == StoredMaps()[0].kids[0]
    ensures AllRegions(StoredPredecessor()) == [StoredMaps()[0].kids[0]]
  {
    var s, r := StoredPredecessor(), StoredMaps()[0].kids[0];
    var parts, last := MapRegions(s.pd[0].session.kids), MapRegions(s.rm[0].kids);
    assert parts[0] == [r] && parts[1] == [] && parts[2] == [];
    assert Joined(parts, 1) == Joined(parts, 0) + parts[0];
    assert Joined(parts, 2) == Joined(parts, 1) + parts[1];
    assert Joined(parts, 3) == Joined(parts, 2) + parts[2];
    assert last[0] == [] && Joined(last, 1) == Joined(last, 0) + last[0];
    assert Joined(RmRegions(s.rm), 1) == Joined(RmRegions(s.rm), 0) + RmRegions(s.rm)[0];
    AllRegionsHas(s, q);
    TheseAreMaps();
    assert forall d :: RamStored(s, d) ==> d == s.ram[0].kids[0];
    assert s.ram[0] in s.ram && s.ram[0].kids[0] in s.ram[0].kids;
  }

  lemma PageCopy(st: Inc.State, s: StoredChild)
    requires AsStored(st) && s == StoredPredecessor()
    ensures CopyOf(st.table, 32) == 90
  {
    assert s.ram[0] in s.ram && s.ram[0].kids[0] in s.ram[0].kids;
    assert RamStored(s, s.ram[0].kids[0]);
  }

  lemma RomCopy(st: Inc.State, s: StoredChild)
    requires AsStored(st) && s == StoredPredecessor()
    ensures CopyOf(st.table, 43) == 91
  {
    ItsRecords(StoredMaps()[0].kids[0]);
    assert RegionStored(s, StoredMaps()[0].kids[0]);
  }

  lemma ItsCopies(st: Inc.State, e: CopyEntry)
    requires AsStored(st) && e in st.table
    ensures e.copy == 90 || e.copy == 91
  {
    PageCopy(st, StoredPredecessor());
    RomCopy(st, StoredPredecessor());
    var i :| 0 <= i < |st.ds| && st.ds[i].badge == e.orig;
    assert st.ds[i].badge == [Rom(), RamPage()][i].badge;
    LookupIs(st.table, e);
  }

  lemma ItsSizes(st: Inc.State)
    requires AsStored(st)
    ensures SizeOf(st.table, 43) == 4096 && WithinCopies(StoredPredecessor(), st.table)
  {
    var s, r := StoredPredecessor(), StoredMaps()[0].kids[0];
    assert st.ds[0].badge == 43 && Lookup(st.table, st.ds[0].badge).Some?;
    LookupFinds(st.table, 43);
    assert Lookup(st.table, 43).value.size == st.ds[0].size;
    ItsRecords(r);
    assert AllRegions(s)[0] == r && FirstSize(s, 43) == 4096;
    forall q | UnknownStored(s, q) && q.size > 0 ensures WithinCopy(s, st.table, q) {
      ItsRecords(q);
    }
  }

  // The dataspace that stands for the one of the RAM session.
  ghost function NewPage(): Ds {
    Ds(2, 4096, Some([Tile(200, 0, 4096, true)]))
  }

  lemma NewPageShape()
    ensures Inc.Shaped([NewPage()]) && AllAttached([NewPage()])
  {
    assert Align(4096) == 4096 && NewPage().tiles.value[1..] == [];
  }

  lemma PagesMatch()
    ensures RamDataspaces([NewPage()], RestoredChild().ram[0].kids) && SameBootstrap(StoredPredecessor().ram[0].kids, FreshChild().ram[0].kids)
  {
    var l := RestoredChild().ram[0].kids[0];
    assert l in RestoredChild().ram[0].kids && [NewPage()][0].badge == 2;
  }

  lemma NothingIsShared(st: Inc.State)
    requires AsStored(st)
    ensures NothingShared(AllPairs(), StoredPredecessor(), [NewPage()], st.table)
  {
    var all, ds := AllPairs(), [NewPage()];
    PairsFaithful();
    forall p | p in all ensures 1 <= p.restoBadge <= 19 {
      PairsHas(p.ckptBadge, p.restoBadge);
    }
    forall e | e in st.table ensures e.copy == 90 || e.copy == 91 {
      ItsCopies(st, e);
    }
    assert forall i, k :: Inc.Ix(ds, i, k) ==> Inc.At(ds, i, k).cap == 200;
    forall q, i | UnknownStored(StoredPredecessor(), q) && 0 <= i < |ds| ensures Translate(all, q.dsBadge) != Some(ds[i].badge) {
      ItsRecords(q);
    }
  }

  // The memory of the fresh child, still empty, beside that of its predecessor.
  ghost function FreshMemory(mem: map<nat, seq<byte>>): map<nat, seq<byte>> {
    mem[13 := Fill(4096, 0)][200 := Fill(4096, 0)]
  }

  lemma ItsContents(st: Inc.State, infos: seq<CapKcap>)
    requires AsStored(st)
    ensures FreshContents(AllPairs(), StoredPredecessor(), [NewPage()], st.table, st.mem, FreshMemory(st.mem), None, infos)
  {
    var all, mem := AllPairs(), FreshMemory(st.mem);
    PairsFaithful();
    forall q | UnknownStored(StoredPredecessor(), q) && Translate(all, q.dsBadge).Some?
      ensures Translate(all, q.dsBadge).value in mem && q.offset + q.size <= |mem[Translate(all, q.dsBadge).value]|
    {
      ItsRecords(q);
    }
    forall e | e in st.table && e.copy in st.mem ensures e.copy in mem && mem[e.copy] == st.mem[e.copy] {
      ItsCopies(st, e);
    }
  }

  // ---- All of it ----

  lemma LastStateKnown(v: Variant, run: seq<Inc.State>)
    requires Inc.IsRun(v, run) && 6 < |run| && Stores(run, 6, |run| - 1, StoredPredecessor())
    requires Inc.SameShape([Rom(), RamPage()], run[|run| - 1].ds)
    ensures AsStored(run[|run| - 1])
  {
    Inc.RunKeeps(v, run, |run| - 1);
    StoredRecordsLast(v, run, 6, |run| - 1, StoredPredecessor());
  }

  lemma FreshDsHere(v: Variant, o: Restoration, s: StoredChild, st: Inc.State)
    requires o == Restore(v) && s == StoredPredecessor() && AsStored(st)
    ensures FreshDs(o, AllPairs(), s, [NewPage()], st.table)
  {
    NewPageShape();
    PagesMatch();
    NothingIsShared(st);
  }

  // There is a run and a restore of which everything is true that RoundTrip asks for, with a dataspace of unknown
  // origin as well as one of the RAM session.
  lemma RoundTripHappens(v: Variant) returns (run: seq<Inc.State>, mem: map<nat, seq<byte>>)
    ensures 6 < |run| && RestoredFrom(v, run, 6, |run| - 1, Restore(v), AllPairs(), StoredPredecessor(), [NewPage()])
    ensures WithinCopies(StoredPredecessor(), run[|run| - 1].table)
    ensures FreshContents(AllPairs(), StoredPredecessor(), [NewPage()], run[|run| - 1].table, run[|run| - 1].mem, mem, None, Restore(v).b.caps)
  {
    run := PredecessorRun(v);
    var st, s, o := run[|run| - 1], StoredPredecessor(), Restore(v);
    LastStateKnown(v, run);
    RestoreReachesIt(v, o, s);
    FreshDsHere(v, o, s, st);
    ItsSizes(st);
    ItsContents(st, o.b.caps);
    mem := FreshMemory(st.mem);
    OpenRestoredFrom(v, run, 6, |run| - 1, o, AllPairs(), s, [NewPage()]);
  }
}
