// Checkpoint and restore undo each other: the memory of a restored child is that of the checkpointed one.
module RoundTrip {
  import opened Variants
  import opened Folding
  import opened InfoList
  import opened Memory
  import opened CapMap
  import opened RamIdentify
  import opened Tiles
  import opened CopyTable
  import opened StoredState
  import opened Translation
  import opened RestoreState
  import opened MemoryPlan
  import opened RestoreRegions
  import opened RestoredState
  import opened RestoreMemory
  import opened SavedRecords
  import opened RestoreList
  import Inc = Incremental
  import CapMapSplice

  // ---- What a checkpoint has saved ----

  // The byte a child finds at addr of a listed dataspace b.
  ghost function ByteOf(ds: seq<Ds>, mem: map<nat, seq<byte>>, b: nat, addr: nat): Option<byte> {
    var i := FirstIndex(ds, (d: Ds) => d.badge == b);
    if i < |ds| then Inc.ByteAt(ds[i], mem, addr) else None
  }

  lemma ByteOfListed(ds: seq<Ds>, mem: map<nat, seq<byte>>, i: nat, addr: nat)
    requires i < |ds| && forall j, k :: 0 <= j < k < |ds| ==> ds[j].badge != ds[k].badge
    ensures ByteOf(ds, mem, ds[i].badge, addr) == Inc.ByteAt(ds[i], mem, addr)
  {
    assert FirstIndex(ds, (d: Ds) => d.badge == ds[i].badge) == i;
  }

  // What the copies hold is what the child found.
  ghost predicate Saves(st: Inc.State) {
    && Inc.Complete(st.ds, st.table) && Inc.TableFits(st.ds, st.table, st.mem) && Inc.Shaped(st.ds)
    && forall i, addr :: 0 <= i < |st.ds| && 0 <= addr < Inc.Extent(st.ds[i]) ==> ByteSaved(st, i, addr)
  }

  ghost predicate ByteSaved(st: Inc.State, i: int, addr: int)
    requires 0 <= i < |st.ds| && 0 <= addr
  {
    && CopyOf(st.table, st.ds[i].badge) in st.mem && addr < |st.mem[CopyOf(st.table, st.ds[i].badge)]|
    && Inc.ByteAt(st.ds[i], st.mem, addr) == Some(st.mem[CopyOf(st.table, st.ds[i].badge)][addr])
  }

  lemma RunSaves(v: Variant, run: seq<Inc.State>, n: nat)
    requires Inc.IsRun(v, run) && n < |run| && run[n].phase == Inc.Finished
    ensures Saves(run[n])
  {
    Inc.RunKeeps(v, run, n);
    forall i, addr | 0 <= i < |run[n].ds| && 0 <= addr < Inc.Extent(run[n].ds[i]) ensures ByteSaved(run[n], i, addr) {
      Inc.CheckpointIsFull(v, run, n, i, addr);
    }
  }

  lemma TableEntry(ds: seq<Ds>, table: seq<CopyEntry>, b: nat) returns (e: CopyEntry)
    requires Inc.Complete(ds, table) && Listed(ds, b)
    ensures e in table && e.orig == b && e.copy == CopyOf(table, b)
  {
    var x :| 0 <= x < |ds| && ds[x].badge == b;
    assert Lookup(table, ds[x].badge).Some?;
    LookupFinds(table, b);
    e := Lookup(table, b).value;
  }

  lemma CopiesApart(st: Inc.State)
    requires Inc.Complete(st.ds, st.table) && Inc.TableFits(st.ds, st.table, st.mem)
    ensures CopiesDiffer(st.ds, st.table)
  {
    forall b, b' | Listed(st.ds, b) && Listed(st.ds, b') && CopyOf(st.table, b) == CopyOf(st.table, b') ensures b == b' {
      var e := TableEntry(st.ds, st.table, b);
      var e' := TableEntry(st.ds, st.table, b');
    }
  }

  // ---- Which regions fit ----

  // Whatever a region of a dataspace of unknown origin shows is within what was saved of the dataspace, which is
  // what its copy was made for, and within what is restored of it, which is what its first record shows.
  ghost predicate WithinCopies(s: StoredChild, table: seq<CopyEntry>)
    requires s.pd != []
  {
    forall q :: UnknownStored(s, q) && q.size > 0 ==> WithinCopy(s, table, q)
  }

  ghost predicate WithinCopy(s: StoredChild, table: seq<CopyEntry>, q: StoredRegion)
    requires s.pd != []
  {
    q.offset + q.size <= FirstSize(s, q.dsBadge) && q.offset + q.size <= SizeOf(table, q.dsBadge)
  }

  // ---- The fresh child ----

  // ds are the dataspaces of the child's RAM session.
  ghost predicate RamDataspaces(ds: seq<Ds>, kids: seq<RamDs>) {
    && (forall i :: 0 <= i < |ds| ==> exists l :: l in kids && l.badge == ds[i].badge && l.size == ds[i].size)
    && (forall l :: l in kids ==> ListedAs(ds, l.badge, l.size))
  }

  // A dataspace that bootstrapping makes is as large in the fresh child as it was in its predecessor.
  ghost predicate SameBootstrap(stored: seq<StoredRamDs>, live: seq<RamDs>) {
    forall d, l :: d in stored && d.bootstrapped && l in live && Rank(Entries(stored), d.timestamp) == Rank(LiveEntries(live), l.timestamp) ==>
      l.size == d.size
  }

  // The child shares no memory with the copies, its dataspaces share none, and what was of unknown origin still is.
  ghost predicate NothingShared(all: seq<CkptResto>, s: StoredChild, ds: seq<Ds>, table: seq<CopyEntry>) {
    && (forall e, p :: e in table && p in all ==> e.copy != p.restoBadge)
    && (forall e, i, k :: e in table && Inc.Ix(ds, i, k) ==> e.copy != Inc.At(ds, i, k).cap)
    && (forall p, i, k :: p in all && Inc.Ix(ds, i, k) && ds[i].tiles.Some? ==> p.restoBadge != Inc.At(ds, i, k).cap)
    && (forall q, i :: UnknownStored(s, q) && 0 <= i < |ds| ==> Translate(all, q.dsBadge) != Some(ds[i].badge))
  }

  ghost predicate FreshDs(o: Restoration, all: seq<CkptResto>, s: StoredChild, ds: seq<Ds>, table: seq<CopyEntry>) {
    && o.start.ram != [] && o.restored.ram != [] && s.ram != []
    && Inc.Shaped(ds) && AllAttached(ds)
    && RamDataspaces(ds, o.restored.ram[0].kids) && SameBootstrap(s.ram[0].kids, o.start.ram[0].kids)
    && NothingShared(all, s, ds, table)
  }

  // The capability map of the child, rewritten in the copy of the dataspace that holds it.
  datatype CapPatch = CapPatch(copy: nat, off: nat, child: seq<byte>, childOff: nat, base: nat)

  ghost predicate PatchOk(p: CapPatch, infos: seq<CapKcap>, mem: map<nat, seq<byte>>) {
    && p.copy in mem && Fits(mem[p.copy], p.off) && Fits(p.child, p.childOff) && p.base + ARRAY_SIZE <= 0x1_0000_0000
    && CapMapSplice.Patched(mem[p.copy], p.off, p.child, p.childOff, p.base, infos).1
  }

  ghost function PatchedCopy(p: CapPatch, infos: seq<CapKcap>, mem: map<nat, seq<byte>>): (r: seq<byte>)
    requires PatchOk(p, infos, mem)
    ensures CapMapSplice.SameOutside(mem[p.copy], r, p.off)
  {
    CapMapSplice.Patched(mem[p.copy], p.off, p.child, p.childOff, p.base, infos).0
  }

  ghost predicate InPatch(p: Option<CapPatch>, copy: nat, addr: nat) {
    p.Some? && p.value.copy == copy && p.value.off <= addr < p.value.off + ARRAY_SIZE
  }

  // What the restorer finds when it copies: the copies as the checkpoint left them in mem0, but for the patch,
  // and memory behind everything the child has attached.
  ghost predicate FreshContents(all: seq<CkptResto>, s: StoredChild, ds: seq<Ds>, table: seq<CopyEntry>, mem0: map<nat, seq<byte>>,
                                mem: map<nat, seq<byte>>, p: Option<CapPatch>, infos: seq<CapKcap>)
  {
    && Inc.Backed(ds, mem)
    && (forall q :: UnknownStored(s, q) && Translate(all, q.dsBadge).Some? ==>
          Translate(all, q.dsBadge).value in mem && q.offset + q.size <= |mem[Translate(all, q.dsBadge).value]|)
    && (p.Some? ==> PatchOk(p.value, infos, mem0))
    && (forall e :: e in table && e.copy in mem0 ==>
          e.copy in mem && mem[e.copy] == if p.Some? && p.value.copy == e.copy then PatchedCopy(p.value, infos, mem0) else mem0[e.copy])
  }

  lemma CopyAsLeft(all: seq<CkptResto>, s: StoredChild, ds: seq<Ds>, table: seq<CopyEntry>, mem0: map<nat, seq<byte>>,
                   mem: map<nat, seq<byte>>, p: Option<CapPatch>, infos: seq<CapKcap>, e: CopyEntry)
    requires FreshContents(all, s, ds, table, mem0, mem, p, infos) && e in table && e.copy in mem0
    ensures e.copy in mem && |mem[e.copy]| == |mem0[e.copy]|
    ensures forall addr :: 0 <= addr < |mem[e.copy]| && !InPatch(p, e.copy, addr) ==> mem[e.copy][addr] == mem0[e.copy][addr]
  {
  }

  // ---- The entries in the fresh child ----

  // Every recorded RAM dataspace has a dataspace of its size that stands for it.
  ghost predicate StandsIn(all: seq<CkptResto>, s: StoredChild, ds: seq<Ds>) {
    forall d :: RamStored(s, d) ==> Translate(all, d.badge).Some? && ListedAs(ds, Translate(all, d.badge).value, d.size)
  }

  lemma StandInListed(o: Restoration, all: seq<CkptResto>, s: StoredChild, ds: seq<Ds>, table: seq<CopyEntry>)
    requires ComesTo(o, s) && Extended(o.b.tr, all) && FreshDs(o, all, s, ds, table)
    ensures StandsIn(all, s, ds)
  {
    RamStandsIn(o, s);
    AllStandIn(o.b, all, s.ram[0].kids, o.start.ram[0].kids, o.restored.ram[0].kids, ds);
    assert forall d :: RamStored(s, d) <==> d in s.ram[0].kids;
  }

  lemma {:induction false} AllStandIn(b: Bound, all: seq<CkptResto>, stored: seq<StoredRamDs>, live: seq<RamDs>, made: seq<RamDs>, ds: seq<Ds>)
    requires Extended(b.tr, all) && AllFound(b, RamDsOf(stored, live), stored, made, |stored|)
    requires SameBootstrap(stored, live) && RamDataspaces(ds, made)
    ensures forall d :: d in stored ==> Translate(all, d.badge).Some? && ListedAs(ds, Translate(all, d.badge).value, d.size)
  {
    forall d | d in stored ensures Translate(all, d.badge).Some? && ListedAs(ds, Translate(all, d.badge).value, d.size) {
      StandInOf(b, all, stored, live, made, ds, d);
    }
  }

  lemma {:induction false} StandInOf(b: Bound, all: seq<CkptResto>, stored: seq<StoredRamDs>, live: seq<RamDs>, made: seq<RamDs>, ds: seq<Ds>, d: StoredRamDs)
    requires Extended(b.tr, all) && AllFound(b, RamDsOf(stored, live), stored, made, |stored|) && d in stored
    requires SameBootstrap(stored, live) && RamDataspaces(ds, made)
    ensures Translate(all, d.badge).Some? && ListedAs(ds, Translate(all, d.badge).value, d.size)
  {
    OpenAllFound(b, RamDsOf(stored, live), stored, made, |stored|);
    var i :| 0 <= i < |stored| && stored[i] == d;
    assert Found(b, RamDsOf(stored, live), made, stored[i]);
    var l :| l in made && RamDsStands(b, stored, live, d, l);
    assert CkptResto(d.badge, l.badge) in all && l.size == d.size;
    TranslateIs(all, d.badge, l.badge);
  }

  // Where the entries lead from and to.
  ghost predicate EntryEnds(all: seq<CkptResto>, table: seq<CopyEntry>, j: Job) {
    && j.relAddr == 0 && (exists e :: e in table && e.copy == j.copy) && (exists p :: p in all && p.restoBadge == j.orig)
  }

  lemma EndsOfEntry(all: seq<CkptResto>, s: StoredChild, st: Inc.State, j: Job)
    requires s.pd != [] && Saves(st) && RecordsOf(s, st.ds, st.table) && (IsRamEntry(all, s, j) || IsRegionEntry(all, s, j))
    ensures EntryEnds(all, st.table, j)
  {
    var b := EntryIsOf(all, st.ds, st.table, s, j);
    TranslateIff(all, b);
    var e := TableEntry(st.ds, st.table, b);
  }

  lemma WellEnteredIf(all: seq<CkptResto>, s: StoredChild, st: Inc.State, jobs: seq<Job>, ds: seq<Ds>)
    requires Saves(st) && RecordsOf(s, st.ds, st.table) && Entered(all, s, jobs) && Inc.Shaped(ds) && NothingShared(all, s, ds, st.table)
    ensures WellEntered(ds, jobs)
  {
    OpenEntered(all, s, jobs);
    forall j | j in jobs ensures EntryEnds(all, st.table, j) {
      EndsOfEntry(all, s, st, j);
    }
    forall j, i, k | j in jobs && 0 <= i < |ds| && ds[i].tiles.Some? && 0 <= k < |ds[i].tiles.value| ensures j.orig != ds[i].tiles.value[k].cap {
      assert Inc.Ix(ds, i, k) && Inc.At(ds, i, k) == ds[i].tiles.value[k];
    }
  }

  // The copy of a RAM dataspace is as large as its record says.
  lemma RamCopySize(s: StoredChild, st: Inc.State, d: StoredRamDs) returns (e: CopyEntry)
    requires Saves(st) && RecordsOf(s, st.ds, st.table) && RamStored(s, d)
    ensures e in st.table && e.orig == d.badge && e.copy == d.copy && e.copy in st.mem && Align(d.size) <= |st.mem[e.copy]|
  {
    var x :| 0 <= x < |st.ds| && st.ds[x].badge == d.badge && st.ds[x].size == d.size;
    e := TableEntry(st.ds, st.table, d.badge);
  }

  // The copy of any other one is as large as it was made for.
  lemma RegionCopySize(s: StoredChild, st: Inc.State, q: StoredRegion) returns (e: CopyEntry)
    requires Saves(st) && RecordsOf(s, st.ds, st.table) && RegionStored(s, q)
    ensures e in st.table && e.orig == q.dsBadge && e.copy == CopyBadge(q) && e.copy in st.mem
    ensures e.size == SizeOf(st.table, q.dsBadge) <= |st.mem[e.copy]|
  {
    e := TableEntry(st.ds, st.table, q.dsBadge);
    LookupIs(st.table, e);
  }

  // Whether one entry can be copied.
  ghost predicate EntryRoom(ds: seq<Ds>, mem: map<nat, seq<byte>>, j: Job) {
    && (forall i :: ForManaged(ds, i, j) ==> j.copy in mem && Align(ds[i].size) <= |mem[j.copy]|)
    && ((forall i :: !ForManaged(ds, i, j)) ==> Inc.CanCopy(mem, j))
  }

  lemma RamEntryRoom(all: seq<CkptResto>, s: StoredChild, st: Inc.State, ds: seq<Ds>, mem: map<nat, seq<byte>>, p: Option<CapPatch>,
                     infos: seq<CapKcap>, d: StoredRamDs, j: Job)
    requires Saves(st) && RecordsOf(s, st.ds, st.table) && Inc.Shaped(ds) && StandsIn(all, s, ds)
    requires FreshContents(all, s, ds, st.table, st.mem, mem, p, infos) && RamStored(s, d) && RamEntry(all, d, j)
    ensures EntryRoom(ds, mem, j)
  {
    var e := RamCopySize(s, st, d);
    CopyAsLeft(all, s, ds, st.table, st.mem, mem, p, infos, e);
    var x :| 0 <= x < |ds| && ds[x].badge == j.orig && ds[x].size == d.size;
    forall i | 0 <= i < |ds| && ds[i].badge == j.orig ensures i == x {
    }
    if ds[x].tiles.None? {
      assert Inc.Ix(ds, x, 0) && Inc.At(ds, x, 0) == Tile(j.orig, 0, d.size, true);
    } else {
      assert ForManaged(ds, x, j);
    }
  }

  lemma RegionEntryRoom(all: seq<CkptResto>, s: StoredChild, st: Inc.State, ds: seq<Ds>, mem: map<nat, seq<byte>>, p: Option<CapPatch>,
                        infos: seq<CapKcap>, q: StoredRegion, j: Job)
    requires |s.pd| == 1 && Saves(st) && RecordsOf(s, st.ds, st.table) && NothingShared(all, s, ds, st.table) && WithinCopies(s, st.table)
    requires FreshContents(all, s, ds, st.table, st.mem, mem, p, infos) && UnknownStored(s, q) && RegionEntry(all, s, q, j)
    ensures EntryRoom(ds, mem, j) && forall i :: !ForManaged(ds, i, j)
  {
    var e := RegionCopySize(s, st, q);
    CopyAsLeft(all, s, ds, st.table, st.mem, mem, p, infos, e);
    var first := FirstRecord(s, q);
    assert UnknownStored(s, first) && first.offset + first.size <= |mem[j.orig]|;
  }

  // The first record of a dataspace.
  lemma FirstRecord(s: StoredChild, q: StoredRegion) returns (first: StoredRegion)
    requires |s.pd| == 1 && RegionStored(s, q)
    ensures RegionStored(s, first) && first.dsBadge == q.dsBadge && first.size == FirstSize(s, q.dsBadge)
  {
    AllRegionsHas(s, q);
    var i := FirstIndex(AllRegions(s), (r: StoredRegion) => r.dsBadge == q.dsBadge);
    assert i < |AllRegions(s)|;
    first := AllRegions(s)[i];
    AllRegionsHas(s, first);
  }

  // What is known when the restorer copies.  Folded like Extends.
  ghost predicate Copying(all: seq<CkptResto>, s: StoredChild, st: Inc.State, jobs: seq<Job>, ds: seq<Ds>, mem: map<nat, seq<byte>>,
                          p: Option<CapPatch>, infos: seq<CapKcap>)
  {
    |s.pd| == 1 && forall key: nat {:trigger Unfold(key)} :: Unfold(key) ==>
      && Saves(st) && RecordsOf(s, st.ds, st.table) && Entered(all, s, jobs) && Inc.Shaped(ds) && AllAttached(ds) && StandsIn(all, s, ds)
      && NothingShared(all, s, ds, st.table) && FreshContents(all, s, ds, st.table, st.mem, mem, p, infos)
  }

  lemma EnteredHasRoom(all: seq<CkptResto>, s: StoredChild, st: Inc.State, jobs: seq<Job>, ds: seq<Ds>, mem: map<nat, seq<byte>>,
                       p: Option<CapPatch>, infos: seq<CapKcap>, j: Job)
    requires Copying(all, s, st, jobs, ds, mem, p, infos) && WithinCopies(s, st.table) && j in jobs
    ensures EntryRoom(ds, mem, j)
  {
    assert Unfold(0);
    OpenEntered(all, s, jobs);
    if IsRamEntry(all, s, j) {
      var d :| RamStored(s, d) && RamEntry(all, d, j);
      RamEntryRoom(all, s, st, ds, mem, p, infos, d, j);
    } else {
      var q :| UnknownStored(s, q) && RegionEntry(all, s, q, j);
      RegionEntryRoom(all, s, st, ds, mem, p, infos, q, j);
    }
  }

  // If all regions fit, every entry can be copied.
  lemma RoomForAll(all: seq<CkptResto>, s: StoredChild, st: Inc.State, jobs: seq<Job>, ds: seq<Ds>, mem: map<nat, seq<byte>>,
                   p: Option<CapPatch>, infos: seq<CapKcap>)
    requires Copying(all, s, st, jobs, ds, mem, p, infos) && WithinCopies(s, st.table)
    ensures HasRoom(ds, jobs, mem)
  {
    assert Unfold(0);
    forall j | j in jobs ensures EntryRoom(ds, mem, j) {
      EnteredHasRoom(all, s, st, jobs, ds, mem, p, infos, j);
    }
  }

  lemma CopyingWell(all: seq<CkptResto>, s: StoredChild, st: Inc.State, jobs: seq<Job>, ds: seq<Ds>, mem: map<nat, seq<byte>>,
                    p: Option<CapPatch>, infos: seq<CapKcap>)
    requires Copying(all, s, st, jobs, ds, mem, p, infos)
    ensures WellEntered(ds, jobs) && AllAttached(ds)
  {
    assert Unfold(0);
    WellEnteredIf(all, s, st, jobs, ds);
  }

  // ---- What is reproduced ----

  // At addr of the dataspace that stands for the RAM dataspace b, the child finds what its predecessor found in b.
  ghost predicate SameByte(all: seq<CkptResto>, st: Inc.State, ds: seq<Ds>, mem: map<nat, seq<byte>>, b: nat, addr: nat) {
    && Translate(all, b).Some? && ByteOf(st.ds, st.mem, b, addr).Some?
    && ByteOf(ds, mem, Translate(all, b).value, addr) == ByteOf(st.ds, st.mem, b, addr)
  }

  // The same for a dataspace of unknown origin, which is attached as it is.
  ghost predicate SameShown(all: seq<CkptResto>, st: Inc.State, mem: map<nat, seq<byte>>, b: nat, addr: nat) {
    && Translate(all, b).Some? && b in st.mem && addr < |st.mem[b]|
    && Translate(all, b).value in mem && addr < |mem[Translate(all, b).value]| && mem[Translate(all, b).value][addr] == st.mem[b][addr]
  }

  ghost predicate RamReproduced(all: seq<CkptResto>, st: Inc.State, s: StoredChild, ds: seq<Ds>, mem: map<nat, seq<byte>>, p: Option<CapPatch>) {
    forall d, addr: nat :: RamStored(s, d) && addr < d.size && !InPatch(p, d.copy, addr) ==> SameByte(all, st, ds, mem, d.badge, addr)
  }

  ghost predicate RegionsReproduced(all: seq<CkptResto>, st: Inc.State, s: StoredChild, mem: map<nat, seq<byte>>, p: Option<CapPatch>) {
    forall q, addr: nat :: UnknownStored(s, q) && q.offset <= addr < q.offset + q.size && !InPatch(p, CopyBadge(q), addr) ==>
      SameShown(all, st, mem, q.dsBadge, addr)
  }

  ghost predicate Reproduced(all: seq<CkptResto>, st: Inc.State, s: StoredChild, ds: seq<Ds>, mem: map<nat, seq<byte>>, p: Option<CapPatch>) {
    RamReproduced(all, st, s, ds, mem, p) && RegionsReproduced(all, st, s, mem, p)
  }

  lemma {:induction false} RamByte(all: seq<CkptResto>, s: StoredChild, st: Inc.State, jobs: seq<Job>, ds: seq<Ds>, mem: map<nat, seq<byte>>,
                p: Option<CapPatch>, infos: seq<CapKcap>, d: StoredRamDs, addr: nat)
    requires Copying(all, s, st, jobs, ds, mem, p, infos) && WellEntered(ds, jobs) && AllAttached(ds) && HasRoom(ds, jobs, mem)
    requires RamStored(s, d) && addr < d.size && !InPatch(p, d.copy, addr)
    ensures SameByte(all, st, ds, RestoreAll(Resolve(Intended, ds, |ds|, jobs), mem), d.badge, addr)
  {
    assert Unfold(0);
    OpenEntered(all, s, jobs);
    var j := Job(Translate(all, d.badge).value, d.copy, 0, d.size);
    assert RamEntry(all, d, j) && IsRamEntry(all, s, j) && j in jobs;
    var e := RamCopySize(s, st, d);
    CopyAsLeft(all, s, ds, st.table, st.mem, mem, p, infos, e);
    var i :| 0 <= i < |ds| && ds[i].badge == j.orig && ds[i].size == d.size;
    RestoreReproduces(ds, jobs, mem, i, j, addr);
    ByteOfListed(ds, RestoreAll(Resolve(Intended, ds, |ds|, jobs), mem), i, addr);
    RamByteSaved(s, st, d, addr);
  }

  lemma RamByteSaved(s: StoredChild, st: Inc.State, d: StoredRamDs, addr: nat)
    requires Saves(st) && RecordsOf(s, st.ds, st.table) && RamStored(s, d) && addr < d.size
    ensures d.copy in st.mem && addr < |st.mem[d.copy]| && ByteOf(st.ds, st.mem, d.badge, addr) == Some(st.mem[d.copy][addr])
  {
    var x :| 0 <= x < |st.ds| && st.ds[x].badge == d.badge && st.ds[x].size == d.size;
    assert addr < Inc.Extent(st.ds[x]);
    assert ByteSaved(st, x, addr);
    ByteOfListed(st.ds, st.mem, x, addr);
  }

  // What was saved of a dataspace of unknown origin.
  lemma ShownByteSaved(s: StoredChild, st: Inc.State, q: StoredRegion, addr: nat)
    requires Saves(st) && RecordsOf(s, st.ds, st.table) && UnknownStored(s, q) && addr < SizeOf(st.table, q.dsBadge)
    ensures q.dsBadge in st.mem && addr < |st.mem[q.dsBadge]| && CopyBadge(q) in st.mem && addr < |st.mem[CopyBadge(q)]|
    ensures st.mem[CopyBadge(q)][addr] == st.mem[q.dsBadge][addr]
  {
    var x :| 0 <= x < |st.ds| && st.ds[x].badge == q.dsBadge && st.ds[x].tiles.None?;
    var e := RegionCopySize(s, st, q);
    assert ByteSaved(st, x, addr);
    assert CopyOf(st.table, st.ds[x].badge) == CopyBadge(q);
  }

  lemma {:induction false} RegionByte(all: seq<CkptResto>, s: StoredChild, st: Inc.State, jobs: seq<Job>, ds: seq<Ds>, mem: map<nat, seq<byte>>,
                   p: Option<CapPatch>, infos: seq<CapKcap>, q: StoredRegion, addr: nat)
    requires Copying(all, s, st, jobs, ds, mem, p, infos) && WellEntered(ds, jobs) && HasRoom(ds, jobs, mem)
    requires UnknownStored(s, q) && addr < FirstSize(s, q.dsBadge) && addr < SizeOf(st.table, q.dsBadge) && !InPatch(p, CopyBadge(q), addr)
    ensures SameShown(all, st, RestoreAll(Resolve(Intended, ds, |ds|, jobs), mem), q.dsBadge, addr)
  {
    assert Unfold(0);
    OpenEntered(all, s, jobs);
    var j := Job(Translate(all, q.dsBadge).value, CopyBadge(q), 0, FirstSize(s, q.dsBadge));
    assert RegionEntry(all, s, q, j) && IsRegionEntry(all, s, j) && j in jobs;
    var e := RegionCopySize(s, st, q);
    CopyAsLeft(all, s, ds, st.table, st.mem, mem, p, infos, e);
    ShownByteSaved(s, st, q, addr);
    WholeByteRestored(ds, jobs, mem, j, addr);
  }

  // If all regions fit, everything is reproduced.
  lemma {:induction false} AllReproduced(all: seq<CkptResto>, s: StoredChild, st: Inc.State, jobs: seq<Job>, ds: seq<Ds>, mem: map<nat, seq<byte>>,
                      p: Option<CapPatch>, infos: seq<CapKcap>)
    requires Copying(all, s, st, jobs, ds, mem, p, infos) && WithinCopies(s, st.table)
    ensures HasRoom(ds, jobs, mem) && Reproduced(all, st, s, ds, RestoreAll(Resolve(Intended, ds, |ds|, jobs), mem), p)
  {
    var mem' := RestoreAll(Resolve(Intended, ds, |ds|, jobs), mem);
    RoomForAll(all, s, st, jobs, ds, mem, p, infos);
    CopyingWell(all, s, st, jobs, ds, mem, p, infos);
    forall d, addr: nat | RamStored(s, d) && addr < d.size && !InPatch(p, d.copy, addr) ensures SameByte(all, st, ds, mem', d.badge, addr) {
      RamByte(all, s, st, jobs, ds, mem, p, infos, d, addr);
    }
    forall q, addr: nat | UnknownStored(s, q) && q.offset <= addr < q.offset + q.size && !InPatch(p, CopyBadge(q), addr)
      ensures SameShown(all, st, mem', q.dsBadge, addr)
    {
      assert WithinCopy(s, st.table, q);
      RegionByte(all, s, st, jobs, ds, mem, p, infos, q, addr);
    }
  }

  // The array of the capability map becomes what the patch has put into the copy.
  ghost predicate CapMapRestored(jobs: seq<Job>, ds: seq<Ds>, mem0: map<nat, seq<byte>>, mem: map<nat, seq<byte>>, p: CapPatch, infos: seq<CapKcap>)
    requires PatchOk(p, infos, mem0)
  {
    forall j, addr: nat :: j in jobs && j.copy == p.copy && InPatch(Some(p), j.copy, addr) && addr < j.size && InSize(ds, j.orig, addr) ==>
      FoundAtAddr(ds, mem, j.orig, addr) == Some(PatchedCopy(p, infos, mem0)[addr])
  }

  ghost predicate InSize(ds: seq<Ds>, b: nat, addr: nat) {
    forall i :: 0 <= i < |ds| && ds[i].badge == b ==> addr < ds[i].size
  }

  // The byte at addr of dataspace b, whether it is listed or only attached.
  ghost function FoundAtAddr(ds: seq<Ds>, mem: map<nat, seq<byte>>, b: nat, addr: nat): Option<byte> {
    if exists i :: 0 <= i < |ds| && ds[i].badge == b then ByteOf(ds, mem, b, addr)
    else if b in mem && addr < |mem[b]| then Some(mem[b][addr]) else None
  }

  lemma {:induction false} PatchRestored(all: seq<CkptResto>, s: StoredChild, st: Inc.State, jobs: seq<Job>, ds: seq<Ds>, mem: map<nat, seq<byte>>,
                      p: CapPatch, infos: seq<CapKcap>)
    requires Copying(all, s, st, jobs, ds, mem, Some(p), infos) && WellEntered(ds, jobs) && AllAttached(ds) && HasRoom(ds, jobs, mem)
    ensures PatchOk(p, infos, st.mem) && CapMapRestored(jobs, ds, st.mem, RestoreAll(Resolve(Intended, ds, |ds|, jobs), mem), p, infos)
  {
    assert Unfold(0);
    OpenEntered(all, s, jobs);
    var mem' := RestoreAll(Resolve(Intended, ds, |ds|, jobs), mem);
    forall j, addr: nat | j in jobs && j.copy == p.copy && InPatch(Some(p), j.copy, addr) && addr < j.size && InSize(ds, j.orig, addr)
      ensures FoundAtAddr(ds, mem', j.orig, addr) == Some(PatchedCopy(p, infos, st.mem)[addr])
    {
      var b := EntryIsOf(all, st.ds, st.table, s, j);
      var e := TableEntry(st.ds, st.table, b);
      assert mem[j.copy] == PatchedCopy(p, infos, st.mem);
      ByteRestored(ds, jobs, mem, j, addr);
    }
  }

  lemma {:induction false} ByteRestored(ds: seq<Ds>, jobs: seq<Job>, mem: map<nat, seq<byte>>, j: Job, addr: nat)
    requires WellEntered(ds, jobs) && HasRoom(ds, jobs, mem) && AllAttached(ds) && j in jobs && addr < j.size && InSize(ds, j.orig, addr)
    ensures j.copy in mem && addr < |mem[j.copy]|
    ensures FoundAtAddr(ds, RestoreAll(Resolve(Intended, ds, |ds|, jobs), mem), j.orig, addr) == Some(mem[j.copy][addr])
  {
    if i: nat :| i < |ds| && ds[i].badge == j.orig {
      RestoreReproduces(ds, jobs, mem, i, j, addr);
      ByteOfListed(ds, RestoreAll(Resolve(Intended, ds, |ds|, jobs), mem), i, addr);
    } else {
      assert forall m :: !ForManaged(ds, m, j);
      WholeByteRestored(ds, jobs, mem, j, addr);
    }
  }

  // ---- The round trip ----

  // A run of a child whose last checkpoint, finished in state n, has stored s; a restore that got through with s;
  // and the dataspaces of the child it made.  Folded like Extends.
  ghost predicate RestoredFrom(v: Variant, run: seq<Inc.State>, m: nat, n: nat, o: Restoration, all: seq<CkptResto>, s: StoredChild, ds: seq<Ds>) {
    n < |run| && s.pd != [] && forall key: nat {:trigger Unfold(key)} :: Unfold(key) ==>
      Inc.IsRun(v, run) && Stores(run, m, n, s) && RestoredInto(o, all, s) && FreshDs(o, all, s, ds, run[n].table)
  }

  lemma OpenRestoredFrom(v: Variant, run: seq<Inc.State>, m: nat, n: nat, o: Restoration, all: seq<CkptResto>, s: StoredChild, ds: seq<Ds>)
    ensures RestoredFrom(v, run, m, n, o, all, s, ds) <==>
      n < |run| && s.pd != [] && Inc.IsRun(v, run) && Stores(run, m, n, s) && RestoredInto(o, all, s) && FreshDs(o, all, s, ds, run[n].table)
  {
    assert Unfold(0);
  }

  lemma RunRecords(v: Variant, run: seq<Inc.State>, m: nat, n: nat, o: Restoration, all: seq<CkptResto>, s: StoredChild, ds: seq<Ds>)
    requires RestoredFrom(v, run, m, n, o, all, s, ds)
    ensures RecordsOf(s, run[n].ds, run[n].table) && Saves(run[n])
  {
    OpenRestoredFrom(v, run, m, n, o, all, s, ds);
    StoredRecordsLast(v, run, m, n, s);
    RunSaves(v, run, n);
  }

  lemma RestoreEnters(v: Variant, run: seq<Inc.State>, m: nat, n: nat, o: Restoration, all: seq<CkptResto>, s: StoredChild, ds: seq<Ds>, st: Inc.State)
    requires RestoredFrom(v, run, m, n, o, all, s, ds) && st.ds == run[n].ds && st.table == run[n].table
    requires RecordsOf(s, st.ds, st.table) && Saves(st)
    ensures |s.pd| == 1 && Entered(all, s, o.jobs) && StandsIn(all, s, ds)
    ensures Inc.Shaped(ds) && AllAttached(ds) && NothingShared(all, s, ds, st.table)
  {
    OpenRestoredFrom(v, run, m, n, o, all, s, ds);
    RamStandsIn(o, s);
    CopiesApart(st);
    JobsEntered(o, all, s, st.ds, st.table);
    StandInListed(o, all, s, ds, st.table);
  }

  lemma RestoreCopies(v: Variant, run: seq<Inc.State>, m: nat, n: nat, o: Restoration, all: seq<CkptResto>, s: StoredChild, ds: seq<Ds>,
                      st: Inc.State, mem: map<nat, seq<byte>>, p: Option<CapPatch>)
    requires RestoredFrom(v, run, m, n, o, all, s, ds) && st.ds == run[n].ds && st.table == run[n].table
    requires Saves(st) && FreshContents(all, s, ds, st.table, st.mem, mem, p, o.b.caps)
    ensures Copying(all, s, st, o.jobs, ds, mem, p, o.b.caps)
  {
    RunRecords(v, run, m, n, o, all, s, ds);
    RestoreEnters(v, run, m, n, o, all, s, ds, st);
  }

  // Checkpoint and restore undo each other.  Whatever a child did and however often it was checkpointed, let s
  // be stored by its last completed checkpoint, and let restore() get through with s in a fresh child.  If the
  // regions of dataspaces of unknown origin fit, then each copy is entered once, all entries can be copied, and
  // with the intended resolution and direction the restored child finds in every RAM dataspace, and in whatever
  // a region of another dataspace shows, the bytes its predecessor found there when the checkpoint completed,
  // but for the capability map, where it finds what the restorer has written into the copy.
  lemma {:induction false} RoundTrip(v: Variant, run: seq<Inc.State>, m: nat, n: nat, o: Restoration, all: seq<CkptResto>, s: StoredChild, ds: seq<Ds>,
                  mem: map<nat, seq<byte>>, p: Option<CapPatch>)
    requires RestoredFrom(v, run, m, n, o, all, s, ds) && WithinCopies(s, run[n].table)
    requires FreshContents(all, s, ds, run[n].table, run[n].mem, mem, p, o.b.caps)
    ensures Entered(all, s, o.jobs) && HasRoom(ds, o.jobs, mem)
    ensures Reproduced(all, run[n], s, ds, RestoreAll(Resolve(Intended, ds, |ds|, o.jobs), mem), p)
    ensures p.Some? ==>
      && PatchOk(p.value, o.b.caps, run[n].mem)
      && CapMapRestored(o.jobs, ds, run[n].mem, RestoreAll(Resolve(Intended, ds, |ds|, o.jobs), mem), p.value, o.b.caps)
  {
    RunRecords(v, run, m, n, o, all, s, ds);
    RestoreCopies(v, run, m, n, o, all, s, ds, run[n], mem, p);
    Conclusions(all, s, run[n], o.jobs, ds, mem, p, o.b.caps);
  }

  lemma {:induction false} Conclusions(all: seq<CkptResto>, s: StoredChild, st: Inc.State, jobs: seq<Job>, ds: seq<Ds>, mem: map<nat, seq<byte>>,
                    p: Option<CapPatch>, infos: seq<CapKcap>)
    requires Copying(all, s, st, jobs, ds, mem, p, infos) && WithinCopies(s, st.table)
    ensures Entered(all, s, jobs) && HasRoom(ds, jobs, mem)
    ensures Reproduced(all, st, s, ds, RestoreAll(Resolve(Intended, ds, |ds|, jobs), mem), p)
    ensures p.Some? ==>
      && PatchOk(p.value, infos, st.mem)
      && CapMapRestored(jobs, ds, st.mem, RestoreAll(Resolve(Intended, ds, |ds|, jobs), mem), p.value, infos)
  {
    assert Unfold(0);
    AllReproduced(all, s, st, jobs, ds, mem, p, infos);
    CopyingWell(all, s, st, jobs, ds, mem, p, infos);
    if p.Some? {
      PatchRestored(all, s, st, jobs, ds, mem, p.value, infos);
    }
  }
}
