// Exactly when everything a region shows is reproduced: a region of a dataspace of unknown origin may show more
// than was saved of it, or more than is restored.
module RoundTripIff {
  import opened Variants
  import opened Folding
  import opened InfoList
  import opened Memory
  import opened CapMap
  import opened RamIdentify
  import opened Tiles
  import opened CopyTable
  import opened StoredState
  import opened Translation
  import opened RestoreState
  import opened MemoryPlan
  import opened RestoreRegions
  import opened RestoredState
  import opened RestoreMemory
  import opened SavedRecords
  import opened RestoreList
  import opened RoundTrip
  import opened IncrementalShipped
  import Inc = Incremental

  // ---- A content that tells saved bytes from all others ----

  ghost function CopiesIn(table: seq<CopyEntry>): set<nat> {
    set e | e in table :: e.copy
  }

  // How many bytes a checkpoint writes to the copy of e.
  ghost function SavedSize(ds: seq<Ds>, e: CopyEntry): nat {
    if exists i :: 0 <= i < |ds| && ds[i].badge == e.orig && ds[i].tiles.Some? then Align(e.size) else e.size
  }

  ghost function EntryOfCopy(table: seq<CopyEntry>, c: nat): (e: CopyEntry)
    requires c in CopiesIn(table)
    ensures e in table && e.copy == c
  {
    var i := FirstIndex(table, (e: CopyEntry) => e.copy == c);
    assert i < |table|;
    table[i]
  }

  // Zero where the checkpoint has written, one behind it.
  ghost function ZeroSaved(ds: seq<Ds>, e: CopyEntry): (r: seq<byte>)
    ensures |r| == Align(e.size) && forall k :: 0 <= k < |r| ==> r[k] == if k < SavedSize(ds, e) then 0 else 1
  {
    seq(Align(e.size), k => if k < SavedSize(ds, e) then 0 else 1)
  }

  // The dataspaces of the checkpointed child are zero.
  ghost function ZeroChild(ds: seq<Ds>, table: seq<CopyEntry>, n: nat): map<nat, seq<byte>> {
    map c | c in CopiesIn(table) + SliceCaps(ds) :: if c in CopiesIn(table) then ZeroSaved(ds, EntryOfCopy(table, c)) else Fill(n, 0)
  }

  // Those of the fresh child are one.
  ghost function OneChild(all: seq<CkptResto>, ds: seq<Ds>, table: seq<CopyEntry>, mem0: map<nat, seq<byte>>, n: nat): map<nat, seq<byte>>
    requires CopiesIn(table) <= mem0.Keys
  {
    map c | c in CopiesIn(table) + SliceCaps(ds) + Images(all) :: if c in CopiesIn(table) then mem0[c] else Fill(n, 1)
  }

  lemma ZeroCopy(st: Inc.State, n: nat, e: CopyEntry)
    requires Inc.TableFits(st.ds, st.table, st.mem) && e in st.table
    ensures e.copy in ZeroChild(st.ds, st.table, n) && ZeroChild(st.ds, st.table, n)[e.copy] == ZeroSaved(st.ds, e)
  {
    assert EntryOfCopy(st.table, e.copy) == e;
  }

  lemma ZeroSlice(st: Inc.State, n: nat, i: int, k: int)
    requires Inc.TableFits(st.ds, st.table, st.mem) && Inc.Shaped(st.ds) && Inc.Ix(st.ds, i, k)
    ensures Inc.At(st.ds, i, k).cap in ZeroChild(st.ds, st.table, n) && ZeroChild(st.ds, st.table, n)[Inc.At(st.ds, i, k).cap] == Fill(n, 0)
  {
    SliceFits(st.ds, i, k);
    forall e | e in st.table ensures e.copy != Inc.At(st.ds, i, k).cap {
    }
  }

  lemma ZeroByte(st: Inc.State, n: nat, i: int, addr: nat)
    requires Inc.TableFits(st.ds, st.table, st.mem) && Inc.Shaped(st.ds) && Room(st.ds) <= n
    requires 0 <= i < |st.ds| && addr < Inc.Extent(st.ds[i])
    ensures Inc.ByteAt(st.ds[i], ZeroChild(st.ds, st.table, n), addr) == Some(0)
  {
    var d, mem := st.ds[i], ZeroChild(st.ds, st.table, n);
    if d.tiles.Some? {
      var k := FirstIndex(d.tiles.value, (t: Tile) => Contains(t, addr));
      ExactlyOneTile(d.tiles.value, Align(d.size), addr);
      assert Inc.Ix(st.ds, i, k) && Inc.At(st.ds, i, k) == d.tiles.value[k];
      ZeroSlice(st, n, i, k);
      SliceFits(st.ds, i, k);
      TileByteAt(d, mem, k, addr);
    } else {
      assert Inc.Ix(st.ds, i, 0) && Inc.At(st.ds, i, 0) == Tile(d.badge, 0, d.size, true);
      ZeroSlice(st, n, i, 0);
      SliceFits(st.ds, i, 0);
      WholeByteAt(d, mem, addr);
    }
  }

  lemma SavedSizeIs(st: Inc.State, i: int, e: CopyEntry)
    requires Inc.TableFits(st.ds, st.table, st.mem) && Inc.Shaped(st.ds) && e in st.table
    requires 0 <= i < |st.ds| && st.ds[i].badge == e.orig
    ensures SavedSize(st.ds, e) == Inc.Extent(st.ds[i]) <= Align(e.size)
  {
    forall j | 0 <= j < |st.ds| && st.ds[j].badge == e.orig ensures j == i {
    }
  }

  lemma ZeroChildFits(st: Inc.State, n: nat)
    requires Inc.TableFits(st.ds, st.table, st.mem)
    ensures Inc.TableFits(st.ds, st.table, ZeroChild(st.ds, st.table, n))
  {
    forall e | e in st.table
      ensures e.copy in ZeroChild(st.ds, st.table, n) && ZeroChild(st.ds, st.table, n)[e.copy] == ZeroSaved(st.ds, e)
    {
      ZeroCopy(st, n, e);
    }
  }

  lemma ZeroByteSaved(st: Inc.State, n: nat, i: int, addr: nat)
    requires Inc.Complete(st.ds, st.table) && Inc.TableFits(st.ds, st.table, st.mem) && Inc.Shaped(st.ds) && Room(st.ds) <= n
    requires 0 <= i < |st.ds| && addr < Inc.Extent(st.ds[i])
    ensures ByteSaved(st.(mem := ZeroChild(st.ds, st.table, n)), i, addr)
  {
    var e := Inc.EntryOf(st.ds, st.table, st.mem, i);
    SavedSizeIs(st, i, e);
    ZeroCopy(st, n, e);
    ZeroByte(st, n, i, addr);
  }

  // Such a content is one a checkpoint can leave.
  lemma ZeroChildSaves(st: Inc.State, n: nat)
    requires Inc.Complete(st.ds, st.table) && Inc.TableFits(st.ds, st.table, st.mem) && Inc.Shaped(st.ds) && Room(st.ds) <= n
    ensures Saves(st.(mem := ZeroChild(st.ds, st.table, n)))
  {
    ZeroChildFits(st, n);
    forall i, addr | 0 <= i < |st.ds| && 0 <= addr < Inc.Extent(st.ds[i]) ensures ByteSaved(st.(mem := ZeroChild(st.ds, st.table, n)), i, addr) {
      ZeroByteSaved(st, n, i, addr);
    }
  }

  // ---- The fresh child that goes with it ----

  ghost function TopOf(regs: seq<StoredRegion>): (n: nat)
    ensures forall q :: q in regs ==> q.offset + q.size <= n
  {
    if regs == [] then 0
    else
      var rest := TopOf(regs[1..]);
      assert regs == [regs[0]] + regs[1..];
      if regs[0].offset + regs[0].size > rest then regs[0].offset + regs[0].size else rest
  }

  ghost function Enough(s: StoredChild, ds0: seq<Ds>, ds: seq<Ds>): nat
    requires s.pd != []
  {
    Room(ds0) + Room(ds) + TopOf(AllRegions(s))
  }

  lemma {:induction false} ImageHas(all: seq<CkptResto>, b: nat)
    requires Translate(all, b).Some?
    ensures Translate(all, b).value in Images(all) && exists p :: p in all && p.restoBadge == Translate(all, b).value
  {
    TranslateIff(all, b);
  }

  lemma OneChildFresh(all: seq<CkptResto>, s: StoredChild, st: Inc.State, ds: seq<Ds>, infos: seq<CapKcap>)
    requires |s.pd| == 1 && Inc.TableFits(st.ds, st.table, st.mem) && Inc.Shaped(ds) && NothingShared(all, s, ds, st.table)
    ensures var n := Enough(s, st.ds, ds);
      var mem0 := ZeroChild(st.ds, st.table, n);
      CopiesIn(st.table) <= mem0.Keys && FreshContents(all, s, ds, st.table, mem0, OneChild(all, ds, st.table, mem0, n), None, infos)
  {
    var n := Enough(s, st.ds, ds);
    var mem0 := ZeroChild(st.ds, st.table, n);
    var mem := OneChild(all, ds, st.table, mem0, n);
    forall i, k | Inc.Ix(ds, i, k) ensures Inc.At(ds, i, k).cap in mem && Inc.At(ds, i, k).size <= |mem[Inc.At(ds, i, k).cap]| {
      SliceFits(ds, i, k);
      assert Inc.At(ds, i, k).cap !in CopiesIn(st.table);
    }
    forall q | UnknownStored(s, q) && Translate(all, q.dsBadge).Some?
      ensures Translate(all, q.dsBadge).value in mem && q.offset + q.size <= |mem[Translate(all, q.dsBadge).value]|
    {
      ImageHas(all, q.dsBadge);
      AllRegionsHas(s, q);
      assert Translate(all, q.dsBadge).value !in CopiesIn(st.table);
    }
  }

  lemma {:induction false} OneByte(all: seq<CkptResto>, s: StoredChild, st: Inc.State, ds: seq<Ds>, q: StoredRegion)
    requires |s.pd| == 1 && NothingShared(all, s, ds, st.table) && UnknownStored(s, q) && Translate(all, q.dsBadge).Some?
    ensures var n := Enough(s, st.ds, ds);
      var mem0 := ZeroChild(st.ds, st.table, n);
      var t := Translate(all, q.dsBadge).value;
      CopiesIn(st.table) <= mem0.Keys && t in OneChild(all, ds, st.table, mem0, n) && OneChild(all, ds, st.table, mem0, n)[t] == Fill(n, 1)
  {
    ImageHas(all, q.dsBadge);
    assert Translate(all, q.dsBadge).value !in CopiesIn(st.table);
  }

  // ---- Where a region does not fit ----

  // Behind the entry the fresh child keeps its own content.
  lemma {:induction false} BeyondEntry(all: seq<CkptResto>, s: StoredChild, st: Inc.State, jobs: seq<Job>, ds: seq<Ds>, mem: map<nat, seq<byte>>,
                    infos: seq<CapKcap>, q: StoredRegion, n: nat, addr: nat)
    requires Copying(all, s, st, jobs, ds, mem, None, infos) && WellEntered(ds, jobs) && HasRoom(ds, jobs, mem)
    requires UnknownStored(s, q) && Translate(all, q.dsBadge).Some? && FirstSize(s, q.dsBadge) <= addr < n
    requires Translate(all, q.dsBadge).value in mem && mem[Translate(all, q.dsBadge).value] == Fill(n, 1)
    ensures var mem' := RestoreAll(Resolve(Intended, ds, |ds|, jobs), mem);
      var t := Translate(all, q.dsBadge).value; t in mem' && addr < |mem'[t]| && mem'[t][addr] == 1
  {
    assert Unfold(0);
    OpenEntered(all, s, jobs);
    var j := Job(Translate(all, q.dsBadge).value, CopyBadge(q), 0, FirstSize(s, q.dsBadge));
    assert RegionEntry(all, s, q, j) && IsRegionEntry(all, s, j) && j in jobs;
    NotManaged(all, s, ds, st.table, q, j);
    WholeBeyondKept(Intended, ds, jobs, mem, j);
  }

  // Behind what was saved it gets what the copy happens to hold.
  lemma {:induction false} BeyondSaved(all: seq<CkptResto>, s: StoredChild, st: Inc.State, jobs: seq<Job>, ds: seq<Ds>, mem: map<nat, seq<byte>>,
                    infos: seq<CapKcap>, q: StoredRegion, addr: nat)
    requires Copying(all, s, st, jobs, ds, mem, None, infos) && WellEntered(ds, jobs) && HasRoom(ds, jobs, mem)
    requires UnknownStored(s, q) && Translate(all, q.dsBadge).Some? && SizeOf(st.table, q.dsBadge) <= addr < FirstSize(s, q.dsBadge)
    requires forall e :: e in st.table ==> e.copy in st.mem && st.mem[e.copy] == ZeroSaved(st.ds, e)
    ensures var mem' := RestoreAll(Resolve(Intended, ds, |ds|, jobs), mem);
      var t := Translate(all, q.dsBadge).value; t in mem' && addr < |mem'[t]| && mem'[t][addr] == 1
  {
    assert Unfold(0);
    OpenEntered(all, s, jobs);
    var j := Job(Translate(all, q.dsBadge).value, CopyBadge(q), 0, FirstSize(s, q.dsBadge));
    assert RegionEntry(all, s, q, j) && IsRegionEntry(all, s, j) && j in jobs;
    NotManaged(all, s, ds, st.table, q, j);
    var e := RegionCopySize(s, st, q);
    UnknownSavedSize(s, st, q, e);
    CopyAsLeft(all, s, ds, st.table, st.mem, mem, None, infos, e);
    WholeByteRestored(ds, jobs, mem, j, addr);
  }

  // The last byte of what it shows is one of those not saved, or one not restored.
  lemma {:induction false} LastByteWrong(all: seq<CkptResto>, s: StoredChild, st: Inc.State, jobs: seq<Job>, ds: seq<Ds>, mem: map<nat, seq<byte>>,
                      infos: seq<CapKcap>, q: StoredRegion, n: nat)
    requires Copying(all, s, st, jobs, ds, mem, None, infos) && WellEntered(ds, jobs) && HasRoom(ds, jobs, mem)
    requires UnknownStored(s, q) && q.size > 0 && !WithinCopy(s, st.table, q) && q.offset + q.size <= n && Translate(all, q.dsBadge).Some?
    requires q.dsBadge in st.mem && st.mem[q.dsBadge] == Fill(n, 0)
    requires Translate(all, q.dsBadge).value in mem && mem[Translate(all, q.dsBadge).value] == Fill(n, 1)
    requires forall e :: e in st.table ==> e.copy in st.mem && st.mem[e.copy] == ZeroSaved(st.ds, e)
    ensures !SameShown(all, st, RestoreAll(Resolve(Intended, ds, |ds|, jobs), mem), q.dsBadge, q.offset + q.size - 1)
  {
    var addr := q.offset + q.size - 1;
    if addr < FirstSize(s, q.dsBadge) {
      BeyondSaved(all, s, st, jobs, ds, mem, infos, q, addr);
    } else {
      BeyondEntry(all, s, st, jobs, ds, mem, infos, q, n, addr);
    }
  }

  lemma NotManaged(all: seq<CkptResto>, s: StoredChild, ds: seq<Ds>, table: seq<CopyEntry>, q: StoredRegion, j: Job)
    requires s.pd != [] && NothingShared(all, s, ds, table) && UnknownStored(s, q) && RegionEntry(all, s, q, j)
    ensures forall i :: !ForManaged(ds, i, j)
  {
  }

  lemma UnknownSavedSize(s: StoredChild, st: Inc.State, q: StoredRegion, e: CopyEntry)
    requires Saves(st) && RecordsOf(s, st.ds, st.table) && UnknownStored(s, q) && e in st.table && e.orig == q.dsBadge
    ensures SavedSize(st.ds, e) == e.size == SizeOf(st.table, q.dsBadge)
  {
    var x :| 0 <= x < |st.ds| && st.ds[x].badge == q.dsBadge && st.ds[x].tiles.None?;
    LookupIs(st.table, e);
    forall i | 0 <= i < |st.ds| && st.ds[i].badge == e.orig ensures i == x {
    }
  }

  lemma UnknownZero(s: StoredChild, st: Inc.State, q: StoredRegion, n: nat)
    requires Saves(st) && RecordsOf(s, st.ds, st.table) && UnknownStored(s, q)
    ensures q.dsBadge in ZeroChild(st.ds, st.table, n) && ZeroChild(st.ds, st.table, n)[q.dsBadge] == Fill(n, 0)
  {
    var x :| 0 <= x < |st.ds| && st.ds[x].badge == q.dsBadge && st.ds[x].tiles.None?;
    assert Inc.Ix(st.ds, x, 0) && Inc.At(st.ds, x, 0) == Tile(q.dsBadge, 0, st.ds[x].size, true);
    ZeroSlice(st, n, x, 0);
  }

  // What does not depend on the contents.  Folded like Extends.
  ghost predicate Shape(all: seq<CkptResto>, s: StoredChild, st: Inc.State, jobs: seq<Job>, ds: seq<Ds>) {
    |s.pd| == 1 && forall key: nat {:trigger Unfold(key)} :: Unfold(key) ==>
      && Saves(st) && RecordsOf(s, st.ds, st.table) && Entered(all, s, jobs) && Inc.Shaped(ds) && AllAttached(ds) && StandsIn(all, s, ds)
      && NothingShared(all, s, ds, st.table)
  }

  // All is well for these contents of the checkpointed and of the fresh child.
  ghost predicate ReproducedFor(all: seq<CkptResto>, s: StoredChild, st: Inc.State, jobs: seq<Job>, ds: seq<Ds>, mem: map<nat, seq<byte>>) {
    HasRoom(ds, jobs, mem) && Reproduced(all, st, s, ds, RestoreAll(Resolve(Intended, ds, |ds|, jobs), mem), None)
  }

  lemma ZeroAndOne(all: seq<CkptResto>, s: StoredChild, st: Inc.State, jobs: seq<Job>, ds: seq<Ds>, infos: seq<CapKcap>)
    requires Shape(all, s, st, jobs, ds)
    ensures var n := Enough(s, st.ds, ds);
      var mem0 := ZeroChild(st.ds, st.table, n);
      && CopiesIn(st.table) <= mem0.Keys && Saves(st.(mem := mem0))
      && FreshContents(all, s, ds, st.table, mem0, OneChild(all, ds, st.table, mem0, n), None, infos)
      && Copying(all, s, st.(mem := mem0), jobs, ds, OneChild(all, ds, st.table, mem0, n), None, infos)
  {
    assert Unfold(0);
    ZeroChildSaves(st, Enough(s, st.ds, ds));
    OneChildFresh(all, s, st, ds, infos);
  }

  lemma NotReproduced(all: seq<CkptResto>, s: StoredChild, st: Inc.State, jobs: seq<Job>, ds: seq<Ds>, infos: seq<CapKcap>, q: StoredRegion)
    requires Shape(all, s, st, jobs, ds) && UnknownStored(s, q) && q.size > 0 && !WithinCopy(s, st.table, q)
    ensures var n := Enough(s, st.ds, ds);
      var mem0 := ZeroChild(st.ds, st.table, n);
      && CopiesIn(st.table) <= mem0.Keys
      && !ReproducedFor(all, s, st.(mem := mem0), jobs, ds, OneChild(all, ds, st.table, mem0, n))
  {
    var n := Enough(s, st.ds, ds);
    var mem0 := ZeroChild(st.ds, st.table, n);
    ZeroAndOne(all, s, st, jobs, ds, infos);
    NotForThese(all, s, st, st.(mem := mem0), jobs, ds, OneChild(all, ds, st.table, mem0, n), infos, q);
  }

  lemma NotForThese(all: seq<CkptResto>, s: StoredChild, st: Inc.State, st0: Inc.State, jobs: seq<Job>, ds: seq<Ds>, mem: map<nat, seq<byte>>,
                    infos: seq<CapKcap>, q: StoredRegion)
    requires ZerosAndOnes(all, s, st, st0, jobs, ds, mem, infos) && UnknownStored(s, q) && q.size > 0 && !WithinCopy(s, st.table, q)
    ensures !ReproducedFor(all, s, st0, jobs, ds, mem)
  {
    OpenZerosAndOnes(all, s, st, st0, jobs, ds, mem, infos);
    CopyingWell(all, s, st0, jobs, ds, mem, None, infos);
    if HasRoom(ds, jobs, mem) {
      WrongFor(all, s, st, st0, jobs, ds, mem, infos, q);
      NotIfWrong(all, s, st0, ds, RestoreAll(Resolve(Intended, ds, |ds|, jobs), mem), q, q.offset + q.size - 1);
    }
  }

  // These contents.  Folded like Extends.
  ghost predicate ZerosAndOnes(all: seq<CkptResto>, s: StoredChild, st: Inc.State, st0: Inc.State, jobs: seq<Job>, ds: seq<Ds>,
                               mem: map<nat, seq<byte>>, infos: seq<CapKcap>)
  {
    s.pd != [] && forall key: nat {:trigger Unfold(key)} :: Unfold(key) ==>
      && Shape(all, s, st, jobs, ds) && st0 == st.(mem := ZeroChild(st.ds, st.table, Enough(s, st.ds, ds)))
      && CopiesIn(st.table) <= st0.mem.Keys && mem == OneChild(all, ds, st.table, st0.mem, Enough(s, st.ds, ds))
      && Copying(all, s, st0, jobs, ds, mem, None, infos)
  }

  lemma OpenZerosAndOnes(all: seq<CkptResto>, s: StoredChild, st: Inc.State, st0: Inc.State, jobs: seq<Job>, ds: seq<Ds>,
                         mem: map<nat, seq<byte>>, infos: seq<CapKcap>)
    requires ZerosAndOnes(all, s, st, st0, jobs, ds, mem, infos)
    ensures Shape(all, s, st, jobs, ds) && Copying(all, s, st0, jobs, ds, mem, None, infos) && st0.ds == st.ds && st0.table == st.table
  {
    assert Unfold(0);
  }

  lemma NotIfWrong(all: seq<CkptResto>, s: StoredChild, st: Inc.State, ds: seq<Ds>, mem: map<nat, seq<byte>>, q: StoredRegion, addr: nat)
    requires UnknownStored(s, q) && q.offset <= addr < q.offset + q.size && !SameShown(all, st, mem, q.dsBadge, addr)
    ensures !Reproduced(all, st, s, ds, mem, None)
  {
    assert !InPatch(None, CopyBadge(q), addr);
  }

  lemma {:induction false} WrongFor(all: seq<CkptResto>, s: StoredChild, st: Inc.State, st0: Inc.State, jobs: seq<Job>, ds: seq<Ds>, mem: map<nat, seq<byte>>,
                 infos: seq<CapKcap>, q: StoredRegion)
    requires ZerosAndOnes(all, s, st, st0, jobs, ds, mem, infos) && UnknownStored(s, q) && q.size > 0 && !WithinCopy(s, st.table, q)
    requires WellEntered(ds, jobs) && HasRoom(ds, jobs, mem)
    ensures !SameShown(all, st0, RestoreAll(Resolve(Intended, ds, |ds|, jobs), mem), q.dsBadge, q.offset + q.size - 1)
  {
    assert Unfold(0);
    var n := Enough(s, st.ds, ds);
    OpenEntered(all, s, jobs);
    AllRegionsHas(s, q);
    UnknownZero(s, st, q, n);
    OneByte(all, s, st, ds, q);
    forall e | e in st.table ensures e.copy in st0.mem && st0.mem[e.copy] == ZeroSaved(st.ds, e) {
      ZeroCopy(st, n, e);
    }
    LastByteWrong(all, s, st0, jobs, ds, mem, infos, q, n);
  }

  // ---- The condition ----

  lemma ShapeReproducedIff(all: seq<CkptResto>, s: StoredChild, st: Inc.State, jobs: seq<Job>, ds: seq<Ds>, infos: seq<CapKcap>)
    requires Shape(all, s, st, jobs, ds)
    ensures (forall mem0, mem :: Saves(st.(mem := mem0)) && FreshContents(all, s, ds, st.table, mem0, mem, None, infos) ==>
               ReproducedFor(all, s, st.(mem := mem0), jobs, ds, mem))
            <==> WithinCopies(s, st.table)
  {
    if WithinCopies(s, st.table) {
      forall mem0, mem | Saves(st.(mem := mem0)) && FreshContents(all, s, ds, st.table, mem0, mem, None, infos)
        ensures ReproducedFor(all, s, st.(mem := mem0), jobs, ds, mem)
      {
        assert Unfold(0);
        AllReproduced(all, s, st.(mem := mem0), jobs, ds, mem, None, infos);
      }
    } else {
      var q :| UnknownStored(s, q) && q.size > 0 && !WithinCopy(s, st.table, q);
      ZeroAndOne(all, s, st, jobs, ds, infos);
      NotReproduced(all, s, st, jobs, ds, infos, q);
    }
  }

  // After any run of the checkpointed child and any restore that got through: whatever the contents are, all
  // entries can be copied and everything is reproduced, if and only if every region of a dataspace of unknown
  // origin ends within what its copy was made for and within what the dataspace's first record shows.
  lemma RoundTripIff(v: Variant, run: seq<Inc.State>, m: nat, n: nat, o: Restoration, all: seq<CkptResto>, s: StoredChild, ds: seq<Ds>)
    requires RestoredFrom(v, run, m, n, o, all, s, ds)
    ensures (forall mem0, mem ::
               Saves(run[n].(mem := mem0)) && FreshContents(all, s, ds, run[n].table, mem0, mem, None, o.b.caps) ==>
                 ReproducedFor(all, s, run[n].(mem := mem0), o.jobs, ds, mem))
            <==> WithinCopies(s, run[n].table)
  {
    RunRecords(v, run, m, n, o, all, s, ds);
    RestoreEnters(v, run, m, n, o, all, s, ds, run[n]);
    ShapeReproducedIff(all, s, run[n], o.jobs, ds, o.b.caps);
  }
}
