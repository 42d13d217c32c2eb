// The resolution as shipped looks at the first tile only.  When is a checkpoint made with it right?
module IncrementalShipped {
  import opened Variants
  import opened InfoList
  import opened Memory
  import opened Tiles
  import opened CopyTable
  import opened MemoryPlan
  import opened Incremental

  // _checkpoint_dataspaces on the whole list
  ghost function CopyAll(jobs: seq<Job>, mem: map<nat, seq<byte>>): map<nat, seq<byte>> {
    if jobs == [] || !CanCopy(mem, jobs[0]) then mem else CopyAll(jobs[1..], CopyJob(mem, jobs[0]))
  }

  // The content after a checkpoint with the given resolution.
  ghost function Checkpointed(v: Variant, ds: seq<Ds>, table: seq<CopyEntry>, mem: map<nat, seq<byte>>): map<nat, seq<byte>> {
    CopyAll(Resolve(v, ds, |ds|, AllJobs(table, |table|)), mem)
  }

  // The contents a paused child can have.
  ghost predicate Possible(ds: seq<Ds>, table: seq<CopyEntry>, mem: map<nat, seq<byte>>) {
    Backed(ds, mem) && TableFits(ds, table, mem) && AttachedOrClean(ds, table, mem)
  }

  lemma {:induction false} CopyAllCleans(ds: seq<Ds>, table: seq<CopyEntry>, mem: map<nat, seq<byte>>, jobs: seq<Job>)
    requires Shaped(ds) && Backed(ds, mem) && TableFits(ds, table, mem) && Complete(ds, table)
    requires CleanOrDue(ds, table, mem, jobs)
    ensures AllClean(ds, table, CopyAll(jobs, mem))
    decreases jobs
  {
    if jobs != [] {
      var j := jobs[0];
      assert Legit(ds, table, j);
      var i, k :| Ix(ds, i, k) && j == SliceJob(At(ds, i, k), CopyOf(table, ds[i].badge));
      CopyInBounds(ds, table, mem, i, k);
      var s := State(ds, table, mem, Copying, 0, [], jobs);
      CopyKeeps(s, s.(mem := CopyJob(mem, j), jobs := jobs[1..]));
      CopyAllCleans(ds, table, CopyJob(mem, j), jobs[1..]);
    }
  }

  lemma CompleteIfSameResolution(v: Variant, ds: seq<Ds>, table: seq<CopyEntry>, mem: map<nat, seq<byte>>)
    requires Shaped(ds) && Complete(ds, table) && Possible(ds, table, mem) && ResolvesAll(v, ds)
    ensures AllClean(ds, table, Checkpointed(v, ds, table, mem))
  {
    var s := State(ds, table, mem, Prepared, 0, [], AllJobs(table, |table|));
    var s' := s.(phase := Resolved, jobs := Resolve(v, ds, |ds|, s.jobs));
    ResolveKeeps(v, s, s');
    CopyAllCleans(ds, table, mem, s'.jobs);
  }

  // ---- A content for which the shipped checkpoint is wrong ----

  ghost function Fill(n: nat, b: byte): (r: seq<byte>)
    ensures |r| == n && forall k :: 0 <= k < n ==> r[k] == b
  {
    seq(n, _ => b)
  }

  ghost function Room(ds: seq<Ds>): (n: nat)
    ensures forall i :: 0 <= i < |ds| ==> Align(ds[i].size) <= n
  {
    if ds == [] then 0
    else
      var rest := Room(ds[1..]);
      assert forall i :: 0 < i < |ds| ==> ds[i] == ds[1..][i - 1];
      if Align(ds[0].size) > rest then Align(ds[0].size) else rest
  }

  ghost function CopyBadges(table: seq<CopyEntry>): set<nat> {
    set e | e in table :: e.copy
  }

  ghost function SliceCaps(ds: seq<Ds>): set<nat> {
    set d, t | d in ds && t in Slices(d) :: t.cap
  }

  // Everything is zero except for one tile.
  ghost function OneTileWritten(ds: seq<Ds>, table: seq<CopyEntry>, cap: nat): map<nat, seq<byte>> {
    map c | c in SliceCaps(ds) + CopyBadges(table) :: Fill(Room(ds), if c == cap then 1 else 0)
  }

  // The copies of the table belong to dataspaces of ds and nothing else uses them.
  ghost predicate TableShape(ds: seq<Ds>, table: seq<CopyEntry>) {
    && DistinctOrigs(table)
    && (forall e, e' :: e in table && e' in table && e.copy == e'.copy ==> e == e')
    && (forall e, i, k :: e in table && Ix(ds, i, k) ==> At(ds, i, k).cap != e.copy)
    && (forall e, i :: e in table && 0 <= i < |ds| && e.orig == ds[i].badge ==> e.size == ds[i].size)
    && Complete(ds, table)
  }

  lemma {:induction false} SliceFits(ds: seq<Ds>, i: int, k: int)
    requires Shaped(ds) && Ix(ds, i, k)
    ensures At(ds, i, k).cap in SliceCaps(ds)
    ensures At(ds, i, k).relAddr + At(ds, i, k).size <= Align(ds[i].size) <= Room(ds)
  {
    assert ds[i] in ds && At(ds, i, k) in Slices(ds[i]);
    if ds[i].tiles.Some? {
      TilesBelow(ds[i].tiles.value, Align(ds[i].size), k);
    }
  }

  ghost predicate AllZero(m: seq<byte>) {
    forall k :: 0 <= k < |m| ==> m[k] == 0
  }

  // Only the tile cap has been written.
  ghost predicate ZeroBut(ds: seq<Ds>, table: seq<CopyEntry>, cap: nat, mem: map<nat, seq<byte>>) {
    && Backed(ds, mem) && TableFits(ds, table, mem)
    && (forall c :: c in CopyBadges(table) ==> c in mem && AllZero(mem[c]))
    && (forall c :: c in SliceCaps(ds) && c != cap ==> c in mem && AllZero(mem[c]))
    && cap in mem && (forall k :: 0 <= k < |mem[cap]| ==> mem[cap][k] == 1)
  }

  lemma OneTileIsZeroBut(ds: seq<Ds>, table: seq<CopyEntry>, i0: int, k0: int)
    requires Shaped(ds) && TableShape(ds, table) && Ix(ds, i0, k0)
    ensures ZeroBut(ds, table, At(ds, i0, k0).cap, OneTileWritten(ds, table, At(ds, i0, k0).cap))
  {
    var cap := At(ds, i0, k0).cap;
    SliceFits(ds, i0, k0);
    WrittenBacked(ds, table, cap);
    WrittenTable(ds, table, cap);
    forall c | c in CopyBadges(table) ensures c != cap {
      var e :| e in table && e.copy == c;
    }
  }

  lemma WrittenBacked(ds: seq<Ds>, table: seq<CopyEntry>, cap: nat)
    requires Shaped(ds)
    ensures Backed(ds, OneTileWritten(ds, table, cap))
  {
    forall i, k | Ix(ds, i, k) ensures At(ds, i, k).cap in SliceCaps(ds) && At(ds, i, k).size <= Room(ds) {
      SliceFits(ds, i, k);
    }
  }

  lemma WrittenTable(ds: seq<Ds>, table: seq<CopyEntry>, cap: nat)
    requires TableShape(ds, table)
    ensures TableFits(ds, table, OneTileWritten(ds, table, cap))
  {
    forall e | e in table ensures e.copy in CopyBadges(table) && Align(e.size) <= Room(ds) {
      var i :| 0 <= i < |ds| && ds[i].badge == e.orig;
    }
  }

  lemma OthersClean(ds: seq<Ds>, table: seq<CopyEntry>, i0: int, k0: int, i: int, k: int, mem: map<nat, seq<byte>>)
    requires Shaped(ds) && Complete(ds, table) && Ix(ds, i0, k0) && Ix(ds, i, k) && (i != i0 || k != k0)
    requires ZeroBut(ds, table, At(ds, i0, k0).cap, mem)
    ensures Clean(ds[i].badge, At(ds, i, k), table, mem)
  {
    assert Slices(ds[i])[k].cap != Slices(ds[i0])[k0].cap;
    SliceFits(ds, i, k);
    var t, e := At(ds, i, k), Lookup(table, ds[i].badge).value;
    LookupFinds(table, ds[i].badge);
    assert e.copy in CopyBadges(table) && t.cap in SliceCaps(ds);
    assert t.size <= |mem[t.cap]| && Align(e.size) <= |mem[e.copy]|;
    ZerosAgree(mem[e.copy], t.relAddr, mem[t.cap], t.size);
  }

  lemma ZerosAgree(copy: seq<byte>, off: nat, orig: seq<byte>, n: nat)
    requires AllZero(copy) && AllZero(orig) && off + n <= |copy| && n <= |orig|
    ensures SameSlice(copy, off, orig, n)
  {
  }

  lemma WrittenIsPossible(ds: seq<Ds>, table: seq<CopyEntry>, i0: int, k0: int, mem: map<nat, seq<byte>>)
    requires Shaped(ds) && Complete(ds, table) && Ix(ds, i0, k0) && At(ds, i0, k0).attached
    requires ZeroBut(ds, table, At(ds, i0, k0).cap, mem)
    ensures Possible(ds, table, mem)
  {
    forall i, k | Ix(ds, i, k) && !At(ds, i, k).attached ensures Clean(ds[i].badge, At(ds, i, k), table, mem) {
      OthersClean(ds, table, i0, k0, i, k, mem);
    }
  }

  // Copying zeros keeps the copies zero and touches nothing else.
  lemma {:induction false} ZerosStay(jobs: seq<Job>, mem: map<nat, seq<byte>>, copies: set<nat>)
    requires forall c :: c in copies ==> c in mem && AllZero(mem[c])
    requires forall j :: j in jobs ==> j.copy in copies && j.orig !in copies && j.orig in mem && AllZero(mem[j.orig])
    ensures forall c :: c in copies ==> c in CopyAll(jobs, mem) && AllZero(CopyAll(jobs, mem)[c])
    ensures forall c :: c in mem && c !in copies ==> c in CopyAll(jobs, mem) && CopyAll(jobs, mem)[c] == mem[c]
    decreases jobs
  {
    if jobs != [] && CanCopy(mem, jobs[0]) {
      var j := jobs[0];
      var mem' := CopyJob(mem, j);
      assert AllZero(mem'[j.copy]) by {
        forall k | 0 <= k < |mem'[j.copy]| ensures mem'[j.copy][k] == 0 {
          if j.relAddr <= k < j.relAddr + j.size {
            assert mem'[j.copy][j.relAddr + (k - j.relAddr)] == mem[j.orig][k - j.relAddr];
          }
        }
      }
      ZerosStay(jobs[1..], mem', copies);
    }
  }

  // The shipped resolution never enters the tile at (i0, k0).
  lemma {:induction false} TailNotPlanned(ds: seq<Ds>, table: seq<CopyEntry>, mem: map<nat, seq<byte>>, i0: int, k0: int, j: Job)
    requires Shaped(ds) && TableShape(ds, table) && TableFits(ds, table, mem) && Ix(ds, i0, k0) && 0 < k0 && ds[i0].tiles.Some?
    requires j in Resolve(Shipped, ds, |ds|, AllJobs(table, |table|))
    ensures j.orig != At(ds, i0, k0).cap
    ensures Legit(ds, table, j)
  {
    var copies, n := CopyList(ds, table), |ds|;
    AllJobsPlanned(Shipped, ds, table, mem);
    ResolvePlanned(Shipped, ds, copies, n, AllJobs(table, |table|));
    assert Expected(Shipped, ds, copies, n, j);
    ExpectedIsLegit(Shipped, ds, table, j);
    if i: nat :| IsFull(ds, copies, n, i, j) {
      assert Slices(ds[i0])[k0].cap != ds[i].badge;
    } else {
      var i: nat, k: nat :| IsTile(Shipped, ds, copies, n, i, k, j);
      assert Slices(ds[i])[k].cap == j.orig;
    }
  }

  lemma FirstByteDiffers(badge: nat, t: Tile, table: seq<CopyEntry>, mem: map<nat, seq<byte>>)
    requires 0 < t.size && CopyOf(table, badge) in mem && t.cap in mem
    requires t.relAddr < |mem[CopyOf(table, badge)]| && 0 < |mem[t.cap]|
    requires mem[CopyOf(table, badge)][t.relAddr] != mem[t.cap][0]
    ensures !Clean(badge, t, table, mem)
  {
    assert mem[CopyOf(table, badge)][t.relAddr + 0] != mem[t.cap][0];
  }

  // Every entry of the shipped plan copies zeros, and to a copy.
  lemma {:induction false} PlanCopiesZeros(ds: seq<Ds>, table: seq<CopyEntry>, i0: int, k0: int, mem: map<nat, seq<byte>>, j: Job)
    requires Shaped(ds) && TableShape(ds, table) && Ix(ds, i0, k0) && 0 < k0 && ds[i0].tiles.Some?
    requires ZeroBut(ds, table, At(ds, i0, k0).cap, mem)
    requires j in Resolve(Shipped, ds, |ds|, AllJobs(table, |table|))
    ensures j.copy in CopyBadges(table) && j.orig !in CopyBadges(table) && j.orig in mem && AllZero(mem[j.orig])
  {
    TailNotPlanned(ds, table, mem, i0, k0, j);
    var i, k :| Ix(ds, i, k) && j == SliceJob(At(ds, i, k), CopyOf(table, ds[i].badge));
    SliceFits(ds, i, k);
    var e := EntryOf(ds, table, mem, i);
    assert e.copy in CopyBadges(table);
  }

  lemma TailMissed(ds: seq<Ds>, table: seq<CopyEntry>, i0: int, k0: int) returns (mem: map<nat, seq<byte>>)
    requires Shaped(ds) && TableShape(ds, table) && Ix(ds, i0, k0) && 0 < k0 && ds[i0].tiles.Some? && At(ds, i0, k0).attached
    ensures Possible(ds, table, mem) && !AllClean(ds, table, Checkpointed(Shipped, ds, table, mem))
  {
    mem := OneTileWritten(ds, table, At(ds, i0, k0).cap);
    OneTileIsZeroBut(ds, table, i0, k0);
    WrittenIsPossible(ds, table, i0, k0, mem);
    TileStaysUnsaved(ds, table, i0, k0, mem);
  }

  lemma TileStaysUnsaved(ds: seq<Ds>, table: seq<CopyEntry>, i0: int, k0: int, mem: map<nat, seq<byte>>)
    requires Shaped(ds) && TableShape(ds, table) && Ix(ds, i0, k0) && 0 < k0 && ds[i0].tiles.Some?
    requires ZeroBut(ds, table, At(ds, i0, k0).cap, mem)
    ensures !Clean(ds[i0].badge, At(ds, i0, k0), table, Checkpointed(Shipped, ds, table, mem))
  {
    var t, copies := At(ds, i0, k0), CopyBadges(table);
    var jobs := Resolve(Shipped, ds, |ds|, AllJobs(table, |table|));
    forall j | j in jobs ensures j.copy in copies && j.orig !in copies && j.orig in mem && AllZero(mem[j.orig]) {
      PlanCopiesZeros(ds, table, i0, k0, mem, j);
    }
    ZerosStay(jobs, mem, copies);
    TilesBelow(ds[i0].tiles.value, Align(ds[i0].size), k0);
    var e := EntryOf(ds, table, mem, i0);
    assert e.copy in copies && t.cap !in copies;
    SizeKept(jobs, mem, e.copy);
    FirstByteDiffers(ds[i0].badge, t, table, CopyAll(jobs, mem));
  }

  lemma {:induction false} SizeKept(jobs: seq<Job>, mem: map<nat, seq<byte>>, c: nat)
    requires c in mem
    ensures c in CopyAll(jobs, mem) && |CopyAll(jobs, mem)[c]| == |mem[c]|
    decreases jobs
  {
    if jobs != [] && CanCopy(mem, jobs[0]) {
      SizeKept(jobs[1..], CopyJob(mem, jobs[0]), c);
    }
  }

  // The shipped checkpoint is right for every content the child can have exactly if no managed
  // dataspace has an attached tile behind its first one; in particular if each has a single tile.
  lemma ShippedCompleteIff(ds: seq<Ds>, table: seq<CopyEntry>)
    requires Shaped(ds) && TableShape(ds, table)
    ensures (forall mem :: Possible(ds, table, mem) ==> AllClean(ds, table, Checkpointed(Shipped, ds, table, mem)))
            <==> (forall i :: 0 <= i < |ds| && ds[i].tiles.Some? ==> NoTailAttached(ds[i].tiles.value))
  {
    if ResolvesAll(Shipped, ds) {
      forall mem | Possible(ds, table, mem) ensures AllClean(ds, table, Checkpointed(Shipped, ds, table, mem)) {
        CompleteIfSameResolution(Shipped, ds, table, mem);
      }
    } else {
      var i :| 0 <= i < |ds| && ds[i].tiles.Some? && !NoTailAttached(ds[i].tiles.value);
      var k :| 0 < k < |ds[i].tiles.value| && ds[i].tiles.value[k].attached;
      assert Ix(ds, i, k);
      var mem := TailMissed(ds, table, i, k);
    }
  }

  // A fresh dataspace of two pages at granularity one: both tiles are attached, so the shipped
  // checkpoint saves the upper page only.
  lemma TwoFreshTilesLost() returns (mem: map<nat, seq<byte>>)
    ensures var ds := [Ds(1, 8192, Some([Tile(3, 4096, 4096, true), Tile(2, 0, 4096, true)]))];
      var table := [CopyEntry(1, 9, 8192, 1)];
      Possible(ds, table, mem) && !AllClean(ds, table, Checkpointed(Shipped, ds, table, mem))
  {
    var ts := [Tile(3, 4096, 4096, true), Tile(2, 0, 4096, true)];
    var ds, table := [Ds(1, 8192, Some(ts))], [CopyEntry(1, 9, 8192, 1)];
    assert Tiled(ts[1..][1..], 0) && Tiled(ts[1..], 4096) && Tiled(ts, Align(8192));
    assert Shaped(ds) && Complete(ds, table) by {
      assert ds[0].badge == table[0].orig;
    }
    assert Ix(ds, 0, 1);
    mem := TailMissed(ds, table, 0, 1);
  }
}
