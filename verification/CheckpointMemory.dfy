// The second half of a checkpoint: which memory to copy, detaching the tiles and copying
// (_create_memory_to_checkpoint, _resolve_inc_checkpoint_dataspaces, _detach_designated_dataspaces
// and _checkpoint_dataspaces of src/rtcr/checkpointer.cc).
module CheckpointMemory {
  import opened Variants
  import opened Folding
  import opened InfoList
  import opened Memory
  import opened Tiles
  import opened CopyTable
  import opened CopyRegistry
  import opened ManagedRam
  import opened RamSession
  import opened MemoryPlan
  import opened Incremental
  import opened IncrementalShipped

  // ---- The child's dataspaces as values ----

  ghost function DsOf(s: Session): (ds: seq<Ds>)
    requires s.Valid()
    reads s, s.Repr, s.counter
    ensures |ds| == |s.ramDataspaces|
    ensures forall i :: 0 <= i < |ds| ==> ds[i] == Ds(s.ramDataspaces[i].badge, s.ramDataspaces[i].size, s.TilesOf(i))
  {
    seq(|s.ramDataspaces|, i requires 0 <= i < |s.ramDataspaces| && s.Valid() reads s, s.Repr, s.counter =>
      Ds(s.ramDataspaces[i].badge, s.ramDataspaces[i].size, s.TilesOf(i)))
  }

  // Sessions share no object, and no session owns the counter of another.
  ghost predicate Apart(sessions: seq<Session>)
    reads sessions
  {
    forall i, j :: 0 <= i < |sessions| && 0 <= j < |sessions| && i != j ==>
      sessions[i].Repr !! sessions[j].Repr && sessions[i].counter !in sessions[j].Repr
  }

  ghost function Footprint(sessions: seq<Session>): set<object>
    reads sessions
  {
    set i, o | 0 <= i < |sessions| && o in sessions[i].Repr :: o
  }

  ghost function Counters(sessions: seq<Session>): set<object> {
    set i | 0 <= i < |sessions| :: sessions[i].counter
  }

  ghost predicate AllValid(sessions: seq<Session>)
    reads sessions, Footprint(sessions), Counters(sessions)
  {
    forall i :: 0 <= i < |sessions| ==> sessions[i].Valid()
  }

  ghost function Parts(sessions: seq<Session>): (ps: seq<seq<Ds>>)
    requires AllValid(sessions)
    reads sessions, Footprint(sessions), Counters(sessions)
    ensures |ps| == |sessions| && forall i :: 0 <= i < |ps| ==> ps[i] == DsOf(sessions[i])
  {
    seq(|sessions|, i requires 0 <= i < |sessions| && AllValid(sessions) reads sessions, Footprint(sessions), Counters(sessions) =>
      DsOf(sessions[i]))
  }

  // One session after the other.
  ghost function Flat(ps: seq<seq<Ds>>, n: nat): seq<Ds>
    requires n <= |ps|
  {
    if n == 0 then [] else Flat(ps, n - 1) + ps[n - 1]
  }

  ghost function AllDs(sessions: seq<Session>): seq<Ds>
    requires AllValid(sessions)
    reads sessions, Footprint(sessions), Counters(sessions)
  {
    Flat(Parts(sessions), |sessions|)
  }

  lemma Describes(sessions: seq<Session>, n: nat, i: nat)
    requires AllValid(sessions) && n < |sessions| && i < |sessions[n].ramDataspaces|
    ensures |Parts(sessions)[n]| == |sessions[n].ramDataspaces|
    ensures var d, value := sessions[n].ramDataspaces[i], Parts(sessions)[n][i];
      && value.badge == d.badge && (d.managed == null <==> value.tiles.None?)
      && (d.managed != null ==> d.managed.Owned() && d.managed.Tiles() == value.tiles.value)
  {
    assert Parts(sessions)[n] == DsOf(sessions[n]);
  }

  lemma PartLength(sessions: seq<Session>, n: nat)
    requires AllValid(sessions) && n < |sessions|
    ensures |Parts(sessions)[n]| == |sessions[n].ramDataspaces|
  {
    assert Parts(sessions)[n] == DsOf(sessions[n]);
  }

  // ---- Resolution ----

  lemma {:induction false} ShippedPush(ts: seq<Tile>, n: nat, copy: nat, jobs: seq<Job>)
    requires n <= |ts|
    ensures PushTiles(Shipped, ts, n, copy, jobs) == if n > 0 && ts[0].attached then [SliceJob(ts[0], copy)] + jobs else jobs
  {
    if n > 0 {
      ShippedPush(ts, n - 1, copy, jobs);
    }
  }

  lemma {:induction false} ResolveAppend(v: Variant, a: seq<Ds>, b: seq<Ds>, n: nat, jobs: seq<Job>)
    requires n <= |b|
    ensures Resolve(v, a + b, |a| + n, jobs) == Resolve(v, b, n, Resolve(v, a, |a|, jobs))
  {
    if n == 0 {
      ResolvePrefix(v, a, b, |a|, jobs);
    } else {
      ResolveAppend(v, a, b, n - 1, jobs);
      assert (a + b)[|a| + n - 1] == b[n - 1];
    }
  }

  lemma {:induction false} ResolvePrefix(v: Variant, a: seq<Ds>, b: seq<Ds>, n: nat, jobs: seq<Job>)
    requires n <= |a|
    ensures Resolve(v, a + b, n, jobs) == Resolve(v, a, n, jobs)
  {
    if n > 0 {
      ResolvePrefix(v, a, b, n - 1, jobs);
    }
  }

  method CreateMemoryToCheckpoint(copies: CopyDataspaces) returns (jobs: seq<Job>)
    requires copies.Valid()
    ensures jobs == AllJobs(copies.Table().table, |copies.Table().table|)
  {
    jobs := [];
    var i := 0;
    while i < |copies.infos|
      invariant 0 <= i <= |copies.infos| && jobs == AllJobs(copies.Table().table, i)
    {
      var info := copies.infos[i];
      jobs := [Job(info.orig, info.copy, 0, info.size)] + jobs;
      i := i + 1;
    }
  }

  // The entry of a managed dataspace gives way to an entry for its first tile, if that is attached.
  method ResolveDataspace(sessions: seq<Session>, n: nat, i: nat, jobs: seq<Job>) returns (r: seq<Job>)
    requires AllValid(sessions) && n < |sessions| && i < |sessions[n].ramDataspaces|
    ensures |Parts(sessions)[n]| == |sessions[n].ramDataspaces| && r == ResolveOne(Shipped, Parts(sessions)[n][i], jobs)
  {
    Describes(sessions, n, i);
    var d := sessions[n].ramDataspaces[i];
    r := jobs;
    if d.managed != null {
      var k := FindByOrig(jobs, d.badge);
      if k < |jobs| {
        var info := jobs[k];
        r := RemoveAt(jobs, k);
        ShippedPush(d.managed.Tiles(), |d.managed.Tiles()|, info.copy, r);
        if |d.managed.ddInfos| > 0 && d.managed.ddInfos[0].attached {
          var dd := d.managed.ddInfos[0];
          r := [Job(dd.cap, info.copy, dd.relAddr, dd.size)] + r;
        }
      }
    }
  }

  method ResolveSession(sessions: seq<Session>, n: nat, jobs: seq<Job>) returns (r: seq<Job>)
    requires AllValid(sessions) && n < |sessions|
    ensures r == Resolve(Shipped, Parts(sessions)[n], |Parts(sessions)[n]|, jobs)
  {
    r := jobs;
    ghost var ds := Parts(sessions)[n];
    PartLength(sessions, n);
    NoneResolved(ds, jobs);
    var count := |sessions[n].ramDataspaces|;
    var i := 0;
    while i < count
      invariant 0 <= i <= count && IsResolved(ds, i, jobs, r)
    {
      r := ResolveDataspaceNext(sessions, n, i, ds, jobs, r);
      i := i + 1;
    }
    AllResolved(ds, jobs, r);
  }

  method ResolveDataspaceNext(sessions: seq<Session>, n: nat, i: nat, ghost ds: seq<Ds>, ghost jobs: seq<Job>, r: seq<Job>)
    returns (r': seq<Job>)
    requires AllValid(sessions) && n < |sessions| && i < |sessions[n].ramDataspaces| && ds == Parts(sessions)[n]
    requires i < |ds| && IsResolved(ds, i, jobs, r)
    ensures IsResolved(ds, i + 1, jobs, r')
  {
    NextResolved(ds, i, jobs, r);
    r' := ResolveDataspace(sessions, n, i, r);
  }

  // The jobs after the first i dataspaces.  The quantifier keeps this folded.
  ghost predicate IsResolved(ds: seq<Ds>, i: nat, jobs: seq<Job>, r: seq<Job>)
    requires i <= |ds|
  {
    forall key: nat {:trigger Unfold(key)} :: Unfold(key) ==> r == Resolve(Shipped, ds, i, jobs)
  }

  lemma NoneResolved(ds: seq<Ds>, jobs: seq<Job>)
    ensures IsResolved(ds, 0, jobs, jobs)
  {
  }

  lemma {:induction false} AllResolved(ds: seq<Ds>, jobs: seq<Job>, r: seq<Job>)
    requires IsResolved(ds, |ds|, jobs, r)
    ensures r == Resolve(Shipped, ds, |ds|, jobs)
  {
    assert Unfold(0);
  }

  lemma {:induction false} NextResolved(ds: seq<Ds>, i: nat, jobs: seq<Job>, r: seq<Job>)
    requires i <= |ds| && IsResolved(ds, i, jobs, r)
    ensures r == Resolve(Shipped, ds, i, jobs)
    ensures i < |ds| ==> IsResolved(ds, i + 1, jobs, ResolveOne(Shipped, ds[i], r))
  {
    assert Unfold(0);
  }

  // The jobs after the first n sessions.
  ghost predicate ResolvedUpTo(ps: seq<seq<Ds>>, n: nat, jobs: seq<Job>, r: seq<Job>)
    requires n <= |ps|
  {
    r == Resolve(Shipped, Flat(ps, n), |Flat(ps, n)|, jobs)
  }

  lemma {:induction false} ResolvedNext(ps: seq<seq<Ds>>, n: nat, jobs: seq<Job>, r: seq<Job>)
    requires n < |ps| && ResolvedUpTo(ps, n, jobs, r)
    ensures ResolvedUpTo(ps, n + 1, jobs, Resolve(Shipped, ps[n], |ps[n]|, r))
  {
    ResolveAppend(Shipped, Flat(ps, n), ps[n], |ps[n]|, jobs);
  }

  method ResolveNext(sessions: seq<Session>, n: nat, ghost ps: seq<seq<Ds>>, ghost jobs: seq<Job>, r: seq<Job>) returns (r': seq<Job>)
    requires AllValid(sessions) && n < |sessions| && Parts(sessions) == ps && ResolvedUpTo(ps, n, jobs, r)
    ensures AllValid(sessions) && Parts(sessions) == ps && ResolvedUpTo(ps, n + 1, jobs, r')
  {
    ResolvedNext(ps, n, jobs, r);
    r' := ResolveSession(sessions, n, r);
    forall j | 0 <= j < |sessions| ensures sessions[j].Valid() && DsOf(sessions[j]) == ps[j] {
    }
  }

  method ResolveIncCheckpointDataspaces(sessions: seq<Session>, jobs: seq<Job>) returns (r: seq<Job>)
    requires AllValid(sessions)
    ensures AllValid(sessions) && Parts(sessions) == old(Parts(sessions))
    ensures r == Resolve(Shipped, AllDs(sessions), |AllDs(sessions)|, jobs)
  {
    r := jobs;
    ghost var ps := Parts(sessions);
    var i := 0;
    while i < |sessions|
      invariant 0 <= i <= |sessions| && AllValid(sessions) && Parts(sessions) == ps && ResolvedUpTo(ps, i, jobs, r)
    {
      r := ResolveNext(sessions, i, ps, jobs, r);
      i := i + 1;
    }
    UpToAll(sessions, jobs, r);
  }

  lemma {:induction false} UpToAll(sessions: seq<Session>, jobs: seq<Job>, r: seq<Job>)
    requires AllValid(sessions) && ResolvedUpTo(Parts(sessions), |sessions|, jobs, r)
    ensures r == Resolve(Shipped, AllDs(sessions), |AllDs(sessions)|, jobs)
  {
  }

  // ---- Detaching ----

  method DetachSession(s: Session)
    requires s.Valid()
    modifies s.Repr
    ensures s.Valid() && s.Repr == old(s.Repr) && DsOf(s) == DetachedDs(old(DsOf(s)))
  {
    ghost var ds := DsOf(s);
    var i := 0;
    while i < |s.ramDataspaces|
      invariant 0 <= i <= |s.ramDataspaces| && s.Valid() && s.Repr == old(s.Repr) && s.ramDataspaces == old(s.ramDataspaces)
      invariant forall j :: 0 <= j < i ==> s.TilesOf(j) == DetachedDs(ds)[j].tiles
      invariant forall j :: i <= j < |ds| ==> s.TilesOf(j) == ds[j].tiles
    {
      s.DetachTilesOf(i);
      i := i + 1;
    }
    assert DsOf(s) == DetachedDs(ds);
  }

  lemma DetachedAppend(a: seq<Ds>, b: seq<Ds>)
    ensures DetachedDs(a + b) == DetachedDs(a) + DetachedDs(b)
  {
    var l, r := DetachedDs(a + b), DetachedDs(a) + DetachedDs(b);
    forall i | 0 <= i < |l| ensures l[i] == r[i] {
      if i >= |a| {
        assert (a + b)[i] == b[i - |a|];
      }
    }
  }

  lemma {:induction false} FlatDetached(ps: seq<seq<Ds>>, ps': seq<seq<Ds>>, n: nat)
    requires |ps'| == |ps| && n <= |ps| && forall i :: 0 <= i < |ps| ==> ps'[i] == DetachedDs(ps[i])
    ensures Flat(ps', n) == DetachedDs(Flat(ps, n))
  {
    if n > 0 {
      FlatDetached(ps, ps', n - 1);
      DetachedAppend(Flat(ps, n - 1), ps[n - 1]);
    }
  }

  // The sessions still are what ps says; those in front of n have been detached.
  ghost predicate DetachedUpTo(sessions: seq<Session>, ps: seq<seq<Ds>>, n: nat)
    requires |ps| == |sessions| && AllValid(sessions)
    reads sessions, Footprint(sessions), Counters(sessions)
  {
    forall i :: 0 <= i < |sessions| ==> DsOf(sessions[i]) == if i < n then DetachedDs(ps[i]) else ps[i]
  }

  method DetachNext(sessions: seq<Session>, n: nat, ghost ps: seq<seq<Ds>>)
    requires AllValid(sessions) && Apart(sessions) && n < |sessions|
    requires |ps| == |sessions| && DetachedUpTo(sessions, ps, n)
    modifies sessions[n].Repr
    ensures forall i :: 0 <= i < |sessions| ==> sessions[i].Repr == old(sessions[i].Repr)
    ensures AllValid(sessions) && DetachedUpTo(sessions, ps, n + 1)
  {
    forall i | 0 <= i < |sessions| && i != n ensures sessions[i] !in sessions[n].Repr {
      assert sessions[i] in sessions[i].Repr;
    }
    DetachSession(sessions[n]);
    forall i | 0 <= i < |sessions| && i != n
      ensures sessions[i].Valid() && DsOf(sessions[i]) == old(DsOf(sessions[i]))
    {
      assert old(sessions[i].Repr !! sessions[n].Repr);
    }
  }

  method DetachDesignatedDataspaces(sessions: seq<Session>)
    requires AllValid(sessions) && Apart(sessions)
    modifies Footprint(sessions)
    ensures forall i :: 0 <= i < |sessions| ==> sessions[i].Repr == old(sessions[i].Repr)
    ensures AllValid(sessions) && AllDs(sessions) == DetachedDs(old(AllDs(sessions)))
  {
    ghost var ps := Parts(sessions);
    var i := 0;
    while i < |sessions|
      invariant 0 <= i <= |sessions| && forall j :: 0 <= j < |sessions| ==> sessions[j].Repr == old(sessions[j].Repr)
      invariant AllValid(sessions) && Apart(sessions) && DetachedUpTo(sessions, ps, i)
    {
      DetachNext(sessions, i, ps);
      i := i + 1;
    }
    FlatDetached(ps, Parts(sessions), |sessions|);
  }

  // ---- Copying ----

  // Content of the attached dataspaces.
  ghost function Contents(mem: map<nat, array<byte>>): (r: map<nat, seq<byte>>)
    reads mem.Values
    ensures r.Keys == mem.Keys && forall c :: c in mem ==> r[c] == mem[c][..]
  {
    map c | c in mem :: mem[c][..]
  }

  // Two badges never name the same memory.
  ghost predicate Unaliased(mem: map<nat, array<byte>>) {
    forall b, c :: b in mem && c in mem && mem[b] == mem[c] ==> b == c
  }

  // _checkpoint_dataspace_content
  method CopyContent(j: Job, mem: map<nat, array<byte>>)
    requires Unaliased(mem) && CanCopy(Contents(mem), j) && j.orig != j.copy
    modifies mem.Values
    ensures Contents(mem) == CopyJob(old(Contents(mem)), j)
  {
    var orig, copy := mem[j.orig], mem[j.copy];
    ghost var before := copy[..];
    assert orig != copy;
    var k := 0;
    while k < j.size
      invariant 0 <= k <= j.size
      invariant forall c :: c in mem && c != j.copy ==> mem[c][..] == old(mem[c][..])
      invariant forall n :: 0 <= n < copy.Length ==>
        copy[n] == if j.relAddr <= n < j.relAddr + k then orig[n - j.relAddr] else before[n]
    {
      copy[j.relAddr + k] := orig[k];
      k := k + 1;
    }
    BlitIs(before, j.relAddr, orig[..], j.size, copy[..]);
    assert Contents(mem) == CopyJob(old(Contents(mem)), j);
  }

  lemma BlitIs(dst: seq<byte>, off: nat, src: seq<byte>, n: nat, r: seq<byte>)
    requires off + n <= |dst| && n <= |src| && |r| == |dst|
    requires forall k :: 0 <= k < |r| ==> r[k] == if off <= k < off + n then src[k - off] else dst[k]
    ensures r == Blit(dst, off, src, n)
  {
    var b := Blit(dst, off, src, n);
    forall k | 0 <= k < |r| ensures r[k] == b[k] {
      if off <= k < off + n {
        assert b[off + (k - off)] == src[k - off];
      }
    }
  }

  ghost predicate AllCanCopy(mem: map<nat, seq<byte>>, jobs: seq<Job>) {
    forall j :: j in jobs ==> CanCopy(mem, j) && j.orig != j.copy
  }

  lemma CopyJobKeepsRoom(mem: map<nat, seq<byte>>, jobs: seq<Job>)
    requires jobs != [] && AllCanCopy(mem, jobs)
    ensures AllCanCopy(CopyJob(mem, jobs[0]), jobs[1..])
  {
    assert forall j :: j in jobs[1..] ==> j in jobs;
  }

  method CheckpointDataspaces(jobs: seq<Job>, mem: map<nat, array<byte>>)
    requires Unaliased(mem) && AllCanCopy(Contents(mem), jobs)
    modifies mem.Values
    ensures Contents(mem) == CopyAll(jobs, old(Contents(mem)))
  {
    ghost var c0 := Contents(mem);
    var i := 0;
    while i < |jobs|
      invariant 0 <= i <= |jobs| && AllCanCopy(Contents(mem), jobs[i..])
      invariant CopyAll(jobs[i..], Contents(mem)) == CopyAll(jobs, c0)
    {
      assert jobs[i..][0] == jobs[i] && jobs[i..][1..] == jobs[i + 1..];
      assert jobs[i] in jobs[i..];
      CopyJobKeepsRoom(Contents(mem), jobs[i..]);
      CopyContent(jobs[i], mem);
      i := i + 1;
    }
    assert jobs[i..] == [];
  }

  // Every entry of the resolved list copies a slice of a dataspace to a place inside its copy.
  lemma {:induction false} PlanCanCopy(ds: seq<Ds>, table: seq<CopyEntry>, mem: map<nat, seq<byte>>)
    requires Shaped(ds) && Complete(ds, table) && Possible(ds, table, mem)
    ensures AllCanCopy(mem, Resolve(Shipped, ds, |ds|, AllJobs(table, |table|)))
  {
    AllJobsPlanned(Shipped, ds, table, mem);
    ResolvePlanned(Shipped, ds, CopyList(ds, table), |ds|, AllJobs(table, |table|));
    forall j | j in Resolve(Shipped, ds, |ds|, AllJobs(table, |table|)) ensures CanCopy(mem, j) && j.orig != j.copy {
      assert Expected(Shipped, ds, CopyList(ds, table), |ds|, j);
      ExpectedIsLegit(Shipped, ds, table, j);
      var i, k :| Ix(ds, i, k) && j == SliceJob(At(ds, i, k), CopyOf(table, ds[i].badge));
      CopyInBounds(ds, table, mem, i, k);
      var e := EntryOf(ds, table, mem, i);
    }
  }

  // The plan of a checkpoint.
  method PlanMemory(copies: CopyDataspaces, sessions: seq<Session>) returns (jobs: seq<Job>)
    requires copies.Valid() && AllValid(sessions)
    ensures AllValid(sessions) && Parts(sessions) == old(Parts(sessions))
    ensures IsPlan(old(AllDs(sessions)), old(copies.Table().table), jobs)
  {
    ghost var ps := Parts(sessions);
    jobs := CreateMemoryToCheckpoint(copies);
    forall i | 0 <= i < |sessions| ensures sessions[i].Valid() && DsOf(sessions[i]) == ps[i] {
    }
    assert Parts(sessions) == ps;
    jobs := ResolveIncCheckpointDataspaces(sessions, jobs);
  }

  ghost predicate IsPlan(ds: seq<Ds>, table: seq<CopyEntry>, jobs: seq<Job>) {
    jobs == Resolve(Shipped, ds, |ds|, AllJobs(table, |table|))
  }

  lemma {:induction false} PlanFits(ds: seq<Ds>, table: seq<CopyEntry>, mem: map<nat, seq<byte>>, jobs: seq<Job>)
    requires Shaped(ds) && Complete(ds, table) && Possible(ds, table, mem) && IsPlan(ds, table, jobs)
    ensures AllCanCopy(mem, jobs) && CopyAll(jobs, mem) == Checkpointed(Shipped, ds, table, mem)
    ensures ResolvesAll(Shipped, ds) ==> AllClean(ds, table, CopyAll(jobs, mem))
  {
    PlanCanCopy(ds, table, mem);
    if ResolvesAll(Shipped, ds) {
      CompleteIfSameResolution(Shipped, ds, table, mem);
    }
  }

  // No session has memory of the dataspaces among its objects.
  ghost predicate OwnMemory(sessions: seq<Session>, mem: map<nat, array<byte>>)
    reads sessions
  {
    forall i :: 0 <= i < |sessions| ==> sessions[i].Repr !! mem.Values
  }

  method CopyBeside(sessions: seq<Session>, jobs: seq<Job>, mem: map<nat, array<byte>>)
    requires AllValid(sessions) && OwnMemory(sessions, mem)
    requires Unaliased(mem) && AllCanCopy(Contents(mem), jobs)
    modifies mem.Values
    ensures AllValid(sessions) && Parts(sessions) == old(Parts(sessions))
    ensures Contents(mem) == CopyAll(jobs, old(Contents(mem)))
  {
    ghost var ps := Parts(sessions);
    CheckpointDataspaces(jobs, mem);
    forall i | 0 <= i < |sessions| ensures sessions[i].Valid() && DsOf(sessions[i]) == ps[i] {
    }
  }

  method DetachAndCopy(sessions: seq<Session>, jobs: seq<Job>, mem: map<nat, array<byte>>)
    requires AllValid(sessions) && Apart(sessions) && OwnMemory(sessions, mem)
    requires Unaliased(mem) && AllCanCopy(Contents(mem), jobs)
    modifies Footprint(sessions), mem.Values
    ensures AllValid(sessions) && AllDs(sessions) == DetachedDs(old(AllDs(sessions)))
    ensures Contents(mem) == CopyAll(jobs, old(Contents(mem)))
  {
    ghost var c0 := Contents(mem);
    DetachDesignatedDataspaces(sessions);
    assert Contents(mem) == c0;
    CopyBeside(sessions, jobs, mem);
  }

  // Dataspaces without tiles are entered as a whole, whether or not a RAM session lists them.
  ghost predicate NoTiles(others: seq<Ds>) {
    forall i :: 0 <= i < |others| ==> others[i].tiles.None?
  }

  lemma {:induction false} ResolveNoTiles(others: seq<Ds>, n: nat, jobs: seq<Job>)
    requires NoTiles(others) && n <= |others|
    ensures Resolve(Shipped, others, n, jobs) == jobs
  {
    if n > 0 {
      ResolveNoTiles(others, n - 1, jobs);
    }
  }

  lemma PlanWithOthers(ds: seq<Ds>, others: seq<Ds>, table: seq<CopyEntry>, jobs: seq<Job>)
    requires NoTiles(others) && IsPlan(ds, table, jobs)
    ensures IsPlan(ds + others, table, jobs)
  {
    ResolveAppend(Shipped, ds, others, |others|, AllJobs(table, |table|));
    ResolveNoTiles(others, |others|, jobs);
  }

  lemma OthersResolved(ds: seq<Ds>, others: seq<Ds>)
    requires NoTiles(others) && ResolvesAll(Shipped, ds)
    ensures ResolvesAll(Shipped, ds + others)
  {
    assert forall i :: |ds| <= i < |ds + others| ==> (ds + others)[i] == others[i - |ds|];
  }

  // The memory phases of checkpoint(): all tiles end up detached, and the copies hold what the plan
  // with the shipped resolution gives, which is the whole content if no tile behind a first one was attached.
  // others are the dataspaces of unknown origin that the child has attached: they have copies as well.
  method CheckpointMemory(copies: CopyDataspaces, sessions: seq<Session>, mem: map<nat, array<byte>>, ghost others: seq<Ds>)
    requires copies.Valid() && AllValid(sessions) && Apart(sessions) && OwnMemory(sessions, mem) && Unaliased(mem)
    requires NoTiles(others) && Shaped(AllDs(sessions) + others) && Complete(AllDs(sessions) + others, copies.Table().table)
    requires Possible(AllDs(sessions) + others, copies.Table().table, Contents(mem))
    modifies Footprint(sessions), mem.Values
    ensures AllValid(sessions) && AllDs(sessions) == DetachedDs(old(AllDs(sessions)))
    ensures Contents(mem) == Checkpointed(Shipped, old(AllDs(sessions)) + others, old(copies.Table().table), old(Contents(mem)))
    ensures ResolvesAll(Shipped, old(AllDs(sessions))) ==>
      AllClean(old(AllDs(sessions)) + others, old(copies.Table().table), Contents(mem))
  {
    ghost var ds, table, c0 := AllDs(sessions), copies.Table().table, Contents(mem);
    var jobs := PlanMemory(copies, sessions);
    assert AllDs(sessions) == ds && Contents(mem) == c0;
    PlanWithOthers(ds, others, table, jobs);
    PlanFits(ds + others, table, c0, jobs);
    if ResolvesAll(Shipped, ds) {
      OthersResolved(ds, others);
    }
    DetachAndCopy(sessions, jobs, mem);
  }
}
