// Incremental checkpointing as a state machine: the child runs and writes, the pager attaches tiles
// at any time, and a checkpoint goes through its phases while the child is paused.
//
// A detached tile has not changed since its content was copied, so only attached tiles are copied.
// The question is whether the copies nevertheless equal what a full copy would give.
module Incremental {
  import opened Variants
  import opened InfoList
  import opened Memory
  import opened Tiles
  import opened Pager
  import opened ManagedRam
  import opened CopyTable
  import opened MemoryPlan

  datatype Phase = Running | Paused | Marked | Scanned | Prepared | Resolved | Copying | Finished

  // mem is the content of every dataspace, copies included.  marked and marks belong to the
  // dataspace of the capability map while the checkpointer reads it.
  datatype State = State(ds: seq<Ds>, table: seq<CopyEntry>, mem: map<nat, seq<byte>>, phase: Phase,
                         marked: nat, marks: seq<nat>, jobs: seq<Job>)

  // Tile k of dataspace i exists.
  ghost predicate Ix(ds: seq<Ds>, i: int, k: int) {
    0 <= i < |ds| && 0 <= k < |Slices(ds[i])|
  }

  ghost function At(ds: seq<Ds>, i: int, k: int): Tile
    requires Ix(ds, i, k)
  {
    Slices(ds[i])[k]
  }

  // The copy of dataspace badge holds the current content of the tile at its place.
  ghost predicate Clean(badge: nat, t: Tile, table: seq<CopyEntry>, mem: map<nat, seq<byte>>) {
    && Lookup(table, badge).Some? && CopyOf(table, badge) in mem && t.cap in mem
    && SameSlice(mem[CopyOf(table, badge)], t.relAddr, mem[t.cap], t.size)
  }

  // ---- Shape ----

  ghost predicate Shaped(ds: seq<Ds>) {
    && DistinctBadges(ds)
    && (forall i :: 0 <= i < |ds| && ds[i].tiles.Some? ==> Tiled(ds[i].tiles.value, Align(ds[i].size)))
  }

  ghost predicate Backed(ds: seq<Ds>, mem: map<nat, seq<byte>>) {
    forall i, k :: Ix(ds, i, k) ==> At(ds, i, k).cap in mem && At(ds, i, k).size <= |mem[At(ds, i, k).cap]|
  }

  ghost predicate TableFits(ds: seq<Ds>, table: seq<CopyEntry>, mem: map<nat, seq<byte>>) {
    && DistinctOrigs(table)
    && (forall e :: e in table ==> e.copy in mem && Align(e.size) <= |mem[e.copy]|)
    && (forall e, e' :: e in table && e' in table && e.copy == e'.copy ==> e == e')
    && (forall e, i, k :: e in table && Ix(ds, i, k) ==> At(ds, i, k).cap != e.copy)
    && (forall e, i :: e in table && 0 <= i < |ds| && e.orig == ds[i].badge ==> e.size == ds[i].size)
  }

  // Only attached flags differ.
  ghost predicate SameShape(ds: seq<Ds>, ds': seq<Ds>) {
    && |ds'| == |ds|
    && (forall i :: 0 <= i < |ds| ==>
          ds'[i].badge == ds[i].badge && ds'[i].size == ds[i].size && (ds'[i].tiles.Some? <==> ds[i].tiles.Some?)
          && |Slices(ds'[i])| == |Slices(ds[i])|)
    && (forall i, k :: Ix(ds, i, k) ==> At(ds', i, k) == At(ds, i, k).(attached := At(ds', i, k).attached))
  }

  lemma SameShapeKeeps(ds: seq<Ds>, ds': seq<Ds>, table: seq<CopyEntry>, mem: map<nat, seq<byte>>)
    requires SameShape(ds, ds') && Shaped(ds) && Backed(ds, mem) && TableFits(ds, table, mem)
    ensures Shaped(ds') && Backed(ds', mem) && TableFits(ds', table, mem)
  {
    forall i, k | Ix(ds', i, k) ensures Ix(ds, i, k) && At(ds', i, k).cap == At(ds, i, k).cap && At(ds', i, k).size == At(ds, i, k).size {
      assert Ix(ds, i, k);
    }
    assert DistinctBadges(ds') by {
      forall i, k | 0 <= i < |ds'| && 0 <= k < |Slices(ds'[i])| ensures Slices(ds'[i])[k].cap == Slices(ds[i])[k].cap {
        assert Ix(ds', i, k);
      }
    }
    forall i | 0 <= i < |ds'| && ds'[i].tiles.Some? ensures Tiled(ds'[i].tiles.value, Align(ds'[i].size)) {
      forall k | 0 <= k < |ds[i].tiles.value| ensures
        ds'[i].tiles.value[k].relAddr == ds[i].tiles.value[k].relAddr && ds'[i].tiles.value[k].size == ds[i].tiles.value[k].size
      {
        assert Ix(ds, i, k);
      }
      FlagsKeepTiling(ds[i].tiles.value, ds'[i].tiles.value, Align(ds[i].size));
    }
  }

  // ---- Content ----

  ghost predicate AttachedOrClean(ds: seq<Ds>, table: seq<CopyEntry>, mem: map<nat, seq<byte>>) {
    forall i, k :: Ix(ds, i, k) ==> At(ds, i, k).attached || Clean(ds[i].badge, At(ds, i, k), table, mem)
  }

  ghost predicate MarkedClean(ds: seq<Ds>, marks: seq<nat>, table: seq<CopyEntry>, mem: map<nat, seq<byte>>) {
    forall i, k :: Ix(ds, i, k) && At(ds, i, k).cap in marks ==> Clean(ds[i].badge, At(ds, i, k), table, mem)
  }

  ghost predicate AllClean(ds: seq<Ds>, table: seq<CopyEntry>, mem: map<nat, seq<byte>>) {
    forall i, k :: Ix(ds, i, k) ==> Clean(ds[i].badge, At(ds, i, k), table, mem)
  }

  // Every known dataspace has a copy and every copy belongs to a known dataspace.
  ghost predicate Complete(ds: seq<Ds>, table: seq<CopyEntry>) {
    && (forall i :: 0 <= i < |ds| ==> Lookup(table, ds[i].badge).Some?)
    && (forall e :: e in table ==> exists i :: 0 <= i < |ds| && ds[i].badge == e.orig)
  }

  ghost predicate Legit(ds: seq<Ds>, table: seq<CopyEntry>, j: Job) {
    exists i, k :: Ix(ds, i, k) && j == SliceJob(At(ds, i, k), CopyOf(table, ds[i].badge))
  }

  // What is not yet saved is still to be copied, and nothing else is.
  ghost predicate CleanOrDue(ds: seq<Ds>, table: seq<CopyEntry>, mem: map<nat, seq<byte>>, jobs: seq<Job>) {
    && (forall i, k :: Ix(ds, i, k) ==>
          || Clean(ds[i].badge, At(ds, i, k), table, mem)
          || SliceJob(At(ds, i, k), CopyOf(table, ds[i].badge)) in jobs)
    && (forall j :: j in jobs ==> Legit(ds, table, j))
  }

  ghost predicate Inv(s: State) {
    && Shaped(s.ds) && Backed(s.ds, s.mem) && TableFits(s.ds, s.table, s.mem)
    && (s.phase in {Running, Paused, Marked, Scanned, Prepared} ==> AttachedOrClean(s.ds, s.table, s.mem))
    && (s.phase == Marked ==> MarkedClean(s.ds, s.marks, s.table, s.mem))
    && (s.phase in {Prepared, Resolved, Copying, Finished} ==> Complete(s.ds, s.table))
    && (s.phase == Prepared ==> s.jobs == AllJobs(s.table, |s.table|))
    && (s.phase in {Resolved, Copying} ==> CleanOrDue(s.ds, s.table, s.mem, s.jobs))
    && (s.phase == Finished ==> AllClean(s.ds, s.table, s.mem))
  }

  // ---- Steps ----

  ghost function WithTiles(ds: seq<Ds>, i: nat, ts: seq<Tile>): seq<Ds>
    requires i < |ds|
  {
    ds[i := ds[i].(tiles := Some(ts))]
  }

  ghost function Poke(m: seq<byte>, off: nat, b: byte): seq<byte>
    requires off < |m|
  {
    m[off := b]
  }

  // The child writes one byte of a tile that is attached; otherwise it faults and waits.
  ghost predicate ChildWrites(s: State, s': State, i: nat, k: nat, off: nat, b: byte) {
    && s.phase == Running && Ix(s.ds, i, k) && At(s.ds, i, k).attached && off < At(s.ds, i, k).size
    && At(s.ds, i, k).cap in s.mem && off < |s.mem[At(s.ds, i, k).cap]|
    && s' == s.(mem := s.mem[At(s.ds, i, k).cap := Poke(s.mem[At(s.ds, i, k).cap], off, b)])
  }

  // The pager attaches a tile; it runs on its own and may do so in every phase.
  ghost predicate PagerAttaches(s: State, s': State, i: nat, k: nat) {
    && i < |s.ds| && s.ds[i].tiles.Some? && k < |s.ds[i].tiles.value|
    && s' == s.(ds := WithTiles(s.ds, i, SetAttached(s.ds[i].tiles.value, k, true)))
  }

  ghost predicate SameContent(mem: map<nat, seq<byte>>, mem': map<nat, seq<byte>>) {
    forall c :: c in mem ==> c in mem' && mem'[c] == mem[c]
  }

  // A new dataspace of the child, or one of unknown origin that it attaches: all tiles attached, arbitrary
  // content, a badge that no other known dataspace has.
  ghost predicate Allocates(s: State, s': State, d: Ds) {
    && s.phase == Running
    && s'.ds == [d] + s.ds && s' == s.(ds := s'.ds, mem := s'.mem)
    && (forall t :: t in Slices(d) ==> t.attached)
    && SameContent(s.mem, s'.mem)
    && Shaped(s'.ds) && Backed(s'.ds, s'.mem) && TableFits(s'.ds, s'.table, s'.mem)
  }

  ghost predicate Frees(s: State, s': State, i: nat) {
    s.phase == Running && i < |s.ds| && s' == s.(ds := RemoveAt(s.ds, i))
  }

  ghost predicate Pauses(s: State, s': State) {
    s.phase in {Running, Finished} && s' == s.(phase := Paused)
  }

  // The dataspace of the capability map is attached as a whole before it is read.
  ghost predicate Marks(s: State, s': State, i: nat) {
    && s.phase == Paused && i < |s.ds|
    && if s.ds[i].tiles.Some? then
         var ts := s.ds[i].tiles.value;
         s' == s.(phase := Marked, ds := WithTiles(s.ds, i, AllSet(ts, true)), marked := i, marks := DetachedCaps(ts, |ts|))
       else
         s' == s.(phase := Marked, marked := i, marks := [])
  }

  ghost predicate Unmarks(s: State, s': State) {
    && s.phase == Marked && s.marked < |s.ds|
    && s' == s.(phase := Scanned,
                ds := if s.ds[s.marked].tiles.Some?
                      then WithTiles(s.ds, s.marked, DetachMarked(s.ds[s.marked].tiles.value, s.marks)) else s.ds)
  }

  // Only sizes of dataspaces without tiles differ: of a dataspace of unknown origin a checkpoint saves as
  // much as its copy was made for.
  ghost predicate Resized(ds: seq<Ds>, ds': seq<Ds>) {
    && |ds'| == |ds|
    && forall i :: 0 <= i < |ds| ==> ds'[i] == ds[i].(size := ds'[i].size) && (ds[i].tiles.Some? ==> ds'[i] == ds[i])
  }

  // The reconciliation of the stored state: copies of managed dataspaces are kept, new dataspaces get
  // new copies, copies of vanished ones are dropped.  A dataspace without tiles is saved as a whole, so
  // its copy may be replaced.
  ghost predicate Prepares(s: State, s': State) {
    && s.phase == Scanned
    && s' == s.(phase := Prepared, ds := s'.ds, table := s'.table, mem := s'.mem, jobs := AllJobs(s'.table, |s'.table|))
    && Resized(s.ds, s'.ds) && Backed(s'.ds, s'.mem)
    && TableFits(s'.ds, s'.table, s'.mem) && Complete(s'.ds, s'.table)
    && SameContent(s.mem, s'.mem)
    && (forall i :: 0 <= i < |s.ds| && s.ds[i].tiles.Some? && Lookup(s.table, s.ds[i].badge).Some? ==>
          CopyOf(s'.table, s.ds[i].badge) == CopyOf(s.table, s.ds[i].badge))
  }

  ghost predicate Resolves(v: Variant, s: State, s': State) {
    s.phase == Prepared && s' == s.(phase := Resolved, jobs := Resolve(v, s.ds, |s.ds|, s.jobs))
  }

  ghost function DetachedDs(ds: seq<Ds>): (r: seq<Ds>)
    ensures |r| == |ds|
    ensures forall i :: 0 <= i < |ds| ==>
      r[i] == if ds[i].tiles.Some? then ds[i].(tiles := Some(AllSet(ds[i].tiles.value, false))) else ds[i]
  {
    seq(|ds|, i requires 0 <= i < |ds| =>
      if ds[i].tiles.Some? then ds[i].(tiles := Some(AllSet(ds[i].tiles.value, false))) else ds[i])
  }

  ghost predicate Detaches(s: State, s': State) {
    s.phase == Resolved && s' == s.(phase := Copying, ds := DetachedDs(s.ds))
  }

  // _checkpoint_dataspace_content
  ghost predicate CanCopy(mem: map<nat, seq<byte>>, j: Job) {
    j.copy in mem && j.orig in mem && j.relAddr + j.size <= |mem[j.copy]| && j.size <= |mem[j.orig]|
  }

  ghost function CopyJob(mem: map<nat, seq<byte>>, j: Job): map<nat, seq<byte>>
    requires CanCopy(mem, j)
  {
    mem[j.copy := Blit(mem[j.copy], j.relAddr, mem[j.orig], j.size)]
  }

  ghost predicate CopiesNext(s: State, s': State) {
    && s.phase == Copying && s.jobs != [] && CanCopy(s.mem, s.jobs[0])
    && s' == s.(mem := CopyJob(s.mem, s.jobs[0]), jobs := s.jobs[1..])
  }

  ghost predicate Finishes(s: State, s': State) {
    s.phase == Copying && s.jobs == [] && s' == s.(phase := Finished)
  }

  // The documented end of a checkpoint; the shipped code has this call commented out.
  ghost predicate Resumes(s: State, s': State) {
    s.phase == Finished && s' == s.(phase := Running)
  }

  ghost predicate Next(v: Variant, s: State, s': State) {
    || (exists i, k, off, b :: ChildWrites(s, s', i, k, off, b))
    || (exists i, k :: PagerAttaches(s, s', i, k))
    || (exists d :: Allocates(s, s', d))
    || (exists i :: Frees(s, s', i))
    || Pauses(s, s')
    || (exists i :: Marks(s, s', i))
    || Unmarks(s, s')
    || Prepares(s, s')
    || Resolves(v, s, s')
    || Detaches(s, s')
    || CopiesNext(s, s')
    || Finishes(s, s')
    || Resumes(s, s')
  }

  ghost predicate Init(s: State) {
    s.ds == [] && s.table == [] && s.phase == Running && s.jobs == [] && s.marks == []
  }

  // ---- The invariant is kept by every step ----

  // Changing flags only: whatever was clean stays clean.
  lemma FlagsKeepClean(ds: seq<Ds>, ds': seq<Ds>, table: seq<CopyEntry>, mem: map<nat, seq<byte>>)
    requires SameShape(ds, ds')
    ensures forall i, k :: Ix(ds', i, k) <==> Ix(ds, i, k)
    ensures forall i, k :: Ix(ds, i, k) ==>
      (Clean(ds'[i].badge, At(ds', i, k), table, mem) <==> Clean(ds[i].badge, At(ds, i, k), table, mem))
    ensures forall i, k :: Ix(ds, i, k) ==>
      SliceJob(At(ds', i, k), CopyOf(table, ds'[i].badge)) == SliceJob(At(ds, i, k), CopyOf(table, ds[i].badge))
  {
    forall i, k | Ix(ds, i, k)
      ensures At(ds', i, k) == At(ds, i, k).(attached := At(ds', i, k).attached) && ds'[i].badge == ds[i].badge
    {
    }
  }

  lemma WithTilesShape(ds: seq<Ds>, i: nat, ts': seq<Tile>)
    requires i < |ds| && ds[i].tiles.Some? && |ts'| == |ds[i].tiles.value|
    requires forall k :: 0 <= k < |ts'| ==> ts'[k] == ds[i].tiles.value[k].(attached := ts'[k].attached)
    ensures SameShape(ds, WithTiles(ds, i, ts'))
    ensures forall j, k :: Ix(ds, j, k) ==> At(WithTiles(ds, i, ts'), j, k) == if j == i then ts'[k] else At(ds, j, k)
  {
    var ds' := WithTiles(ds, i, ts');
    forall j, k | Ix(ds, j, k) ensures Ix(ds', j, k) && At(ds', j, k) == if j == i then ts'[k] else At(ds, j, k) {
    }
  }

  // A step that only sets flags, and clears one only of a tile that is clean.
  lemma FlagStep(s: State, ds': seq<Ds>)
    requires Inv(s) && SameShape(s.ds, ds')
    requires s.phase in {Running, Paused, Marked, Scanned, Prepared} ==>
      forall i, k :: Ix(s.ds, i, k) && At(s.ds, i, k).attached && !At(ds', i, k).attached
        ==> Clean(s.ds[i].badge, At(s.ds, i, k), s.table, s.mem)
    ensures Inv(s.(ds := ds'))
  {
    SameShapeKeeps(s.ds, ds', s.table, s.mem);
    FlagsKeepClean(s.ds, ds', s.table, s.mem);
    forall i, k | Ix(ds', i, k) ensures Ix(s.ds, i, k) && At(ds', i, k).cap == At(s.ds, i, k).cap {
    }
    if s.phase in {Resolved, Copying} {
      forall j | j in s.jobs ensures Legit(ds', s.table, j) {
        var i, k :| Ix(s.ds, i, k) && j == SliceJob(At(s.ds, i, k), CopyOf(s.table, s.ds[i].badge));
        assert Ix(ds', i, k);
      }
    }
  }

  lemma PagerKeeps(s: State, s': State, i: nat, k: nat)
    requires Inv(s) && PagerAttaches(s, s', i, k)
    ensures Inv(s')
  {
    var ts := s.ds[i].tiles.value;
    WithTilesShape(s.ds, i, SetAttached(ts, k, true));
    FlagStep(s, s'.ds);
  }

  lemma MarkKeeps(s: State, s': State, i: nat)
    requires Inv(s) && Marks(s, s', i)
    ensures Inv(s')
  {
    if s.ds[i].tiles.Some? {
      var ts := s.ds[i].tiles.value;
      WithTilesShape(s.ds, i, AllSet(ts, true));
      FlagStep(s, s'.ds);
      FlagsKeepClean(s.ds, s'.ds, s.table, s.mem);
      forall j, l | Ix(s'.ds, j, l) && At(s'.ds, j, l).cap in s'.marks
        ensures Clean(s'.ds[j].badge, At(s'.ds, j, l), s'.table, s'.mem)
      {
        MarkedWasDetached(s.ds, i, j, l);
      }
    }
  }

  // A marked badge belongs to a tile that was detached.
  lemma MarkedWasDetached(ds: seq<Ds>, i: nat, j: nat, l: nat)
    requires DistinctBadges(ds) && i < |ds| && ds[i].tiles.Some? && Ix(ds, j, l)
    requires At(ds, j, l).cap in DetachedCaps(ds[i].tiles.value, |ds[i].tiles.value|)
    ensures !At(ds, j, l).attached
  {
    var ts := ds[i].tiles.value;
    MarkedIffDetached(ts, |ts|, At(ds, j, l).cap);
    var m :| 0 <= m < |ts| && !ts[m].attached && ts[m].cap == At(ds, j, l).cap;
    assert Slices(ds[i])[m].cap == Slices(ds[j])[l].cap;
  }

  lemma UnmarkKeeps(s: State, s': State)
    requires Inv(s) && Unmarks(s, s')
    ensures Inv(s')
  {
    var i := s.marked;
    if s.ds[i].tiles.Some? {
      var ts := s.ds[i].tiles.value;
      WithTilesShape(s.ds, i, DetachMarked(ts, s.marks));
      FlagStep(s, s'.ds);
    }
  }

  lemma DetachKeeps(s: State, s': State)
    requires Inv(s) && Detaches(s, s')
    ensures Inv(s')
  {
    forall i, k | Ix(s.ds, i, k)
      ensures Ix(s'.ds, i, k) && At(s'.ds, i, k) == At(s.ds, i, k).(attached := At(s'.ds, i, k).attached)
    {
    }
    FlagStep(s, s'.ds);
  }

  // The child writes to an attached tile; the tiles that must be clean are others.
  lemma WriteKeeps(s: State, s': State, i: nat, k: nat, off: nat, b: byte)
    requires Inv(s) && ChildWrites(s, s', i, k, off, b)
    ensures Inv(s')
  {
    var c := At(s.ds, i, k).cap;
    forall j, l | Ix(s.ds, j, l) && !At(s.ds, j, l).attached
      ensures Clean(s.ds[j].badge, At(s.ds, j, l), s.table, s'.mem)
    {
      assert Slices(s.ds[j])[l].cap != Slices(s.ds[i])[k].cap;
      LookupFinds(s.table, s.ds[j].badge);
      assert CopyOf(s.table, s.ds[j].badge) != c;
    }
  }

  lemma AllocKeeps(s: State, s': State, d: Ds)
    requires Inv(s) && Allocates(s, s', d)
    ensures Inv(s')
  {
    forall i, k | Ix(s'.ds, i, k)
      ensures At(s'.ds, i, k).attached || Clean(s'.ds[i].badge, At(s'.ds, i, k), s'.table, s'.mem)
    {
      if i == 0 {
        assert At(s'.ds, i, k) in Slices(d);
      } else {
        assert Ix(s.ds, i - 1, k) && At(s.ds, i - 1, k) == At(s'.ds, i, k);
      }
    }
  }

  lemma RemovalKeepsSlices(ds: seq<Ds>, i: nat)
    requires i < |ds|
    ensures forall j :: 0 <= j < |RemoveAt(ds, i)| ==> RemoveAt(ds, i)[j] == ds[Before(i, j)]
    ensures forall j, k :: Ix(RemoveAt(ds, i), j, k) ==> Ix(ds, Before(i, j), k) && At(RemoveAt(ds, i), j, k) == At(ds, Before(i, j), k)
  {
  }

  lemma RemovalKeepsShape(ds: seq<Ds>, i: nat)
    requires i < |ds| && Shaped(ds)
    ensures Shaped(RemoveAt(ds, i))
  {
    var ds' := RemoveAt(ds, i);
    RemovalKeepsSlices(ds, i);
    forall a, b, k, l | 0 <= a < |ds'| && 0 <= k < |Slices(ds'[a])| && 0 <= b < |ds'| && 0 <= l < |Slices(ds'[b])|
      ensures Slices(ds'[a])[k].cap == Slices(ds'[b])[l].cap ==> a == b && k == l
    {
      assert Slices(ds[Before(i, a)])[k].cap == Slices(ds[Before(i, b)])[l].cap ==> Before(i, a) == Before(i, b) && k == l;
    }
    forall a, j, k | 0 <= a < |ds'| && 0 <= j < |ds'| && 0 <= k < |Slices(ds'[j])| && ds'[j].tiles.Some?
      ensures Slices(ds'[j])[k].cap != ds'[a].badge
    {
      assert Slices(ds[Before(i, j)])[k].cap != ds[Before(i, a)].badge;
    }
  }

  lemma FreeKeeps(s: State, s': State, i: nat)
    requires Inv(s) && Frees(s, s', i)
    ensures Inv(s')
  {
    RemovalKeepsShape(s.ds, i);
    RemovalKeepsSlices(s.ds, i);
    assert TableFits(s'.ds, s.table, s.mem);
    assert Backed(s'.ds, s.mem);
  }

  lemma ResizedShape(ds: seq<Ds>, ds': seq<Ds>)
    requires Shaped(ds) && Resized(ds, ds')
    ensures Shaped(ds')
  {
    forall i | 0 <= i < |ds| ensures ds'[i].badge == ds[i].badge && |Slices(ds'[i])| == |Slices(ds[i])| {
    }
    forall i, k | 0 <= i < |ds| && 0 <= k < |Slices(ds[i])| ensures Slices(ds'[i])[k].cap == Slices(ds[i])[k].cap {
    }
  }

  lemma PrepareKeeps(s: State, s': State)
    requires Inv(s) && Prepares(s, s')
    ensures Inv(s')
  {
    ResizedShape(s.ds, s'.ds);
    forall i, k | Ix(s'.ds, i, k) && !At(s'.ds, i, k).attached
      ensures Clean(s'.ds[i].badge, At(s'.ds, i, k), s'.table, s'.mem)
    {
      assert s.ds[i].tiles.Some? && s'.ds[i] == s.ds[i] && Ix(s.ds, i, k);
      assert Clean(s.ds[i].badge, At(s.ds, i, k), s.table, s.mem);
      assert Lookup(s'.table, s.ds[i].badge).Some?;
    }
  }

  ghost function CopyList(ds: seq<Ds>, table: seq<CopyEntry>): (r: seq<nat>)
    ensures |r| == |ds| && forall i :: 0 <= i < |ds| ==> r[i] == CopyOf(table, ds[i].badge)
  {
    seq(|ds|, i requires 0 <= i < |ds| => CopyOf(table, ds[i].badge))
  }

  lemma EntryOf(ds: seq<Ds>, table: seq<CopyEntry>, mem: map<nat, seq<byte>>, i: int) returns (e: CopyEntry)
    requires TableFits(ds, table, mem) && 0 <= i < |ds| && Lookup(table, ds[i].badge).Some?
    ensures e in table && e.orig == ds[i].badge && e.copy == CopyOf(table, ds[i].badge) && e.size == ds[i].size
    ensures e.copy in mem && Align(ds[i].size) <= |mem[e.copy]|
  {
    LookupFinds(table, ds[i].badge);
    e := Lookup(table, ds[i].badge).value;
  }

  // The unresolved list has one entry for every dataspace.
  lemma {:induction false} AllJobsPlanned(v: Variant, ds: seq<Ds>, table: seq<CopyEntry>, mem: map<nat, seq<byte>>)
    requires Shaped(ds) && TableFits(ds, table, mem) && Complete(ds, table)
    ensures Planned(v, ds, CopyList(ds, table), 0, AllJobs(table, |table|))
  {
    var copies, jobs := CopyList(ds, table), AllJobs(table, |table|);
    AllJobsHas(table, |table|);
    forall j ensures j in jobs <==> Expected(v, ds, copies, 0, j) {
      if j in jobs {
        var m :| 0 <= m < |table| && j == EntryJob(table[m]);
        EntryIsExpected(v, ds, table, mem, table[m]);
      }
      if i: nat :| IsFull(ds, copies, 0, i, j) {
        var e := EntryOf(ds, table, mem, i);
        assert j == EntryJob(e);
      }
    }
  }

  lemma EntryIsExpected(v: Variant, ds: seq<Ds>, table: seq<CopyEntry>, mem: map<nat, seq<byte>>, e: CopyEntry)
    requires TableFits(ds, table, mem) && Complete(ds, table) && e in table
    ensures Expected(v, ds, CopyList(ds, table), 0, EntryJob(e))
  {
    var i :| 0 <= i < |ds| && ds[i].badge == e.orig;
    LookupIs(table, e);
    assert IsFull(ds, CopyList(ds, table), 0, i, EntryJob(e));
  }

  ghost predicate ResolvesAll(v: Variant, ds: seq<Ds>) {
    v.Intended? || forall i :: 0 <= i < |ds| && ds[i].tiles.Some? ==> NoTailAttached(ds[i].tiles.value)
  }

  lemma ResolveKeeps(v: Variant, s: State, s': State)
    requires Inv(s) && Resolves(v, s, s') && ResolvesAll(v, s.ds)
    ensures Inv(s')
  {
    if v.Shipped? {
      ResolveSame(s.ds, |s.ds|, s.jobs);
    }
    ResolveIntendedKeeps(s, s');
  }

  lemma ResolveIntendedKeeps(s: State, s': State)
    requires Inv(s) && Resolves(Intended, s, s')
    ensures Inv(s')
  {
    var copies, n := CopyList(s.ds, s.table), |s.ds|;
    AllJobsPlanned(Intended, s.ds, s.table, s.mem);
    ResolvePlanned(Intended, s.ds, copies, n, s.jobs);
    forall i, k | Ix(s.ds, i, k) && At(s.ds, i, k).attached
      ensures SliceJob(At(s.ds, i, k), CopyOf(s.table, s.ds[i].badge)) in s'.jobs
    {
      var j := SliceJob(At(s.ds, i, k), copies[i]);
      if s.ds[i].tiles.Some? {
        assert IsTile(Intended, s.ds, copies, n, i, k, j);
      } else {
        assert IsFull(s.ds, copies, n, i, j);
      }
      assert Expected(Intended, s.ds, copies, n, j);
    }
    forall j | j in s'.jobs ensures Legit(s.ds, s.table, j) {
      assert Expected(Intended, s.ds, copies, n, j);
      ExpectedIsLegit(Intended, s.ds, s.table, j);
    }
  }

  lemma ExpectedIsLegit(v: Variant, ds: seq<Ds>, table: seq<CopyEntry>, j: Job)
    requires Expected(v, ds, CopyList(ds, table), |ds|, j)
    ensures Legit(ds, table, j)
  {
    var copies, n := CopyList(ds, table), |ds|;
    if i: nat :| IsFull(ds, copies, n, i, j) {
      assert Ix(ds, i, 0) && j == SliceJob(At(ds, i, 0), CopyOf(table, ds[i].badge));
    } else {
      var i: nat, k: nat :| IsTile(v, ds, copies, n, i, k, j);
      assert Ix(ds, i, k) && j == SliceJob(At(ds, i, k), CopyOf(table, ds[i].badge));
    }
  }

  // ---- Copying ----

  // Every pending copy stays inside its two dataspaces.
  lemma {:induction false} CopyInBounds(ds: seq<Ds>, table: seq<CopyEntry>, mem: map<nat, seq<byte>>, i: int, k: int)
    requires Shaped(ds) && Backed(ds, mem) && TableFits(ds, table, mem) && Ix(ds, i, k)
    requires Lookup(table, ds[i].badge).Some?
    ensures CanCopy(mem, SliceJob(At(ds, i, k), CopyOf(table, ds[i].badge)))
  {
    var e := EntryOf(ds, table, mem, i);
    if ds[i].tiles.Some? {
      TilesBelow(ds[i].tiles.value, Align(ds[i].size), k);
    }
  }

  // Copying one tile makes it clean and leaves every clean tile clean.
  lemma {:induction false} CopyCleans(ds: seq<Ds>, table: seq<CopyEntry>, mem: map<nat, seq<byte>>, i0: int, k0: int, i: int, k: int)
    requires Shaped(ds) && Backed(ds, mem) && TableFits(ds, table, mem) && Ix(ds, i0, k0) && Ix(ds, i, k)
    requires Lookup(table, ds[i0].badge).Some? && Lookup(table, ds[i].badge).Some?
    requires CanCopy(mem, SliceJob(At(ds, i0, k0), CopyOf(table, ds[i0].badge)))
    requires (i == i0 && k == k0) || Clean(ds[i].badge, At(ds, i, k), table, mem)
    ensures Clean(ds[i].badge, At(ds, i, k), table, CopyJob(mem, SliceJob(At(ds, i0, k0), CopyOf(table, ds[i0].badge))))
  {
    var e := EntryOf(ds, table, mem, i);
    var e0 := EntryOf(ds, table, mem, i0);
    var t, t0 := At(ds, i, k), At(ds, i0, k0);
    assert t.cap != e0.copy && t0.cap != e0.copy;
    if i == i0 && k != k0 {
      TilesBelow(ds[i].tiles.value, Align(ds[i].size), k);
      TilesBelow(ds[i].tiles.value, Align(ds[i].size), k0);
    }
    if i != i0 {
      assert ds[i].badge != ds[i0].badge;
      assert e.copy != e0.copy;
    }
  }

  lemma CopyKeepsFit(ds: seq<Ds>, table: seq<CopyEntry>, mem: map<nat, seq<byte>>, j: Job)
    requires Backed(ds, mem) && TableFits(ds, table, mem) && CanCopy(mem, j)
    ensures Backed(ds, CopyJob(mem, j)) && TableFits(ds, table, CopyJob(mem, j))
  {
  }

  lemma CopyKeeps(s: State, s': State)
    requires Inv(s) && CopiesNext(s, s')
    ensures Inv(s')
  {
    var j := s.jobs[0];
    CopyKeepsFit(s.ds, s.table, s.mem, j);
    assert Legit(s.ds, s.table, j);
    var i0, k0 :| Ix(s.ds, i0, k0) && j == SliceJob(At(s.ds, i0, k0), CopyOf(s.table, s.ds[i0].badge));
    forall i, k | Ix(s.ds, i, k)
      ensures
        || Clean(s.ds[i].badge, At(s.ds, i, k), s.table, s'.mem)
        || SliceJob(At(s.ds, i, k), CopyOf(s.table, s.ds[i].badge)) in s'.jobs
    {
      var own := SliceJob(At(s.ds, i, k), CopyOf(s.table, s.ds[i].badge));
      if own == j {
        assert Slices(s.ds[i])[k].cap == Slices(s.ds[i0])[k0].cap;
      }
      if own == j || own !in s.jobs {
        CopyCleans(s.ds, s.table, s.mem, i0, k0, i, k);
      }
    }
  }

  lemma FinishKeeps(s: State, s': State)
    requires Inv(s) && Finishes(s, s')
    ensures Inv(s')
  {
  }

  // ---- Runs ----

  // The one place where the shipped code can go wrong is a resolution that meets an attached tile
  // behind the first one.
  ghost predicate Good(v: Variant, s: State, s': State) {
    Next(v, s, s') && (Resolves(v, s, s') ==> ResolvesAll(v, s.ds))
  }

  lemma NextKeeps(v: Variant, s: State, s': State)
    requires Inv(s) && Good(v, s, s')
    ensures Inv(s')
  {
    if i, k, off, b :| ChildWrites(s, s', i, k, off, b) {
      WriteKeeps(s, s', i, k, off, b);
    } else if i, k :| PagerAttaches(s, s', i, k) {
      PagerKeeps(s, s', i, k);
    } else if d :| Allocates(s, s', d) {
      AllocKeeps(s, s', d);
    } else if i :| Frees(s, s', i) {
      FreeKeeps(s, s', i);
    } else if i :| Marks(s, s', i) {
      MarkKeeps(s, s', i);
    } else if Unmarks(s, s') {
      UnmarkKeeps(s, s');
    } else if Prepares(s, s') {
      PrepareKeeps(s, s');
    } else if Resolves(v, s, s') {
      ResolveKeeps(v, s, s');
    } else if Detaches(s, s') {
      DetachKeeps(s, s');
    } else if CopiesNext(s, s') {
      CopyKeeps(s, s');
    } else if Finishes(s, s') {
      FinishKeeps(s, s');
    } else {
      assert Pauses(s, s') || Resumes(s, s');
    }
  }

  ghost predicate IsRun(v: Variant, run: seq<State>) {
    && run != [] && Init(run[0])
    && forall n :: 0 <= n < |run| - 1 ==> Good(v, run[n], run[n + 1])
  }

  lemma {:induction false} RunKeeps(v: Variant, run: seq<State>, n: nat)
    requires IsRun(v, run) && n < |run|
    ensures Inv(run[n])
  {
    if n > 0 {
      RunKeeps(v, run, n - 1);
      assert Good(v, run[n - 1], run[n - 1 + 1]);
      NextKeeps(v, run[n - 1], run[n]);
    }
  }

  // The byte the child reads at addr of dataspace d.
  ghost function ByteAt(d: Ds, mem: map<nat, seq<byte>>, addr: nat): Option<byte> {
    var k := FirstIndex(Slices(d), (t: Tile) => Contains(t, addr));
    if k < |Slices(d)| && Slices(d)[k].cap in mem && addr - Slices(d)[k].relAddr < |mem[Slices(d)[k].cap]|
    then Some(mem[Slices(d)[k].cap][addr - Slices(d)[k].relAddr]) else None
  }

  // How many bytes of d a checkpoint saves: all its pages if it is managed, its size if not.
  ghost function Extent(d: Ds): nat {
    if d.tiles.Some? then Align(d.size) else d.size
  }

  // Incremental equals full: in every run, whatever the child wrote, allocated and freed and whenever
  // the pager ran, each completed checkpoint leaves every dataspace with a copy of its own that
  // holds, byte by byte, the dataspace's current content.
  lemma CheckpointIsFull(v: Variant, run: seq<State>, n: nat, i: nat, addr: nat)
    requires IsRun(v, run) && n < |run| && run[n].phase == Finished
    requires i < |run[n].ds| && addr < Extent(run[n].ds[i])
    ensures var s := run[n];
      && Lookup(s.table, s.ds[i].badge).Some? && CopyOf(s.table, s.ds[i].badge) in s.mem
      && addr < |s.mem[CopyOf(s.table, s.ds[i].badge)]|
      && ByteAt(s.ds[i], s.mem, addr) == Some(s.mem[CopyOf(s.table, s.ds[i].badge)][addr])
  {
    RunKeeps(v, run, n);
    var s := run[n];
    var d := s.ds[i];
    var k := FirstIndex(Slices(d), (t: Tile) => Contains(t, addr));
    if d.tiles.Some? {
      ExactlyOneTile(d.tiles.value, Align(d.size), addr);
    } else {
      assert Contains(Slices(d)[0], addr);
    }
    assert k < |Slices(d)|;
    assert Ix(s.ds, i, k);
    var t := At(s.ds, i, k);
    assert Clean(d.badge, t, s.table, s.mem);
    assert s.mem[CopyOf(s.table, d.badge)][t.relAddr + (addr - t.relAddr)] == s.mem[t.cap][addr - t.relAddr];
  }
}
