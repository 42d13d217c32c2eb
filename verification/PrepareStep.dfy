// The reconciliation of the stored state is the preparation phase of the incremental checkpoint: it leaves
// every dataspace to be saved with a copy of its own, and every managed one with the copy it had.
module PrepareStep {
  import opened Folding
  import opened InfoList
  import opened Memory
  import opened CapMap
  import opened CopyTable
  import opened Reconcile
  import opened ReconcileKeys
  import opened StoredState
  import opened StoredRegions
  import opened StoredStateMirror
  import opened StoredStateRefs
  import opened StoredStateRuns
  import opened StoredBadges
  import opened CopyMoves
  import opened Tiles
  import opened MemoryPlan
  import Inc = Incremental

  // ---- The size of a new copy ----

  // Every entry made with a copy from bound on has a size that fits its dataspace.
  ghost predicate NewSized(c: Copies, bound: nat, fits: (nat, nat) -> bool) {
    DistinctOrigs(c.table) && forall b :: Known(c, b) && bound <= CopyOf(c.table, b) ==> fits(b, SizeOf(c.table, b))
  }

  ghost predicate KeepsSizes<S(!new), L(!new)>(kind: Kind<S, L>, good: L -> bool, bound: nat, fits: (nat, nat) -> bool) {
    && (forall l, c :: good(l) && NewSized(c, bound, fits) ==> NewSized(kind.create(l, c).1, bound, fits))
    && (forall s, l, c :: good(l) && NewSized(c, bound, fits) ==> NewSized(kind.update(s, l, c).1, bound, fits))
    && (forall s, c :: NewSized(c, bound, fits) ==> NewSized(kind.destroy(s, c), bound, fits))
  }

  lemma AddRefSized(c: Copies, badge: nat, size: nat, bound: nat, fits: (nat, nat) -> bool)
    requires NewSized(c, bound, fits) && fits(badge, size)
    ensures NewSized(AddRef(c, badge, size), bound, fits)
  {
    AddRefDistinct(c, badge, size);
    forall b | Known(AddRef(c, badge, size), b) && bound <= CopyOf(AddRef(c, badge, size).table, b)
      ensures fits(b, SizeOf(AddRef(c, badge, size).table, b))
    {
      AddRefLookup(c, badge, size, b);
      assert Known(c, b) ==> CopyOf(AddRef(c, badge, size).table, b) == CopyOf(c.table, b);
    }
  }

  lemma DropRefSized(c: Copies, badge: nat, bound: nat, fits: (nat, nat) -> bool)
    requires NewSized(c, bound, fits)
    ensures NewSized(DropRef(c, badge), bound, fits)
  {
    DropRefDistinct(c, badge);
    forall b | Known(DropRef(c, badge), b) && bound <= CopyOf(DropRef(c, badge).table, b)
      ensures fits(b, SizeOf(DropRef(c, badge).table, b))
    {
      DropRefLookup(c, badge, b);
      assert Known(c, b) && CopyOf(DropRef(c, badge).table, b) == CopyOf(c.table, b);
    }
  }

  lemma {:induction false} Pass1Sized<S(!new), L(!new)>(kind: Kind<S, L>, good: L -> bool, bound: nat, fits: (nat, nat) -> bool,
                                                      stored: seq<S>, live: seq<L>, c: Copies)
    requires KeepsSizes(kind, good, bound, fits) && NewSized(c, bound, fits) && forall l :: l in live ==> good(l)
    ensures NewSized(Pass1(kind, stored, live, c).1, bound, fits)
    decreases |live|
  {
    if live != [] {
      var (stored', c') := Upsert(kind, stored, live[0], c);
      assert good(live[0]) && NewSized(c', bound, fits);
      Pass1Sized(kind, good, bound, fits, stored', live[1..], c');
    }
  }

  lemma {:induction false} Pass2Sized<S(!new), L(!new)>(kind: Kind<S, L>, good: L -> bool, bound: nat, fits: (nat, nat) -> bool,
                                                      stored: seq<S>, live: seq<L>, c: Copies)
    requires KeepsSizes(kind, good, bound, fits) && NewSized(c, bound, fits)
    ensures NewSized(Pass2(kind, stored, live, c).1, bound, fits)
    decreases |stored|
  {
    if stored != [] {
      if FindLive(kind, live, stored[0]) == |live| {
        Pass2Sized(kind, good, bound, fits, stored[1..], live, kind.destroy(stored[0], c));
      } else {
        Pass2Sized(kind, good, bound, fits, stored[1..], live, c);
      }
    }
  }

  lemma {:induction false} DestroyAllSized<S(!new), L(!new)>(kind: Kind<S, L>, good: L -> bool, bound: nat, fits: (nat, nat) -> bool,
                                                           stored: seq<S>, c: Copies)
    requires KeepsSizes(kind, good, bound, fits) && NewSized(c, bound, fits)
    ensures NewSized(DestroyAll(kind, stored, c), bound, fits)
    decreases |stored|
  {
    if stored != [] {
      DestroyAllSized(kind, good, bound, fits, stored[1..], kind.destroy(stored[0], c));
    }
  }

  lemma PrepareSized<S(!new), L(!new)>(kind: Kind<S, L>, good: L -> bool, bound: nat, fits: (nat, nat) -> bool,
                                       stored: seq<S>, live: seq<L>, c: Copies)
    requires KeepsSizes(kind, good, bound, fits) && NewSized(c, bound, fits) && forall l :: l in live ==> good(l)
    ensures NewSized(Prepare(kind, stored, live, c).1, bound, fits)
  {
    var (stored', c') := Pass1(kind, stored, live, c);
    Pass1Sized(kind, good, bound, fits, stored, live, c);
    Pass2Sized(kind, good, bound, fits, stored', live, c');
  }

  // The dataspaces and regions whose size may become that of a copy.
  ghost function GoodDs(fits: (nat, nat) -> bool): RamDs -> bool {
    (l: RamDs) => fits(l.badge, l.size)
  }

  ghost function GoodRam(fits: (nat, nat) -> bool): RamSession -> bool {
    (l: RamSession) => forall d :: d in l.kids ==> GoodDs(fits)(d)
  }

  ghost function GoodRegion(fits: (nat, nat) -> bool): Region -> bool {
    (l: Region) => fits(l.dsBadge, l.size)
  }

  ghost function GoodMap(fits: (nat, nat) -> bool): RegionMap -> bool {
    (l: RegionMap) => forall r :: r in l.kids ==> GoodRegion(fits)(r)
  }

  ghost function GoodRm(fits: (nat, nat) -> bool): RmSession -> bool {
    (l: RmSession) => forall m :: m in l.kids ==> GoodMap(fits)(m)
  }

  lemma RamSized(caps: seq<CapKcap>, bound: nat, fits: (nat, nat) -> bool)
    ensures KeepsSizes(RamSessionKind(caps), GoodRam(fits), bound, fits)
  {
    var child := RamDsKind(caps);
    forall l: RamDs, c: Copies | fits(l.badge, l.size) && NewSized(c, bound, fits) ensures NewSized(child.create(l, c).1, bound, fits) {
      AddRefSized(c, l.badge, l.size, bound, fits);
    }
    forall s: StoredRamDs, c: Copies | NewSized(c, bound, fits) ensures NewSized(child.destroy(s, c), bound, fits) {
      DropRefSized(c, s.badge, bound, fits);
    }
    assert KeepsSizes(child, GoodDs(fits), bound, fits);
    forall s: StoredRamSession, l: RamSession, c: Copies | GoodRam(fits)(l) && NewSized(c, bound, fits)
      ensures NewSized(RamSessionKind(caps).update(s, l, c).1, bound, fits)
    {
      PrepareSized(child, GoodDs(fits), bound, fits, s.kids, l.kids, c);
    }
    forall s: StoredRamSession, c: Copies | NewSized(c, bound, fits) ensures NewSized(RamSessionKind(caps).destroy(s, c), bound, fits) {
      DestroyAllSized(child, GoodDs(fits), bound, fits, s.kids, c);
    }
  }

  lemma MapSized(caps: seq<CapKcap>, maps: set<nat>, bound: nat, fits: (nat, nat) -> bool)
    ensures KeepsSizes(MapKind(caps, maps), GoodMap(fits), bound, fits)
  {
    var child := RegionKind(caps, maps);
    forall l: Region, c: Copies | fits(l.dsBadge, l.size) && NewSized(c, bound, fits) ensures NewSized(child.create(l, c).1, bound, fits) {
      AddRefSized(c, l.dsBadge, l.size, bound, fits);
    }
    forall s: StoredRegion, c: Copies | NewSized(c, bound, fits) ensures NewSized(child.destroy(s, c), bound, fits) {
      DropRefSized(c, s.dsBadge, bound, fits);
    }
    assert KeepsSizes(child, GoodRegion(fits), bound, fits);
    forall s: StoredMap, l: RegionMap, c: Copies | GoodMap(fits)(l) && NewSized(c, bound, fits)
      ensures NewSized(MapKind(caps, maps).update(s, l, c).1, bound, fits)
    {
      PrepareSized(child, GoodRegion(fits), bound, fits, s.kids, l.kids, c);
    }
    forall s: StoredMap, c: Copies | NewSized(c, bound, fits) ensures NewSized(MapKind(caps, maps).destroy(s, c), bound, fits) {
      DestroyAllSized(child, GoodRegion(fits), bound, fits, s.kids, c);
    }
  }

  lemma RmSized(caps: seq<CapKcap>, maps: set<nat>, bound: nat, fits: (nat, nat) -> bool)
    ensures KeepsSizes(RmSessionKind(caps, maps), GoodRm(fits), bound, fits)
    ensures KeepsSizes(PdSessionKind(caps, maps), GoodRm(fits), bound, fits)
  {
    var child := MapKind(caps, maps);
    MapSized(caps, maps, bound, fits);
    forall s: StoredRmSession, l: RmSession, c: Copies | GoodRm(fits)(l) && NewSized(c, bound, fits)
      ensures NewSized(RmSessionKind(caps, maps).update(s, l, c).1, bound, fits)
      ensures NewSized(PdSessionKind(caps, maps).update(s, l, c).1, bound, fits)
    {
      PrepareSized(child, GoodMap(fits), bound, fits, s.kids, l.kids, c);
    }
    forall s: StoredRmSession, c: Copies | NewSized(c, bound, fits)
      ensures NewSized(RmSessionKind(caps, maps).destroy(s, c), bound, fits) && NewSized(PdSessionKind(caps, maps).destroy(s, c), bound, fits)
    {
      DestroyAllSized(child, GoodMap(fits), bound, fits, s.kids, c);
      DestroyAllSized(child, GoodMap(fits), bound, fits, Reverse(s.kids), c);
    }
  }

  // ---- The entries after a checkpoint ----

  ghost predicate RamSizedAs(w: World, b: nat, n: nat) {
    exists l, d :: l in w.ram && d in l.kids && d.badge == b && d.size == n
  }

  ghost predicate RegionSizedAs(rm: seq<RmSession>, b: nat, n: nat) {
    exists l, m, r :: l in rm && m in l.kids && r in m.kids && r.dsBadge == b && r.size == n
  }

  ghost function RamSizeFits(w: World): (nat, nat) -> bool {
    (b: nat, n: nat) => RamSizedAs(w, b, n)
  }

  ghost function AnySizeFits(w: World): (nat, nat) -> bool {
    (b: nat, n: nat) => RamSizedAs(w, b, n) || RegionSizedAs(w.pd, b, n) || RegionSizedAs(w.rm, b, n)
  }

  lemma NothingNew(c: Copies, refs: multiset<nat>, managed: set<nat>, fits: (nat, nat) -> bool)
    requires Exact(c, refs, managed)
    ensures NewSized(c, c.next, fits) && Numbered(c)
  {
  }

  lemma RamGood(w: World)
    ensures forall l :: l in w.ram ==> GoodRam(RamSizeFits(w))(l) && GoodRam(AnySizeFits(w))(l)
  {
    forall l, d | l in w.ram && d in l.kids ensures GoodDs(RamSizeFits(w))(d) && GoodDs(AnySizeFits(w))(d) {
      assert RamSizedAs(w, d.badge, d.size);
    }
  }

  lemma RmGood(w: World)
    ensures forall l :: l in w.pd || l in w.rm ==> GoodRm(AnySizeFits(w))(l)
  {
    forall l, m | (l in w.pd || l in w.rm) && m in l.kids ensures GoodMap(AnySizeFits(w))(m) {
      forall r | r in m.kids ensures GoodRegion(AnySizeFits(w))(r) {
        assert RegionSizedAs(w.pd, r.dsBadge, r.size) || RegionSizedAs(w.rm, r.dsBadge, r.size);
      }
    }
  }

  // A copy made in a checkpoint has the size of a dataspace or region of the child.
  lemma NewCopiesSized(s: Stored, w: World, c: Copies, refs: multiset<nat>, managed: set<nat>)
    requires Exact(c, refs, managed)
    ensures NewSized(Prepare(RamSessionKind(w.caps), s.ram, w.ram, c).1, c.next, RamSizeFits(w))
    ensures NewSized(Checkpoint(s, w, c).1, c.next, AnySizeFits(w))
  {
    var c1 := Prepare(RamSessionKind(w.caps), s.ram, w.ram, c).1;
    var c2 := Prepare(PdSessionKind(w.caps, Maps(w)), s.pd, w.pd, c1).1;
    RamGood(w);
    RmGood(w);
    NothingNew(c, refs, managed, RamSizeFits(w));
    NothingNew(c, refs, managed, AnySizeFits(w));
    RamSized(w.caps, c.next, RamSizeFits(w));
    RamSized(w.caps, c.next, AnySizeFits(w));
    RmSized(w.caps, Maps(w), c.next, AnySizeFits(w));
    PrepareSized(RamSessionKind(w.caps), GoodRam(RamSizeFits(w)), c.next, RamSizeFits(w), s.ram, w.ram, c);
    PrepareSized(RamSessionKind(w.caps), GoodRam(AnySizeFits(w)), c.next, AnySizeFits(w), s.ram, w.ram, c);
    PrepareSized(PdSessionKind(w.caps, Maps(w)), GoodRm(AnySizeFits(w)), c.next, AnySizeFits(w), s.pd, w.pd, c1);
    PrepareSized(RmSessionKind(w.caps, Maps(w)), GoodRm(AnySizeFits(w)), c.next, AnySizeFits(w), s.rm, w.rm, c2);
  }

  // The phases after the first keep the copies of everything a RAM record refers to.
  lemma LaterPhasesKeepRam(s: Stored, w: World, c: Copies, managed: set<nat>)
    requires Consistent(s, c, Maps(w), managed) && Admissible(w, managed)
    ensures var c1 := Prepare(PdSessionKind(w.caps, Maps(w)), s.pd, w.pd, c).1;
      Stable(c, Prepare(RmSessionKind(w.caps, Maps(w)), s.rm, w.rm, c1).1, AllRefs(RamAccount(managed), s.ram))
  {
    var a, m := RamAccount(managed), RmAccount(Maps(w), managed);
    var rest := AllRefs(a, s.ram) + AllRefs(m, s.rm);
    assert rest + AllRefs(m, s.pd) == StateRefs(s, Maps(w), managed);
    RmExact(s.pd, w, true, c, managed, rest);
    var (pd, c1) := Prepare(PdSessionKind(w.caps, Maps(w)), s.pd, w.pd, c);
    PdPhase(s, w, c, managed);
    var rest1 := AllRefs(a, s.ram) + AllRefs(m, pd);
    RmExact(s.rm, w, false, c1, managed, rest1);
    StableLess(c, c1, rest, AllRefs(a, s.ram));
    StableLess(c1, Prepare(RmSessionKind(w.caps, Maps(w)), s.rm, w.rm, c1).1, rest1, AllRefs(a, s.ram));
  }

  // The entry of a RAM dataspace: there is one, and it is the one from before or has the dataspace's size.
  lemma RamEntrySized(s: Stored, w: World, c: Copies, maps: set<nat>, managed: set<nat>, b: nat)
    requires Consistent(s, c, maps, managed) && Admissible(w, managed) && WellFormed(w) && Clear(s, w) && RamLive(w.ram, b)
    ensures var c' := Checkpoint(s, w, c).1; Same(c, c', b) || (Known(c', b) && RamSizedAs(w, b, SizeOf(c'.table, b)))
  {
    var (ram, c1) := Prepare(RamSessionKind(w.caps), s.ram, w.ram, c);
    var c' := Checkpoint(s, w, c).1;
    MapsDoNotMatter(s, c, maps, Maps(w), managed);
    RamPhase(s, w, c, managed);
    RamPrepared(w.caps, s.ram, w.ram, c);
    RamRecordIffLive(ram, w.ram, b);
    RamRefsHas(managed, ram, b);
    NewCopiesSized(s, w, c, StateRefs(s, Maps(w), managed), managed);
    CheckpointWorks(s, w, c);
    NothingNew(c, StateRefs(s, Maps(w), managed), managed, RamSizeFits(w));
    LaterPhasesKeepRam(s.(ram := ram), w, c1, managed);
    CheckpointConsistent(s, w, c, maps, managed);
    InRefs(AllRefs(RamAccount(managed), ram), StateRefs(s.(ram := ram), Maps(w), managed), b);
    InRefs(AllRefs(RamAccount(managed), ram), StateRefs(Checkpoint(s, w, c).0, Maps(w), managed), b);
    assert Known(c1, b) && Known(c', b);
    assert RamSizeFits(w)(b, SizeOf(c1.table, b)) || Same(c, c1, b);
  }

  // ---- The step ----

  // ds are the dataspaces to be saved: those of the RAM sessions, managed or not, and the other attached ones.
  ghost predicate Lists(ds: seq<Ds>, w: World) {
    && (forall i :: 0 <= i < |ds| ==> Saved(w, ds[i].badge) && (RamLive(w.ram, ds[i].badge) || ds[i].tiles.None?))
    && (forall b :: Saved(w, b) ==> exists i :: 0 <= i < |ds| && ds[i].badge == b)
    && (forall i, l, d :: 0 <= i < |ds| && l in w.ram && d in l.kids && d.badge == ds[i].badge ==>
          d.size == ds[i].size && (d.managed <==> ds[i].tiles.Some?))
  }

  // A RAM dataspace stays in the session that has allocated it.
  ghost predicate OneSession(ram: seq<StoredRamSession>, live: seq<RamSession>) {
    forall s, d, l, e :: s in ram && d in s.kids && l in live && e in l.kids && e.badge == d.badge ==> l.head.badge == s.head.badge
  }

  // Memory for the copies made is granted, under badges not in use.
  ghost predicate Granted(mem: map<nat, seq<byte>>, c: Copies, c': Copies, mem': map<nat, seq<byte>>) {
    && Inc.SameContent(mem, mem')
    && forall e :: e in c'.table && c.next <= e.copy ==> e.copy !in mem && e.copy in mem' && Align(e.size) <= |mem'[e.copy]|
  }

  // A region shows no more than there is of its dataspace.
  ghost predicate Fitting(w: World, mem: map<nat, seq<byte>>) {
    forall b: nat, n: nat :: (RegionSizedAs(w.pd, b, n) || RegionSizedAs(w.rm, b, n)) && b in mem ==> n <= |mem[b]|
  }

  // What is saved of a dataspace that no RAM session lists is as much as its copy is made for.
  ghost function Resize(ds: seq<Ds>, w: World, table: seq<CopyEntry>): (r: seq<Ds>)
    ensures |r| == |ds|
    ensures forall i :: 0 <= i < |ds| ==>
      r[i] == if RamLive(w.ram, ds[i].badge) then ds[i] else ds[i].(size := SizeOf(table, ds[i].badge))
  {
    seq(|ds|, i requires 0 <= i < |ds| =>
      if RamLive(w.ram, ds[i].badge) then ds[i] else ds[i].(size := SizeOf(table, ds[i].badge)))
  }

  // What the reconciliation relies on: of the stored state and the child, and of the state machine.
  // The quantifier keeps this folded; OpenReady unfolds it.
  ghost predicate Ready(s: Stored, w: World, c: Copies, maps: set<nat>, managed: set<nat>, st: Inc.State, mem': map<nat, seq<byte>>) {
    forall key: nat {:trigger Unfold(key)} :: Unfold(key) ==>
      && Consistent(s, c, maps, managed) && Admissible(w, managed) && WellFormed(w) && Clear(s, w) && OneSession(s.ram, w.ram)
      && Inc.Inv(st) && st.phase == Inc.Scanned && st.table == c.table
      && Lists(st.ds, w) && Fitting(w, st.mem) && Granted(st.mem, c, Checkpoint(s, w, c).1, mem')
  }

  lemma OpenReady(s: Stored, w: World, c: Copies, maps: set<nat>, managed: set<nat>, st: Inc.State, mem': map<nat, seq<byte>>)
    ensures Ready(s, w, c, maps, managed, st, mem') <==>
      && Consistent(s, c, maps, managed) && Admissible(w, managed) && WellFormed(w) && Clear(s, w) && OneSession(s.ram, w.ram)
      && Inc.Inv(st) && st.phase == Inc.Scanned && st.table == c.table
      && Lists(st.ds, w) && Fitting(w, st.mem) && Granted(st.mem, c, Checkpoint(s, w, c).1, mem')
  {
    assert Unfold(0);
  }

  ghost predicate OwnCopies(c: Copies) {
    forall b, b' :: Known(c, b) && Known(c, b') && CopyOf(c.table, b) == CopyOf(c.table, b') ==> b == b'
  }

  // What is known of the table c' that the reconciliation leaves.
  ghost predicate Leaves(w: World, c: Copies, c': Copies, st: Inc.State, mem': map<nat, seq<byte>>) {
    && Inc.Backed(st.ds, st.mem) && Inc.TableFits(st.ds, c.table, st.mem)
    && Numbered(c) && Numbered(c') && Works(c, c') && OwnCopies(c') && NewSized(c', c.next, AnySizeFits(w))
    && (forall b: nat :: Known(c', b) <==> Saved(w, b))
    && Lists(st.ds, w) && Fitting(w, st.mem) && Granted(st.mem, c, c', mem')
    && (forall i :: 0 <= i < |st.ds| && RamLive(w.ram, st.ds[i].badge) ==> st.ds[i].size == SizeOf(c'.table, st.ds[i].badge))
  }

  ghost function PreparedState(s: Stored, w: World, c: Copies, st: Inc.State, mem': map<nat, seq<byte>>): Inc.State {
    var t := Checkpoint(s, w, c).1.table;
    st.(phase := Inc.Prepared, ds := Resize(st.ds, w, t), table := t, mem := mem', jobs := AllJobs(t, |t|))
  }

  lemma SavedHasEntry(s: Stored, w: World, c: Copies, maps: set<nat>, managed: set<nat>)
    requires Consistent(s, c, maps, managed) && Admissible(w, managed) && WellFormed(w) && Clear(s, w)
    ensures var c' := Checkpoint(s, w, c).1;
      Numbered(c) && Numbered(c') && Works(c, c') && OwnCopies(c') && NewSized(c', c.next, AnySizeFits(w))
    ensures forall b: nat :: Known(Checkpoint(s, w, c).1, b) <==> Saved(w, b)
  {
    CheckpointConsistent(s, w, c, maps, managed);
    CheckpointMirrors(s, w, c);
    CheckpointWorks(s, w, c);
    NothingNew(c, StateRefs(s, maps, managed), managed, AnySizeFits(w));
    NewCopiesSized(s, w, c, StateRefs(s, maps, managed), managed);
    forall b: nat ensures Known(Checkpoint(s, w, c).1, b) <==> Saved(w, b) {
      EntryIffSaved(Checkpoint(s, w, c).0, w, Checkpoint(s, w, c).1, managed, b);
    }
  }

  // An entry from before, found again.
  lemma OldEntry(c: Copies, c': Copies, e: CopyEntry) returns (e0: CopyEntry)
    requires Numbered(c) && Numbered(c') && Works(c, c') && e in c'.table && e.copy < c.next
    ensures e0 in c.table && e0.orig == e.orig && e0.copy == e.copy && e0.size == e.size
  {
    LookupIs(c'.table, e);
    assert Same(c, c', e.orig);
    LookupFinds(c.table, e.orig);
    e0 := Lookup(c.table, e.orig).value;
  }

  // Before the step an entry of a listed dataspace has its size.
  lemma OldSize(st: Inc.State, i: int)
    requires Inc.Inv(st) && 0 <= i < |st.ds| && Lookup(st.table, st.ds[i].badge).Some?
    ensures SizeOf(st.table, st.ds[i].badge) == st.ds[i].size
  {
    var e := Inc.EntryOf(st.ds, st.table, st.mem, i);
    LookupFinds(st.table, st.ds[i].badge);
    LookupIs(st.table, e);
  }

  lemma RamSize(s: Stored, w: World, c: Copies, maps: set<nat>, managed: set<nat>, st: Inc.State, i: int)
    requires Consistent(s, c, maps, managed) && Admissible(w, managed) && WellFormed(w) && Clear(s, w)
    requires Inc.Inv(st) && st.table == c.table && Lists(st.ds, w) && 0 <= i < |st.ds| && RamLive(w.ram, st.ds[i].badge)
    ensures st.ds[i].size == SizeOf(Checkpoint(s, w, c).1.table, st.ds[i].badge)
  {
    RamEntrySized(s, w, c, maps, managed, st.ds[i].badge);
    if Known(c, st.ds[i].badge) {
      OldSize(st, i);
    }
  }

  lemma ReadyLeaves(s: Stored, w: World, c: Copies, maps: set<nat>, managed: set<nat>, st: Inc.State, mem': map<nat, seq<byte>>)
    requires Ready(s, w, c, maps, managed, st, mem')
    ensures Leaves(w, c, Checkpoint(s, w, c).1, st, mem')
  {
    OpenReady(s, w, c, maps, managed, st, mem');
    SavedHasEntry(s, w, c, maps, managed);
    forall i | 0 <= i < |st.ds| && RamLive(w.ram, st.ds[i].badge)
      ensures st.ds[i].size == SizeOf(Checkpoint(s, w, c).1.table, st.ds[i].badge)
    {
      RamSize(s, w, c, maps, managed, st, i);
    }
  }

  lemma OtherFits(w: World, c: Copies, c': Copies, st: Inc.State, mem': map<nat, seq<byte>>, i: int)
    requires Leaves(w, c, c', st, mem') && 0 <= i < |st.ds| && !RamLive(w.ram, st.ds[i].badge)
    ensures st.ds[i].badge in st.mem && SizeOf(c'.table, st.ds[i].badge) <= |st.mem[st.ds[i].badge]|
  {
    var b := st.ds[i].badge;
    assert Inc.Ix(st.ds, i, 0) && Inc.At(st.ds, i, 0) == Tile(b, 0, st.ds[i].size, true);
    assert Saved(w, b) && Known(c', b);
    if Same(c, c', b) {
      LookupFinds(c.table, b);
      assert SizeOf(c.table, b) == st.ds[i].size;
    } else {
      assert AnySizeFits(w)(b, SizeOf(c'.table, b));
      assert !RamSizedAs(w, b, SizeOf(c'.table, b));
    }
  }

  // Sizes do not matter for the tiles of a dataspace.
  lemma ResizeSlices(ds: seq<Ds>, w: World, table: seq<CopyEntry>)
    requires Lists(ds, w)
    ensures Inc.Resized(ds, Resize(ds, w, table))
    ensures forall i, k :: Inc.Ix(Resize(ds, w, table), i, k) ==>
      && Inc.Ix(ds, i, k) && Inc.At(Resize(ds, w, table), i, k).cap == Inc.At(ds, i, k).cap
      && (RamLive(w.ram, ds[i].badge) ==> Inc.At(Resize(ds, w, table), i, k) == Inc.At(ds, i, k))
      && (!RamLive(w.ram, ds[i].badge) ==> Inc.At(Resize(ds, w, table), i, k) == Tile(ds[i].badge, 0, SizeOf(table, ds[i].badge), true))
  {
  }

  lemma StepBacked(w: World, c: Copies, c': Copies, st: Inc.State, mem': map<nat, seq<byte>>)
    requires Leaves(w, c, c', st, mem')
    ensures Inc.Backed(Resize(st.ds, w, c'.table), mem')
  {
    var ds := Resize(st.ds, w, c'.table);
    ResizeSlices(st.ds, w, c'.table);
    forall i, k | Inc.Ix(ds, i, k) ensures Inc.At(ds, i, k).cap in mem' && Inc.At(ds, i, k).size <= |mem'[Inc.At(ds, i, k).cap]| {
      if RamLive(w.ram, st.ds[i].badge) {
        assert Inc.At(st.ds, i, k).cap in st.mem;
      } else {
        OtherFits(w, c, c', st, mem', i);
      }
    }
  }

  lemma EntryBacked(w: World, c: Copies, c': Copies, st: Inc.State, mem': map<nat, seq<byte>>, e: CopyEntry)
    requires Leaves(w, c, c', st, mem') && e in c'.table
    ensures e.copy in mem' && Align(e.size) <= |mem'[e.copy]|
    ensures forall i, k :: Inc.Ix(st.ds, i, k) ==> Inc.At(st.ds, i, k).cap != e.copy
  {
    if e.copy < c.next {
      var e0 := OldEntry(c, c', e);
    } else {
      forall i, k | Inc.Ix(st.ds, i, k) ensures Inc.At(st.ds, i, k).cap != e.copy {
        assert Inc.At(st.ds, i, k).cap in st.mem;
      }
    }
  }

  lemma StepTableFits(w: World, c: Copies, c': Copies, st: Inc.State, mem': map<nat, seq<byte>>)
    requires Leaves(w, c, c', st, mem')
    ensures Inc.TableFits(Resize(st.ds, w, c'.table), c'.table, mem')
  {
    var t, ds := c'.table, Resize(st.ds, w, c'.table);
    ResizeSlices(st.ds, w, t);
    forall e | e in t ensures e.copy in mem' && Align(e.size) <= |mem'[e.copy]| {
      EntryBacked(w, c, c', st, mem', e);
    }
    forall e, e' | e in t && e' in t && e.copy == e'.copy ensures e == e' {
      LookupIs(t, e);
      LookupIs(t, e');
      assert Known(c', e.orig) && Known(c', e'.orig);
    }
    forall e, i, k | e in t && Inc.Ix(ds, i, k) ensures Inc.At(ds, i, k).cap != e.copy {
      EntryBacked(w, c, c', st, mem', e);
    }
    forall e, i | e in t && 0 <= i < |ds| && e.orig == ds[i].badge ensures e.size == ds[i].size {
      LookupIs(t, e);
    }
  }

  lemma StepComplete(w: World, c: Copies, c': Copies, st: Inc.State, mem': map<nat, seq<byte>>)
    requires Leaves(w, c, c', st, mem')
    ensures Inc.Complete(Resize(st.ds, w, c'.table), c'.table)
  {
    var t, ds := c'.table, Resize(st.ds, w, c'.table);
    forall i | 0 <= i < |ds| ensures Lookup(t, ds[i].badge).Some? {
      assert Saved(w, st.ds[i].badge) && Known(c', st.ds[i].badge);
    }
    forall e | e in t ensures exists i :: 0 <= i < |ds| && ds[i].badge == e.orig {
      LookupIs(t, e);
      assert Known(c', e.orig) && Saved(w, e.orig);
      var i :| 0 <= i < |st.ds| && st.ds[i].badge == e.orig;
      assert ds[i].badge == e.orig;
    }
  }

  // ---- Managed dataspaces keep their copies ----

  lemma StillRecorded(s: Stored, w: World, c: Copies, b: nat) returns (session: nat, d: StoredRamDs)
    requires RamClear(s.ram, w.ram) && OneSession(s.ram, w.ram) && RamLive(w.ram, b) && RamRecord(s.ram, b)
    ensures d.badge == b && Recorded(s.ram, session, d) && Recorded(Checkpoint(s, w, c).0.ram, session, d)
  {
    session, d := RecordIn(s.ram, w.ram, b);
    RecordKept(w.caps, s.ram, w.ram, c, session, d);
  }

  lemma RecordIn(ram: seq<StoredRamSession>, live: seq<RamSession>, b: nat) returns (session: nat, d: StoredRamDs)
    requires OneSession(ram, live) && RamLive(live, b) && RamRecord(ram, b)
    ensures d.badge == b && Recorded(ram, session, d) && Alive(live, session, b)
  {
    var r: StoredRamSession;
    r, d :| r in ram && d in r.kids && d.badge == b;
    var l, e :| l in live && e in l.kids && e.badge == b;
    session := r.head.badge;
    assert l.head.badge == session;
  }

  // A RAM dataspace that has a copy keeps it: with its record, if it has one,
  lemma RecordedKeepsCopy(s: Stored, w: World, c: Copies, maps: set<nat>, managed: set<nat>, b: nat)
    requires Consistent(s, c, maps, managed) && Admissible(w, managed) && RamClear(s.ram, w.ram) && OneSession(s.ram, w.ram)
    requires RamLive(w.ram, b) && RamRecord(s.ram, b)
    ensures CopyOf(Checkpoint(s, w, c).1.table, b) == CopyOf(c.table, b)
  {
    CheckpointConsistent(s, w, c, maps, managed);
    var session, d := StillRecorded(s, w, c, b);
    RecordNames(s, c, maps, managed, session, d);
    RecordNames(Checkpoint(s, w, c).0, Checkpoint(s, w, c).1, Maps(w), managed, session, d);
  }

  // and because its record is made first, if only attachments refer to it.
  lemma AttachedKeepsCopy(s: Stored, w: World, c: Copies, managed: set<nat>, b: nat)
    requires Consistent(s, c, Maps(w), managed) && Admissible(w, managed) && WellFormed(w) && Clear(s, w)
    requires RamLive(w.ram, b) && !RamRecord(s.ram, b) && Known(c, b)
    ensures CopyOf(Checkpoint(s, w, c).1.table, b) == CopyOf(c.table, b)
  {
    var (ram, c1) := Prepare(RamSessionKind(w.caps), s.ram, w.ram, c);
    var rest := AllRefs(RmAccount(Maps(w), managed), s.pd) + AllRefs(RmAccount(Maps(w), managed), s.rm);
    RamRefsHas(managed, s.ram, b);
    assert rest + AllRefs(RamAccount(managed), s.ram) == StateRefs(s, Maps(w), managed);
    assert b in StateRefs(s, Maps(w), managed) && b in rest;
    RamExact(s.ram, w, c, managed, rest);
    RamPhase(s, w, c, managed);
    RamPrepared(w.caps, s.ram, w.ram, c);
    RamRecordIffLive(ram, w.ram, b);
    RamRefsHas(managed, ram, b);
    LaterPhasesKeepRam(s.(ram := ram), w, c1, managed);
  }

  lemma RamKeepsCopy(s: Stored, w: World, c: Copies, maps: set<nat>, managed: set<nat>, b: nat)
    requires Consistent(s, c, maps, managed) && Admissible(w, managed) && WellFormed(w) && Clear(s, w) && OneSession(s.ram, w.ram)
    requires RamLive(w.ram, b) && Known(c, b)
    ensures CopyOf(Checkpoint(s, w, c).1.table, b) == CopyOf(c.table, b)
  {
    if RamRecord(s.ram, b) {
      RecordedKeepsCopy(s, w, c, maps, managed, b);
    } else {
      MapsDoNotMatter(s, c, maps, Maps(w), managed);
      AttachedKeepsCopy(s, w, c, managed, b);
    }
  }

  lemma RecordNames(s: Stored, c: Copies, maps: set<nat>, managed: set<nat>, session: nat, d: StoredRamDs)
    requires Consistent(s, c, maps, managed) && Recorded(s.ram, session, d)
    ensures d.copy == CopyOf(c.table, d.badge)
  {
    var r :| r in s.ram && r.head.badge == session && d in r.kids;
    var i :| 0 <= i < |s.ram| && s.ram[i] == r;
    var k :| 0 <= k < |r.kids| && r.kids[k] == d;
    assert s.ram[i].kids[k] == d;
    assert RamNames(s.ram, d.badge, d.copy);
    RamNamesCopy(s, c, maps, managed, d.badge, d.copy);
  }

  lemma ReadyKeepsCopy(s: Stored, w: World, c: Copies, maps: set<nat>, managed: set<nat>, st: Inc.State, mem': map<nat, seq<byte>>, i: nat)
    requires Ready(s, w, c, maps, managed, st, mem')
    requires i < |st.ds| && st.ds[i].tiles.Some? && Lookup(st.table, st.ds[i].badge).Some?
    ensures CopyOf(Checkpoint(s, w, c).1.table, st.ds[i].badge) == CopyOf(st.table, st.ds[i].badge)
  {
    OpenReady(s, w, c, maps, managed, st, mem');
    RamKeepsCopy(s, w, c, maps, managed, st.ds[i].badge);
  }

  lemma ManagedKeepCopies(s: Stored, w: World, c: Copies, maps: set<nat>, managed: set<nat>, st: Inc.State, mem': map<nat, seq<byte>>)
    requires Ready(s, w, c, maps, managed, st, mem')
    ensures forall i :: 0 <= i < |st.ds| && st.ds[i].tiles.Some? && Lookup(st.table, st.ds[i].badge).Some? ==>
      CopyOf(Checkpoint(s, w, c).1.table, st.ds[i].badge) == CopyOf(st.table, st.ds[i].badge)
  {
    forall i | 0 <= i < |st.ds| && st.ds[i].tiles.Some? && Lookup(st.table, st.ds[i].badge).Some?
      ensures CopyOf(Checkpoint(s, w, c).1.table, st.ds[i].badge) == CopyOf(st.table, st.ds[i].badge)
    {
      ReadyKeepsCopy(s, w, c, maps, managed, st, mem', i);
    }
  }

  lemma ReadyState(s: Stored, w: World, c: Copies, maps: set<nat>, managed: set<nat>, st: Inc.State, mem': map<nat, seq<byte>>)
    requires Ready(s, w, c, maps, managed, st, mem')
    ensures Inc.Inv(st) && st.phase == Inc.Scanned && Inc.SameContent(st.mem, mem')
  {
    OpenReady(s, w, c, maps, managed, st, mem');
  }

  // The reconciliation of a consistent stored state is a preparation step: the copies are complete and fit,
  // and no managed dataspace has lost its copy.  Other dataspaces may have got new ones.
  lemma CheckpointPrepares(s: Stored, w: World, c: Copies, maps: set<nat>, managed: set<nat>, st: Inc.State, mem': map<nat, seq<byte>>)
    requires Ready(s, w, c, maps, managed, st, mem')
    ensures Inc.Prepares(st, PreparedState(s, w, c, st, mem'))
    ensures Inc.Inv(PreparedState(s, w, c, st, mem'))
  {
    var c' := Checkpoint(s, w, c).1;
    ReadyState(s, w, c, maps, managed, st, mem');
    ReadyLeaves(s, w, c, maps, managed, st, mem');
    ResizeSlices(st.ds, w, c'.table);
    StepBacked(w, c, c', st, mem');
    StepTableFits(w, c, c', st, mem');
    StepComplete(w, c, c', st, mem');
    ManagedKeepCopies(s, w, c, maps, managed, st, mem');
    Inc.PrepareKeeps(st, PreparedState(s, w, c, st, mem'));
  }
}
