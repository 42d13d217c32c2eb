// Reference counts over any number of checkpoints.
module StoredStateRefs {
  import opened InfoList
  import opened CapMap
  import opened CopyTable
  import opened Reconcile
  import opened StoredState

  // A RAM dataspace record holds one reference and names the copy the table has for its badge.
  ghost function RamDsAccount(managed: set<nat>): Account<StoredRamDs, RamDs> {
    Account((s: StoredRamDs) => multiset{s.badge},
            (s: StoredRamDs, c: Copies) => s.copy == CopyOf(c.table, s.badge),
            (l: RamDs) => l.badge !in managed,
            managed)
  }

  ghost function NoRefs(): multiset<nat> {
    multiset{}
  }

  // A region record holds one reference unless it shows a region map.
  ghost function RegionAccount(maps: set<nat>, managed: set<nat>): Account<StoredRegion, Region> {
    Account((s: StoredRegion) => if s.copy.Some? then multiset{s.dsBadge} else NoRefs(),
            (s: StoredRegion, c: Copies) =>
              (s.copy.Some? <==> s.dsBadge !in managed) && (s.copy.Some? ==> s.copy.value == CopyOf(c.table, s.dsBadge)),
            (l: Region) => l.dsBadge in managed <==> l.dsBadge in maps,
            managed)
  }

  ghost function NestedAccount<H, C, G, D>(a: Account<C, D>): Account<Node<H, C>, Node<G, D>> {
    Account((s: Node<H, C>) => AllRefs(a, s.kids),
            (s: Node<H, C>, c: Copies) => AllOk(a, s.kids, c),
            (l: Node<G, D>) => forall d :: d in l.kids ==> a.admissible(d),
            a.managed)
  }

  lemma RamDsLawful(caps: seq<CapKcap>, managed: set<nat>)
    ensures Lawful(RamDsKind(caps), RamDsAccount(managed))
  {
    var kind, a := RamDsKind(caps), RamDsAccount(managed);
    forall l, c, rest ensures CreateLaw(kind, a, l, c, rest) {
      if a.admissible(l) && Exact(c, rest, a.managed) {
        AddRefExact(c, rest, managed, l.badge, l.size);
      }
    }
    forall s, c, rest ensures DestroyLaw(kind, a, s, c, rest) {
      if Exact(c, rest + a.refs(s), a.managed) {
        DropRefExact(c, rest, managed, s.badge);
      }
    }
    forall s, l, c, rest ensures UpdateLaw(kind, a, s, l, c, rest) {
    }
    forall s, c, c' ensures OkLaw(a, s, c, c') {
      assert s.badge in a.refs(s);
    }
  }

  lemma RegionLawful(caps: seq<CapKcap>, maps: set<nat>, managed: set<nat>)
    ensures Lawful(RegionKind(caps, maps), RegionAccount(maps, managed))
  {
    var kind, a := RegionKind(caps, maps), RegionAccount(maps, managed);
    forall l, c, rest ensures CreateLaw(kind, a, l, c, rest) {
      if a.admissible(l) && Exact(c, rest, a.managed) {
        if l.dsBadge in managed {
          assert rest[l.dsBadge] == 0;
          assert rest + NoRefs() == rest;
        } else {
          AddRefExact(c, rest, managed, l.dsBadge, l.size);
        }
      }
    }
    forall s, c, rest ensures DestroyLaw(kind, a, s, c, rest) {
      if a.ok(s, c) && Exact(c, rest + a.refs(s), a.managed) {
        if s.copy.Some? {
          DropRefExact(c, rest, managed, s.dsBadge);
        } else {
          assert rest + NoRefs() == rest;
          assert rest[s.dsBadge] == 0;
        }
      }
    }
    forall s, l, c, rest ensures UpdateLaw(kind, a, s, l, c, rest) {
    }
    forall s, c, c' ensures OkLaw(a, s, c, c') {
      assert s.copy.Some? ==> s.dsBadge in a.refs(s);
    }
  }

  // A seed brings no references with it.
  ghost predicate EmptySeed<C(!new), G(!new), D(!new)>(a: Account<C, D>, seed: Node<G, D> -> seq<C>) {
    (forall l :: AllRefs(a, seed(l)) == NoRefs()) && (forall l, c :: AllOk(a, seed(l), c))
  }

  lemma NestedLawful<H(!new), C(!new), G(!new), D(!new)>(child: Kind<C, D>, a: Account<C, D>,
      same: (H, G) -> bool, make: G -> H, refresh: (H, G) -> H, seed: Node<G, D> -> seq<C>)
    requires Lawful(child, a) && EmptySeed(a, seed)
    ensures Lawful(Nested(child, same, make, refresh, seed), NestedAccount(a))
  {
    var kind: Kind<Node<H, C>, Node<G, D>> := Nested(child, same, make, refresh, seed);
    var b: Account<Node<H, C>, Node<G, D>> := NestedAccount(a);
    forall l, c, rest ensures CreateLaw(kind, b, l, c, rest) {
      assert rest + AllRefs(a, seed(l)) == rest;
    }
    forall s, l, c, rest ensures UpdateLaw(kind, b, s, l, c, rest) {
      if b.admissible(l) && b.ok(s, c) && Exact(c, rest + b.refs(s), b.managed) {
        PrepareExact(child, a, s.kids, l.kids, c, rest);
      }
    }
    forall s, c, rest ensures DestroyLaw(kind, b, s, c, rest) {
      if b.ok(s, c) && Exact(c, rest + b.refs(s), b.managed) {
        DestroyAllExact(child, a, s.kids, c, rest);
      }
    }
    forall s, c, c' ensures OkLaw(b, s, c, c') {
      if b.ok(s, c) && Stable(c, c', b.refs(s)) {
        OkStays(child, a, s.kids, c, c', b.refs(s));
      }
    }
  }

  ghost function MapAccount(maps: set<nat>, managed: set<nat>): Account<StoredMap, RegionMap> {
    NestedAccount(RegionAccount(maps, managed))
  }

  ghost function RamAccount(managed: set<nat>): Account<StoredRamSession, RamSession> {
    NestedAccount(RamDsAccount(managed))
  }

  ghost function RmAccount(maps: set<nat>, managed: set<nat>): Account<StoredRmSession, RmSession> {
    NestedAccount(MapAccount(maps, managed))
  }

  lemma MapLawful(caps: seq<CapKcap>, maps: set<nat>, managed: set<nat>)
    ensures Lawful(MapKind(caps, maps), MapAccount(maps, managed))
  {
    RegionLawful(caps, maps, managed);
    NestedLawful(RegionKind(caps, maps), RegionAccount(maps, managed),
                 (s: StoredMapHead, l: MapHead) => s.badge == l.badge,
                 (l: MapHead) => MakeMap(caps, l),
                 (s: StoredMapHead, l: MapHead) => s.(sigh := l.sigh),
                 (l: RegionMap) => []);
  }

  lemma RamLawful(caps: seq<CapKcap>, managed: set<nat>)
    ensures Lawful(RamSessionKind(caps), RamAccount(managed))
  {
    RamDsLawful(caps, managed);
    NestedLawful(RamDsKind(caps), RamDsAccount(managed), SameSession, (l: SessionHead) => MakeSession(caps, l),
                 (s: StoredSessionHead, l: SessionHead) => s, (l: RamSession) => []);
  }

  lemma RmLawful(caps: seq<CapKcap>, maps: set<nat>, managed: set<nat>)
    ensures Lawful(RmSessionKind(caps, maps), RmAccount(maps, managed))
  {
    MapLawful(caps, maps, managed);
    NestedLawful(MapKind(caps, maps), MapAccount(maps, managed), SameSession, (l: SessionHead) => MakeSession(caps, l),
                 (s: StoredSessionHead, l: SessionHead) => s, (l: RmSession) => []);
  }

  lemma {:induction false} EmptyMapsNoRefs(a: Account<StoredMap, RegionMap>, maps: set<nat>, managed: set<nat>, stored: seq<StoredMap>)
    requires a == MapAccount(maps, managed) && forall i :: 0 <= i < |stored| ==> stored[i].kids == []
    ensures AllRefs(a, stored) == multiset{}
  {
    if stored != [] {
      EmptyMapsNoRefs(a, maps, managed, stored[1..]);
    }
  }

  lemma PdLawful(caps: seq<CapKcap>, maps: set<nat>, managed: set<nat>)
    ensures Lawful(PdSessionKind(caps, maps), RmAccount(maps, managed))
  {
    MapLawful(caps, maps, managed);
    var a, seed := MapAccount(maps, managed), (l: RmSession) => PdSeed(caps, l);
    forall l ensures AllRefs(a, seed(l)) == NoRefs() {
      EmptyMapsNoRefs(a, maps, managed, seed(l));
    }
    NestedLawful(MapKind(caps, maps), a, SameSession, (l: SessionHead) => MakeSession(caps, l),
                 (s: StoredSessionHead, l: SessionHead) => s, seed);
    var kind, b := PdSessionKind(caps, maps), RmAccount(maps, managed);
    forall s, c, rest ensures DestroyLaw(kind, b, s, c, rest) {
      if b.ok(s, c) && Exact(c, rest + b.refs(s), b.managed) {
        ReverseRefs(a, s.kids);
        ReverseOk(a, s.kids, c);
        DestroyAllExact(MapKind(caps, maps), a, Reverse(s.kids), c, rest);
      }
    }
    forall l, c, rest ensures CreateLaw(kind, b, l, c, rest) {
      assert CreateLaw(PdAsRm(caps, maps), b, l, c, rest);
    }
    forall s, l, c, rest ensures UpdateLaw(kind, b, s, l, c, rest) {
      assert UpdateLaw(PdAsRm(caps, maps), b, s, l, c, rest);
    }
  }

  lemma {:induction false} RefsAppend<S, L>(a: Account<S, L>, s: seq<S>, t: seq<S>)
    ensures AllRefs(a, s + t) == AllRefs(a, s) + AllRefs(a, t)
  {
    if s == [] {
      assert s + t == t;
    } else {
      RefsAppend(a, s[1..], t);
      assert (s + t)[1..] == s[1..] + t;
    }
  }

  lemma {:induction false} ReverseRefs<S, L>(a: Account<S, L>, s: seq<S>)
    ensures AllRefs(a, Reverse(s)) == AllRefs(a, s)
  {
    if s != [] {
      ReverseRefs(a, s[1..]);
      RefsAppend(a, Reverse(s[1..]), [s[0]]);
      assert [s[0]][1..] == [];
    }
  }

  lemma {:induction false} ReverseOk<S(!new), L(!new)>(a: Account<S, L>, s: seq<S>, c: Copies)
    requires AllOk(a, s, c)
    ensures AllOk(a, Reverse(s), c)
  {
    var r := Reverse(s);
    forall i | 0 <= i < |r| ensures a.ok(r[i], c) {
      assert r[i] == s[|s| - 1 - i];
    }
  }

  // ---- Whole checkpoints ----

  ghost function StateRefs(s: Stored, maps: set<nat>, managed: set<nat>): multiset<nat> {
    AllRefs(RamAccount(managed), s.ram) + AllRefs(RmAccount(maps, managed), s.pd) + AllRefs(RmAccount(maps, managed), s.rm)
  }

  ghost predicate StateOk(s: Stored, c: Copies, maps: set<nat>, managed: set<nat>) {
    && AllOk(RamAccount(managed), s.ram, c)
    && AllOk(RmAccount(maps, managed), s.pd, c) && AllOk(RmAccount(maps, managed), s.rm, c)
  }

  // Badges are not reused: managed holds all badges that ever belong to a region map's dataspace, and
  // an attachment of such a dataspace is seen while its region map is in the list.
  ghost predicate Admissible(w: World, managed: set<nat>) {
    && (forall l :: l in w.ram ==> RamAccount(managed).admissible(l))
    && (forall l :: l in w.pd ==> RmAccount(Maps(w), managed).admissible(l))
    && (forall l :: l in w.rm ==> RmAccount(Maps(w), managed).admissible(l))
  }

  // References do not depend on the list of region maps at hand.
  lemma {:induction false} RegionRefsSame(maps: set<nat>, maps': set<nat>, managed: set<nat>, stored: seq<StoredRegion>)
    ensures AllRefs(RegionAccount(maps, managed), stored) == AllRefs(RegionAccount(maps', managed), stored)
  {
    if stored != [] {
      RegionRefsSame(maps, maps', managed, stored[1..]);
    }
  }

  lemma {:induction false} MapRefsSame(maps: set<nat>, maps': set<nat>, managed: set<nat>, stored: seq<StoredMap>)
    ensures AllRefs(MapAccount(maps, managed), stored) == AllRefs(MapAccount(maps', managed), stored)
  {
    if stored != [] {
      RegionRefsSame(maps, maps', managed, stored[0].kids);
      MapRefsSame(maps, maps', managed, stored[1..]);
    }
  }

  lemma {:induction false} RmRefsSame(maps: set<nat>, maps': set<nat>, managed: set<nat>, stored: seq<StoredRmSession>)
    ensures AllRefs(RmAccount(maps, managed), stored) == AllRefs(RmAccount(maps', managed), stored)
  {
    if stored != [] {
      MapRefsSame(maps, maps', managed, stored[0].kids);
      RmRefsSame(maps, maps', managed, stored[1..]);
    }
  }

  lemma RmOkSame(maps: set<nat>, maps': set<nat>, managed: set<nat>, stored: seq<StoredRmSession>, c: Copies)
    requires AllOk(RmAccount(maps, managed), stored, c)
    ensures AllOk(RmAccount(maps', managed), stored, c)
  {
    var a, a' := RmAccount(maps, managed), RmAccount(maps', managed);
    forall i | 0 <= i < |stored| ensures a'.ok(stored[i], c) {
      assert a.ok(stored[i], c);
      forall j | 0 <= j < |stored[i].kids| ensures MapAccount(maps', managed).ok(stored[i].kids[j], c) {
        assert MapAccount(maps, managed).ok(stored[i].kids[j], c);
        forall k | 0 <= k < |stored[i].kids[j].kids| ensures RegionAccount(maps', managed).ok(stored[i].kids[j].kids[k], c) {
          assert RegionAccount(maps, managed).ok(stored[i].kids[j].kids[k], c);
        }
      }
    }
  }

  ghost predicate Consistent(s: Stored, c: Copies, maps: set<nat>, managed: set<nat>) {
    Exact(c, StateRefs(s, maps, managed), managed) && StateOk(s, c, maps, managed)
  }

  // The lawfulness of each kind, put to use.
  lemma {:induction false} RamExact(s: seq<StoredRamSession>, w: World, c: Copies, managed: set<nat>, rest: multiset<nat>)
    requires Admissible(w, managed) && AllOk(RamAccount(managed), s, c) && Exact(c, rest + AllRefs(RamAccount(managed), s), managed)
    ensures var (r, c') := Prepare(RamSessionKind(w.caps), s, w.ram, c); var a := RamAccount(managed);
      Exact(c', rest + AllRefs(a, r), managed) && AllOk(a, r, c') && Stable(c, c', rest)
  {
    RamLawful(w.caps, managed);
    PrepareExact(RamSessionKind(w.caps), RamAccount(managed), s, w.ram, c, rest);
  }

  lemma {:induction false} RmExact(s: seq<StoredRmSession>, w: World, pd: bool, c: Copies, managed: set<nat>, rest: multiset<nat>)
    requires Admissible(w, managed) && AllOk(RmAccount(Maps(w), managed), s, c) && Exact(c, rest + AllRefs(RmAccount(Maps(w), managed), s), managed)
    ensures var a := RmAccount(Maps(w), managed);
      var (r, c') := if pd then Prepare(PdSessionKind(w.caps, Maps(w)), s, w.pd, c) else Prepare(RmSessionKind(w.caps, Maps(w)), s, w.rm, c);
      Exact(c', rest + AllRefs(a, r), managed) && AllOk(a, r, c') && Stable(c, c', rest)
  {
    if pd {
      PdLawful(w.caps, Maps(w), managed);
      PrepareExact(PdSessionKind(w.caps, Maps(w)), RmAccount(Maps(w), managed), s, w.pd, c, rest);
    } else {
      RmLawful(w.caps, Maps(w), managed);
      PrepareExact(RmSessionKind(w.caps, Maps(w)), RmAccount(Maps(w), managed), s, w.rm, c, rest);
    }
  }

  lemma {:induction false} RamStays(s: seq<StoredRamSession>, managed: set<nat>, c: Copies, c': Copies, kept: multiset<nat>)
    requires AllOk(RamAccount(managed), s, c) && Stable(c, c', kept) && AllRefs(RamAccount(managed), s) <= kept
    ensures AllOk(RamAccount(managed), s, c')
  {
    RamLawful([], managed);
    OkStays(RamSessionKind([]), RamAccount(managed), s, c, c', kept);
  }

  lemma {:induction false} RmStays(s: seq<StoredRmSession>, maps: set<nat>, managed: set<nat>, c: Copies, c': Copies, kept: multiset<nat>)
    requires AllOk(RmAccount(maps, managed), s, c) && Stable(c, c', kept) && AllRefs(RmAccount(maps, managed), s) <= kept
    ensures AllOk(RmAccount(maps, managed), s, c')
  {
    RmLawful([], maps, managed);
    OkStays(RmSessionKind([], maps), RmAccount(maps, managed), s, c, c', kept);
  }

  lemma RamPhase(s: Stored, w: World, c: Copies, managed: set<nat>)
    requires Consistent(s, c, Maps(w), managed) && Admissible(w, managed)
    ensures var (ram, c') := Prepare(RamSessionKind(w.caps), s.ram, w.ram, c);
      Consistent(s.(ram := ram), c', Maps(w), managed)
  {
    var m := RmAccount(Maps(w), managed);
    var rest := AllRefs(m, s.pd) + AllRefs(m, s.rm);
    assert rest + AllRefs(RamAccount(managed), s.ram) == StateRefs(s, Maps(w), managed);
    RamExact(s.ram, w, c, managed, rest);
    var (ram, c') := Prepare(RamSessionKind(w.caps), s.ram, w.ram, c);
    RamReplaced(s, ram, c, c', Maps(w), managed);
  }

  lemma {:induction false} RamReplaced(s: Stored, ram: seq<StoredRamSession>, c: Copies, c': Copies, maps: set<nat>, managed: set<nat>)
    requires Consistent(s, c, maps, managed) && AllOk(RamAccount(managed), ram, c')
    requires var rest := AllRefs(RmAccount(maps, managed), s.pd) + AllRefs(RmAccount(maps, managed), s.rm);
      Exact(c', rest + AllRefs(RamAccount(managed), ram), managed) && Stable(c, c', rest)
    ensures Consistent(s.(ram := ram), c', maps, managed)
  {
    var a, m := RamAccount(managed), RmAccount(maps, managed);
    var rest := AllRefs(m, s.pd) + AllRefs(m, s.rm);
    RmStays(s.pd, maps, managed, c, c', rest);
    RmStays(s.rm, maps, managed, c, c', rest);
    assert rest + AllRefs(a, ram) == StateRefs(s.(ram := ram), maps, managed);
  }

  lemma PdPhase(s: Stored, w: World, c: Copies, managed: set<nat>)
    requires Consistent(s, c, Maps(w), managed) && Admissible(w, managed)
    ensures var (pd, c') := Prepare(PdSessionKind(w.caps, Maps(w)), s.pd, w.pd, c);
      Consistent(s.(pd := pd), c', Maps(w), managed)
  {
    var a, m := RamAccount(managed), RmAccount(Maps(w), managed);
    var rest := AllRefs(a, s.ram) + AllRefs(m, s.rm);
    assert rest + AllRefs(m, s.pd) == StateRefs(s, Maps(w), managed);
    RmExact(s.pd, w, true, c, managed, rest);
    var (pd, c') := Prepare(PdSessionKind(w.caps, Maps(w)), s.pd, w.pd, c);
    PdReplaced(s, pd, c, c', Maps(w), managed);
  }

  lemma {:induction false} PdReplaced(s: Stored, pd: seq<StoredRmSession>, c: Copies, c': Copies, maps: set<nat>, managed: set<nat>)
    requires Consistent(s, c, maps, managed) && AllOk(RmAccount(maps, managed), pd, c')
    requires var rest := AllRefs(RamAccount(managed), s.ram) + AllRefs(RmAccount(maps, managed), s.rm);
      Exact(c', rest + AllRefs(RmAccount(maps, managed), pd), managed) && Stable(c, c', rest)
    ensures Consistent(s.(pd := pd), c', maps, managed)
  {
    var a, m := RamAccount(managed), RmAccount(maps, managed);
    var rest := AllRefs(a, s.ram) + AllRefs(m, s.rm);
    RamStays(s.ram, managed, c, c', rest);
    RmStays(s.rm, maps, managed, c, c', rest);
    assert rest + AllRefs(m, pd) == StateRefs(s.(pd := pd), maps, managed);
  }

  lemma RmPhase(s: Stored, w: World, c: Copies, managed: set<nat>)
    requires Consistent(s, c, Maps(w), managed) && Admissible(w, managed)
    ensures var (rm, c') := Prepare(RmSessionKind(w.caps, Maps(w)), s.rm, w.rm, c);
      Consistent(s.(rm := rm), c', Maps(w), managed)
  {
    RmExact(s.rm, w, false, c, managed, AllRefs(RamAccount(managed), s.ram) + AllRefs(RmAccount(Maps(w), managed), s.pd));
    var (rm, c') := Prepare(RmSessionKind(w.caps, Maps(w)), s.rm, w.rm, c);
    RmReplaced(s, rm, c, c', Maps(w), managed);
  }

  lemma {:induction false} RmReplaced(s: Stored, rm: seq<StoredRmSession>, c: Copies, c': Copies, maps: set<nat>, managed: set<nat>)
    requires Consistent(s, c, maps, managed) && AllOk(RmAccount(maps, managed), rm, c')
    requires var rest := AllRefs(RamAccount(managed), s.ram) + AllRefs(RmAccount(maps, managed), s.pd);
      Exact(c', rest + AllRefs(RmAccount(maps, managed), rm), managed) && Stable(c, c', rest)
    ensures Consistent(s.(rm := rm), c', maps, managed)
  {
    var rest := AllRefs(RamAccount(managed), s.ram) + AllRefs(RmAccount(maps, managed), s.pd);
    RamStays(s.ram, managed, c, c', rest);
    RmStays(s.pd, maps, managed, c, c', rest);
  }

  // One checkpoint keeps every count exact and every record's copy right.
  lemma CheckpointConsistent(s: Stored, w: World, c: Copies, maps: set<nat>, managed: set<nat>)
    requires Consistent(s, c, maps, managed) && Admissible(w, managed)
    ensures Consistent(Checkpoint(s, w, c).0, Checkpoint(s, w, c).1, Maps(w), managed)
  {
    MapsDoNotMatter(s, c, maps, Maps(w), managed);
    RamPhase(s, w, c, managed);
    var (ram, c1) := Prepare(RamSessionKind(w.caps), s.ram, w.ram, c);
    var s1 := s.(ram := ram);
    PdPhase(s1, w, c1, managed);
    var (pd, c2) := Prepare(PdSessionKind(w.caps, Maps(w)), s1.pd, w.pd, c1);
    RmPhase(s1.(pd := pd), w, c2, managed);
  }

  lemma MapsDoNotMatter(s: Stored, c: Copies, maps: set<nat>, maps': set<nat>, managed: set<nat>)
    requires Consistent(s, c, maps, managed)
    ensures Consistent(s, c, maps', managed)
  {
    RmRefsSame(maps, maps', managed, s.pd);
    RmRefsSame(maps, maps', managed, s.rm);
    RmOkSame(maps, maps', managed, s.pd, c);
    RmOkSame(maps, maps', managed, s.rm, c);
  }

  ghost function After(worlds: seq<World>): (Stored, Copies) {
    if worlds == [] then (Stored([], [], []), Copies([], 1))
    else
      var (s, c) := After(worlds[..|worlds| - 1]);
      Checkpoint(s, worlds[|worlds| - 1], c)
  }

  ghost function LastMaps(worlds: seq<World>): set<nat> {
    if worlds == [] then {} else Maps(worlds[|worlds| - 1])
  }

  // Over any sequence of checkpoints of any child: the count of every copy is the number of stored
  // records that refer to it, an entry exists exactly while there is one, no count underflows, and
  // two records share a copy exactly if they are records of the same dataspace.
  lemma {:induction false} RefCountsExact(worlds: seq<World>, managed: set<nat>)
    requires forall n :: 0 <= n < |worlds| ==> Admissible(worlds[n], managed)
    ensures Consistent(After(worlds).0, After(worlds).1, LastMaps(worlds), managed)
  {
    if worlds != [] {
      var init := worlds[..|worlds| - 1];
      RefCountsExact(init, managed);
      var (s, c) := After(init);
      CheckpointConsistent(s, worlds[|worlds| - 1], c, LastMaps(init), managed);
    }
  }
}
