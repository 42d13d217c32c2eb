// Regions of a region map's dataspace whose RM session has been closed.  A record that was made while the map was
// listed took no reference, but destroying it releases one.
module ClosedSessions {
  import opened InfoList
  import opened CapMap
  import opened CopyTable
  import opened Reconcile
  import opened StoredState
  import opened StoredStateRefs
  import opened StoredStateRuns

  // The references that region records hold, whatever region maps there are or have been.
  ghost function RegionRefs(stored: seq<StoredRegion>): multiset<nat> {
    AllRefs(RegionAccount({}, {}), stored)
  }

  // The references that destroying them releases.
  ghost function Released(stored: seq<StoredRegion>): multiset<nat> {
    if stored == [] then multiset{} else multiset{stored[0].dsBadge} + Released(stored[1..])
  }

  lemma {:induction false} ReleasedCounts(stored: seq<StoredRegion>, b: nat)
    ensures Released(stored)[b] >= RegionRefs(stored)[b]
    ensures Released(stored)[b] > RegionRefs(stored)[b] <==> exists s :: s in stored && s.copy.None? && s.dsBadge == b
  {
    if stored != [] {
      ReleasedCounts(stored[1..], b);
      assert forall s :: s in stored <==> s == stored[0] || s in stored[1..];
    }
  }

  // Dropping one reference takes one away if there is one.
  lemma DropRefCounts(c: Copies, refs: multiset<nat>, b: nat)
    requires Exact(c, refs, {})
    ensures Exact(DropRef(c, b), refs - multiset{b}, {})
  {
    if b in refs {
      assert (refs - multiset{b}) + multiset{b} == refs;
      DropRefExact(c, refs - multiset{b}, {}, b);
    } else {
      assert refs[b] == 0;
      assert refs - multiset{b} == refs;
    }
  }

  lemma {:induction false} DestroyCounts(caps: seq<CapKcap>, maps: set<nat>, gone: seq<StoredRegion>, c: Copies, refs: multiset<nat>)
    requires Exact(c, refs, {})
    ensures Exact(DestroyAll(RegionKind(caps, maps), gone, c), refs - Released(gone), {})
    decreases |gone|
  {
    if gone == [] {
      assert refs - Released(gone) == refs;
    } else {
      var b := gone[0].dsBadge;
      DropRefCounts(c, refs, b);
      DestroyCounts(caps, maps, gone[1..], DropRef(c, b), refs - multiset{b});
      assert refs - multiset{b} - Released(gone[1..]) == refs - Released(gone);
    }
  }

  // A table is exact for one multiset only.
  lemma ExactOnce(c: Copies, refs: multiset<nat>, refs': multiset<nat>)
    requires Exact(c, refs, {}) && Exact(c, refs', {})
    ensures refs == refs'
  {
    forall b: nat ensures refs[b] == refs'[b] {
      assert RefCount(c.table, b) == refs[b];
      assert RefCount(c.table, b) == refs'[b];
    }
  }

  // No reference is held to a dataspace that one of the records shows without holding one.
  ghost predicate NoneWithout(gone: seq<StoredRegion>, rest: multiset<nat>) {
    forall s :: s in gone && s.copy.None? ==> s.dsBadge !in rest
  }

  lemma {:induction false} LeftIff(gone: seq<StoredRegion>, rest: multiset<nat>)
    ensures rest + RegionRefs(gone) - Released(gone) == rest <==> NoneWithout(gone, rest)
  {
    var refs, out := RegionRefs(gone), Released(gone);
    if NoneWithout(gone, rest) {
      forall b: nat ensures (rest + refs - out)[b] == rest[b] {
        ReleasedCounts(gone, b);
      }
    } else {
      var s :| s in gone && s.copy.None? && s.dsBadge in rest;
      ReleasedCounts(gone, s.dsBadge);
      assert (rest + refs - out)[s.dsBadge] < rest[s.dsBadge];
    }
  }

  // Destroying a list of region records releases exactly the references they hold if and only if no other record
  // holds one to a dataspace that one of them shows without a copy.
  lemma {:induction false} DestroyRegionsExactIff(caps: seq<CapKcap>, maps: set<nat>, gone: seq<StoredRegion>, c: Copies, rest: multiset<nat>)
    requires Exact(c, rest + RegionRefs(gone), {})
    ensures Exact(DestroyAll(RegionKind(caps, maps), gone, c), rest, {}) <==> NoneWithout(gone, rest)
  {
    DestroyCounts(caps, maps, gone, c, rest + RegionRefs(gone));
    LeftIff(gone, rest);
    if Exact(DestroyAll(RegionKind(caps, maps), gone, c), rest, {}) {
      ExactOnce(DestroyAll(RegionKind(caps, maps), gone, c), rest, rest + RegionRefs(gone) - Released(gone));
    }
  }

  // ---- One region map ----

  function Stale(kind: Kind<StoredRegion, Region>, stored: seq<StoredRegion>, live: seq<Region>): seq<StoredRegion> {
    if stored == [] then []
    else (if FindLive(kind, live, stored[0]) == |live| then [stored[0]] else []) + Stale(kind, stored[1..], live)
  }

  lemma {:induction false} StaleHas(kind: Kind<StoredRegion, Region>, stored: seq<StoredRegion>, live: seq<Region>, s: StoredRegion)
    ensures s in Stale(kind, stored, live) <==> s in stored && FindLive(kind, live, s) == |live|
  {
    if stored != [] {
      StaleHas(kind, stored[1..], live, s);
      assert s in stored <==> s == stored[0] || s in stored[1..];
    }
  }

  // A new record takes a reference if it has a copy.
  lemma CreateCounts(caps: seq<CapKcap>, maps: set<nat>, l: Region, c: Copies, refs: multiset<nat>)
    requires Exact(c, refs, {})
    ensures var (s, c') := CreateRegion(caps, maps, l, c); Exact(c', refs + RegionRefs([s]), {})
  {
    var (s, c') := CreateRegion(caps, maps, l, c);
    var a := RegionAccount({}, {});
    assert [s][1..] == [];
    assert RegionRefs([s]) == a.refs(s) + AllRefs(a, []) == a.refs(s);
    if s.copy.Some? {
      AddRefExact(c, refs, {}, l.dsBadge, l.size);
    } else {
      assert refs + NoRefs() == refs;
    }
  }

  lemma {:induction false} Pass1Counts(caps: seq<CapKcap>, maps: set<nat>, stored: seq<StoredRegion>, live: seq<Region>, c: Copies, refs: multiset<nat>)
    requires Exact(c, refs + RegionRefs(stored), {})
    ensures var (r, c') := Pass1(RegionKind(caps, maps), stored, live, c); Exact(c', refs + RegionRefs(r), {})
    decreases |live|
  {
    var kind := RegionKind(caps, maps);
    if live != [] {
      var (r1, c1) := Upsert(kind, stored, live[0], c);
      var k := FindStored(kind, stored, live[0]);
      if k == |stored| {
        CreateCounts(caps, maps, live[0], c, refs + RegionRefs(stored));
        var (s, c') := CreateRegion(caps, maps, live[0], c);
        assert r1 == [s] + stored && c1 == c';
        RefsAppend(RegionAccount({}, {}), [s], stored);
        assert refs + RegionRefs(stored) + RegionRefs([s]) == refs + RegionRefs(r1);
      } else {
        assert stored[k := stored[k]] == stored;
        assert r1 == stored && c1 == c;
      }
      Pass1Counts(caps, maps, r1, live[1..], c1, refs);
    }
  }

  // The second loop destroys the stale records and keeps the others.
  lemma {:induction false} Pass2Destroys(caps: seq<CapKcap>, maps: set<nat>, stored: seq<StoredRegion>, live: seq<Region>, c: Copies)
    ensures var kind := RegionKind(caps, maps); var (r, c') := Pass2(kind, stored, live, c);
      c' == DestroyAll(kind, Stale(kind, stored, live), c) && RegionRefs(stored) == RegionRefs(r) + RegionRefs(Stale(kind, stored, live))
    decreases |stored|
  {
    var kind := RegionKind(caps, maps);
    if stored != [] {
      var gone := Stale(kind, stored[1..], live);
      if FindLive(kind, live, stored[0]) == |live| {
        Pass2Destroys(caps, maps, stored[1..], live, kind.destroy(stored[0], c));
        assert ([stored[0]] + gone)[1..] == gone;
      } else {
        Pass2Destroys(caps, maps, stored[1..], live, c);
        var (r, c') := Pass2(kind, stored[1..], live, c);
        assert [] + gone == gone && ([stored[0]] + r)[1..] == r;
      }
    }
  }

  // The first loop makes no stale records and drops none.
  lemma {:induction false} Pass1Stale(caps: seq<CapKcap>, maps: set<nat>, stored: seq<StoredRegion>, live: seq<Region>, all: seq<Region>, c: Copies)
    requires forall l :: l in live ==> l in all
    ensures var kind := RegionKind(caps, maps);
      Stale(kind, Pass1(kind, stored, live, c).0, all) == Stale(kind, stored, all)
    decreases |live|
  {
    var kind := RegionKind(caps, maps);
    if live != [] {
      var (r1, c1) := Upsert(kind, stored, live[0], c);
      var k := FindStored(kind, stored, live[0]);
      if k == |stored| {
        var (s, c') := CreateRegion(caps, maps, live[0], c);
        assert r1 == [s] + stored && r1[1..] == stored;
        assert live[0] in all && kind.alive(live[0], s);
        assert FindLive(kind, all, s) < |all|;
        assert [] + Stale(kind, stored, all) == Stale(kind, stored, all);
      } else {
        assert stored[k := stored[k]] == stored;
      }
      Pass1Stale(caps, maps, r1, live[1..], all, c1);
    }
  }

  // Whatever region maps there are and have been: reconciling the regions of a map keeps the counts exact if and
  // only if no record that is left, here or elsewhere (rest), holds a reference to a dataspace that a record without
  // a copy shows whose region is gone.
  lemma PrepareRegionsExactIff(caps: seq<CapKcap>, maps: set<nat>, stored: seq<StoredRegion>, live: seq<Region>, c: Copies, rest: multiset<nat>)
    requires Exact(c, rest + RegionRefs(stored), {})
    ensures var kind := RegionKind(caps, maps);
      var (r, c') := Prepare(kind, stored, live, c);
      Exact(c', rest + RegionRefs(r), {}) <==>
      forall s :: s in stored && s.copy.None? && FindLive(kind, live, s) == |live| ==> s.dsBadge !in rest + RegionRefs(r)
  {
    var kind := RegionKind(caps, maps);
    var (r1, c1) := Pass1(kind, stored, live, c);
    var (r, c') := Pass2(kind, r1, live, c1);
    var gone := Stale(kind, stored, live);
    Pass1Counts(caps, maps, stored, live, c, rest);
    Pass1Stale(caps, maps, stored, live, live, c);
    Pass2Destroys(caps, maps, r1, live, c1);
    assert rest + RegionRefs(r1) == rest + RegionRefs(r) + RegionRefs(gone);
    DestroyRegionsExactIff(caps, maps, gone, c1, rest + RegionRefs(r));
    forall s ensures s in gone <==> s in stored && FindLive(kind, live, s) == |live| {
      StaleHas(kind, stored, live, s);
    }
  }

  // ---- An input for which they do not stay exact ----

  ghost function PlainRegion(relAddr: nat): Region {
    Region(5, 0x1000, 0, relAddr, false, false)
  }

  ghost function RecordAt(caps: seq<CapKcap>, relAddr: nat, copy: Option<nat>): StoredRegion {
    StoredRegion(KcapOf(caps, 5), false, 5, copy, 0x1000, 0, relAddr, false)
  }

  ghost function OneEntry(): Copies {
    Copies([CopyEntry(5, 1, 0x1000, 1)], 2)
  }

  // While the map is listed, its region takes no reference.
  lemma FirstCheckpoint(caps: seq<CapKcap>)
    ensures Prepare(RegionKind(caps, {5}), [], [PlainRegion(0x10000)], Copies([], 1)) == ([RecordAt(caps, 0x10000, None)], Copies([], 1))
  {
    CreatedAlone(caps, {5}, PlainRegion(0x10000), Copies([], 1));
  }

  // When it is not, a second region of its dataspace does.
  lemma SecondCheckpoint(caps: seq<CapKcap>)
    ensures Prepare(RegionKind(caps, {}), [RecordAt(caps, 0x10000, None)], [PlainRegion(0x10000), PlainRegion(0x20000)], Copies([], 1))
         == ([RecordAt(caps, 0x20000, Some(1)), RecordAt(caps, 0x10000, None)], OneEntry())
  {
    var kind, live := RegionKind(caps, {}), [PlainRegion(0x10000), PlainRegion(0x20000)];
    var sa, sb := RecordAt(caps, 0x10000, None), RecordAt(caps, 0x20000, Some(1));
    var c0 := Copies([], 1);
    var none: seq<CopyEntry> := [];
    assert OneEntry().table + none == OneEntry().table;
    assert AddRef(c0, 5, 0x1000) == OneEntry();
    assert kind.create(live[1], c0) == (sb, OneEntry());
    FoundStored(kind, [sa], live[0], 0);
    assert [sa][0 := sa] == [sa];
    assert Upsert(kind, [sa], live[0], c0) == ([sa], c0);
    FoundStored(kind, [sa], live[1], 1);
    assert [sb] + [sa] == [sb, sa];
    assert Upsert(kind, [sa], live[1], c0) == ([sb, sa], OneEntry());
    assert live[1..] == [live[1]] && [live[1]][1..] == [];
    assert Pass1(kind, [sb, sa], [], OneEntry()) == ([sb, sa], OneEntry());
    assert Pass1(kind, [sa], [live[1]], c0) == ([sb, sa], OneEntry());
    assert Pass1(kind, [sa], live, c0) == ([sb, sa], OneEntry());
    BothAlive(kind, live[0], live[1], sa, sb, live, OneEntry());
  }

  // When the first region is detached, its record drops the reference of the second.
  lemma ThirdCheckpoint(caps: seq<CapKcap>)
    ensures Prepare(RegionKind(caps, {}), [RecordAt(caps, 0x20000, Some(1)), RecordAt(caps, 0x10000, None)], [PlainRegion(0x20000)], OneEntry())
         == ([RecordAt(caps, 0x20000, Some(1))], Copies([], 2))
  {
    var kind, live := RegionKind(caps, {}), [PlainRegion(0x20000)];
    var sa, sb := RecordAt(caps, 0x10000, None), RecordAt(caps, 0x20000, Some(1));
    var stored := [sb, sa];
    FoundStored(kind, stored, live[0], 0);
    assert stored[0 := sb] == stored;
    assert Upsert(kind, stored, live[0], OneEntry()) == (stored, OneEntry());
    assert live[1..] == [];
    assert Pass1(kind, stored, [], OneEntry()) == (stored, OneEntry());
    assert Pass1(kind, stored, live, OneEntry()) == (stored, OneEntry());
    assert kind.alive(live[0], sb) && !kind.alive(live[0], sa);
    assert FindLive(kind, live, sb) == 0 && FindLive(kind, live, sa) == 1;
    assert OneEntry().table[1..] == [];
    assert kind.destroy(sa, OneEntry()) == Copies([], 2);
    assert stored[1..] == [sa] && [sa][1..] == [];
    assert Pass2(kind, [], live, Copies([], 2)) == ([], Copies([], 2));
    assert Pass2(kind, [sa], live, OneEntry()) == ([], Copies([], 2));
    assert [sb] + [] == [sb];
  }

  lemma RefsOfThese(caps: seq<CapKcap>)
    ensures var sa, sb := RecordAt(caps, 0x10000, None), RecordAt(caps, 0x20000, Some(1));
      RegionRefs([sa]) == multiset{} && RegionRefs([sb, sa]) == multiset{5} && RegionRefs([sb]) == multiset{5}
  {
    var sa, sb := RecordAt(caps, 0x10000, None), RecordAt(caps, 0x20000, Some(1));
    var a := RegionAccount({}, {});
    assert [sa][1..] == [] && [sb][1..] == [] && [sb, sa][1..] == [sa];
    assert AllRefs(a, []) == multiset{};
    assert AllRefs(a, [sa]) == a.refs(sa) + multiset{} && a.refs(sa) == multiset{};
    assert AllRefs(a, [sb]) == a.refs(sb) + multiset{} && a.refs(sb) == multiset{5};
    assert AllRefs(a, [sb, sa]) == a.refs(sb) + AllRefs(a, [sa]);
  }

  lemma OneEntryExact()
    ensures Exact(Copies([], 1), multiset{}, {}) && Exact(OneEntry(), multiset{5}, {}) && !Exact(Copies([], 2), multiset{5}, {})
  {
    var t := OneEntry().table;
    forall b: nat ensures Lookup(t, b) == if b == 5 then Some(t[0]) else None {
      assert t[1..] == [];
    }
    assert RefCount([], 5) == 0;
  }

  // A map is attached while listed, its session is closed, its dataspace is attached once more, and the first of the
  // two regions is detached: a record is left that names a copy the table does not have.
  lemma ClosedSessionLosesCopy(caps: seq<CapKcap>)
    ensures var (r1, c1) := Prepare(RegionKind(caps, {5}), [], [PlainRegion(0x10000)], Copies([], 1));
      var (r2, c2) := Prepare(RegionKind(caps, {}), r1, [PlainRegion(0x10000), PlainRegion(0x20000)], c1);
      var (r3, c3) := Prepare(RegionKind(caps, {}), r2, [PlainRegion(0x20000)], c2);
      && r3 == [RecordAt(caps, 0x20000, Some(1))] && Lookup(c3.table, 5).None?
      && Exact(c1, RegionRefs(r1), {}) && Exact(c2, RegionRefs(r2), {}) && !Exact(c3, RegionRefs(r3), {})
  {
    FirstCheckpoint(caps);
    SecondCheckpoint(caps);
    ThirdCheckpoint(caps);
    RefsOfThese(caps);
    OneEntryExact();
  }
}
