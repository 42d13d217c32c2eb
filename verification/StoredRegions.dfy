// Reconciling the attached regions of one region map (_prepare_attached_regions).  Both lookups are
// by an interval that includes the end of the region, so a region can be taken for its neighbour.
module StoredRegions {
  import opened InfoList
  import opened CapMap
  import opened CopyTable
  import opened Reconcile
  import opened StoredState

  // What a real region map guarantees: attached regions do not overlap.
  ghost predicate Separate(live: seq<Region>) {
    && (forall i :: 0 <= i < |live| ==> 0 < live[i].size)
    && (forall i, j :: 0 <= i < j < |live| ==>
          live[i].relAddr + live[i].size <= live[j].relAddr || live[j].relAddr + live[j].size <= live[i].relAddr)
  }

  ghost predicate RecordOf(s: StoredRegion, l: Region) {
    && s.relAddr == l.relAddr && s.dsBadge == l.dsBadge && s.size == l.size && s.offset == l.offset
    && s.executable == l.executable && s.bootstrapped == l.bootstrapped
  }

  ghost predicate StoredAt(stored: seq<StoredRegion>, addr: nat) {
    exists s :: s in stored && s.relAddr == addr
  }

  ghost predicate LiveAt(live: seq<Region>, addr: nat) {
    exists l :: l in live && l.relAddr == addr
  }

  // The stored list describes exactly the attachments of the map.
  ghost predicate Mirrored(stored: seq<StoredRegion>, live: seq<Region>) {
    && (forall addr :: StoredAt(stored, addr) <==> LiveAt(live, addr))
    && (forall s, l :: s in stored && l in live && s.relAddr == l.relAddr ==> RecordOf(s, l))
  }

  // The regions in front of i that have no record at their address, the last one first.
  ghost function News(stored: seq<StoredRegion>, live: seq<Region>, i: nat): seq<Region>
    requires i <= |live|
  {
    if i == 0 then []
    else if StoredAt(stored, live[i - 1].relAddr) then News(stored, live, i - 1)
    else [live[i - 1]] + News(stored, live, i - 1)
  }

  // find_by_addr of the stored list
  ghost predicate Found(st: seq<StoredRegion>, l: Region) {
    exists s :: s in st && Covers(s.relAddr, s.size, l.relAddr)
  }

  // The i-th live region has no record of its own, but the lookup finds another one for it: a stored
  // region, or one created in this pass for a region further ahead, that reaches up to its address.
  ghost predicate ShadowedAt(stored: seq<StoredRegion>, live: seq<Region>, i: nat) {
    && i < |live| && !StoredAt(stored, live[i].relAddr)
    && (Found(stored, live[i]) || exists n :: n in News(stored, live, i) && Covers(n.relAddr, n.size, live[i].relAddr))
  }

  // A record whose region is gone, but whose address the lookup still finds in a live region.
  ghost predicate Lingers(live: seq<Region>, s: StoredRegion) {
    !LiveAt(live, s.relAddr) && exists l :: l in live && Covers(l.relAddr, l.size, s.relAddr)
  }

  // A record whose address is attached again, but with something else.
  ghost predicate Outdated(live: seq<Region>, s: StoredRegion) {
    exists l :: l in live && l.relAddr == s.relAddr && !RecordOf(s, l)
  }

  ghost predicate Unambiguous(stored: seq<StoredRegion>, live: seq<Region>) {
    && (forall i :: !ShadowedAt(stored, live, i))
    && (forall s :: s in stored ==> !Lingers(live, s) && !Outdated(live, s))
  }

  // State of the first loop when the regions in front of i have been handled without a shadow.
  ghost predicate Handled(stored: seq<StoredRegion>, live: seq<Region>, i: nat, st: seq<StoredRegion>)
    requires i <= |live|
  {
    var news := News(stored, live, i);
    && |st| == |news| + |stored| && st[|news|..] == stored
    && forall k :: 0 <= k < |news| ==> RecordOf(st[k], news[k])
  }

  lemma {:induction false} NewsHas(stored: seq<StoredRegion>, live: seq<Region>, i: nat, l: Region)
    requires i <= |live|
    ensures l in News(stored, live, i) <==> l in live[..i] && !StoredAt(stored, l.relAddr)
  {
    if i > 0 {
      NewsHas(stored, live, i - 1, l);
      assert live[..i] == live[..i - 1] + [live[i - 1]];
    }
  }

  // Where a record of the list comes from.
  lemma Origin(stored: seq<StoredRegion>, live: seq<Region>, i: nat, st: seq<StoredRegion>, s: StoredRegion) returns (k: nat)
    requires i <= |live| && Handled(stored, live, i, st) && s in st
    ensures s in stored || (k < |News(stored, live, i)| && s == st[k])
  {
    k :| k < |st| && st[k] == s;
    var n := |News(stored, live, i)|;
    if k >= n {
      assert st[n..][k - n] == s;
    }
  }

  lemma StoredStays(stored: seq<StoredRegion>, live: seq<Region>, i: nat, st: seq<StoredRegion>, s: StoredRegion)
    requires i <= |live| && Handled(stored, live, i, st) && s in stored
    ensures s in st
  {
    var k :| 0 <= k < |stored| && stored[k] == s;
    assert st[|News(stored, live, i)|..][k] == s;
  }

  // Nothing found: a new record in front.  Something found: nothing changes.
  lemma UpsertRegion(caps: seq<CapKcap>, maps: set<nat>, st: seq<StoredRegion>, l: Region, c: Copies)
    ensures var r := Upsert(RegionKind(caps, maps), st, l, c);
      if Found(st, l) then r == (st, c)
      else |r.0| == |st| + 1 && r.0[1..] == st && RecordOf(r.0[0], l)
  {
    var kind := RegionKind(caps, maps);
    var k := FindStored(kind, st, l);
    if k < |st| {
      assert st[k] in st && Covers(st[k].relAddr, st[k].size, l.relAddr);
      assert st[k := st[k]] == st;
    } else {
      assert forall s :: s in st ==> !kind.found(s, l);
    }
  }

  lemma FoundUnlessNew(stored: seq<StoredRegion>, live: seq<Region>, i: nat, st: seq<StoredRegion>)
    requires i < |live| && Handled(stored, live, i, st)
    ensures Found(st, live[i]) <==> StoredAt(stored, live[i].relAddr) || ShadowedAt(stored, live, i)
  {
    var l, news := live[i], News(stored, live, i);
    if StoredAt(stored, l.relAddr) {
      var s :| s in stored && s.relAddr == l.relAddr;
      StoredStays(stored, live, i, st, s);
      assert Covers(s.relAddr, s.size, l.relAddr);
    } else if Found(stored, l) {
      var s :| s in stored && Covers(s.relAddr, s.size, l.relAddr);
      StoredStays(stored, live, i, st, s);
    } else if n :| n in news && Covers(n.relAddr, n.size, l.relAddr) {
      var k :| 0 <= k < |news| && news[k] == n;
      assert st[k] in st && Covers(st[k].relAddr, st[k].size, l.relAddr);
    } else {
      forall s | s in st ensures !Covers(s.relAddr, s.size, l.relAddr) {
        var k := Origin(stored, live, i, st, s);
        assert s !in stored ==> news[k] in news;
      }
    }
  }

  lemma HandleNext(caps: seq<CapKcap>, maps: set<nat>, stored: seq<StoredRegion>, live: seq<Region>, i: nat, st: seq<StoredRegion>, c: Copies)
    requires i < |live| && Handled(stored, live, i, st) && !ShadowedAt(stored, live, i)
    ensures Handled(stored, live, i + 1, Upsert(RegionKind(caps, maps), st, live[i], c).0)
  {
    var r := Upsert(RegionKind(caps, maps), st, live[i], c).0;
    FoundUnlessNew(stored, live, i, st);
    UpsertRegion(caps, maps, st, live[i], c);
    if !StoredAt(stored, live[i].relAddr) {
      var news, news' := News(stored, live, i), News(stored, live, i + 1);
      assert r[|news'|..] == r[1..][|news|..];
      forall k | 0 <= k < |news'| ensures RecordOf(r[k], news'[k]) {
        if k > 0 {
          assert r[k] == r[1..][k - 1] && news'[k] == news[k - 1];
        }
      }
    }
  }

  // A region found under another record's address is not stored, now or later in the pass.
  lemma {:induction false} ShadowedSkipped(caps: seq<CapKcap>, maps: set<nat>, stored: seq<StoredRegion>, live: seq<Region>,
                                           i: nat, st: seq<StoredRegion>, c: Copies)
    requires Separate(live) && i < |live| && Handled(stored, live, i, st) && ShadowedAt(stored, live, i)
    ensures !StoredAt(Pass1(RegionKind(caps, maps), st, live[i..], c).0, live[i].relAddr)
  {
    var l, news := live[i], News(stored, live, i);
    FoundUnlessNew(stored, live, i, st);
    UpsertRegion(caps, maps, st, l, c);
    forall s | s in st ensures s.relAddr != l.relAddr {
      var k := Origin(stored, live, i, st, s);
      if s !in stored {
        NewsHas(stored, live, i, news[k]);
        var j :| 0 <= j < i && live[j] == news[k];
      }
    }
    assert live[i..][0] == l && live[i..][1..] == live[i + 1..];
    forall m | m in live[i + 1..] ensures m.relAddr != l.relAddr {
      var n :| i < n < |live| && live[n] == m;
    }
    NeverAdds(caps, maps, st, live[i + 1..], c, l.relAddr);
  }

  lemma {:induction false} NeverAdds(caps: seq<CapKcap>, maps: set<nat>, st: seq<StoredRegion>, todo: seq<Region>, c: Copies, addr: nat)
    requires !StoredAt(st, addr) && !LiveAt(todo, addr)
    ensures !StoredAt(Pass1(RegionKind(caps, maps), st, todo, c).0, addr)
    decreases |todo|
  {
    if todo != [] {
      var (st', c') := Upsert(RegionKind(caps, maps), st, todo[0], c);
      UpsertRegion(caps, maps, st, todo[0], c);
      assert todo[0] in todo;
      if !Found(st, todo[0]) {
        assert st' == [st'[0]] + st;
      }
      assert forall l :: l in todo[1..] ==> l in todo;
      NeverAdds(caps, maps, st', todo[1..], c', addr);
    }
  }

  ghost predicate AnyShadowed(stored: seq<StoredRegion>, live: seq<Region>, i: nat) {
    exists n :: i <= n < |live| && ShadowedAt(stored, live, n)
  }

  // Some region is missing in the list.
  ghost predicate AnyMissing(live: seq<Region>, r: seq<StoredRegion>) {
    exists l :: l in live && !StoredAt(r, l.relAddr)
  }

  lemma {:induction false} Pass1Unfolds(caps: seq<CapKcap>, maps: set<nat>, live: seq<Region>, i: nat, st: seq<StoredRegion>, c: Copies)
    requires i < |live|
    ensures var (st', c') := Upsert(RegionKind(caps, maps), st, live[i], c);
      Pass1(RegionKind(caps, maps), st, live[i..], c) == Pass1(RegionKind(caps, maps), st', live[i + 1..], c')
  {
    assert live[i..][0] == live[i] && live[i..][1..] == live[i + 1..];
  }

  lemma NoneShadowedAt(stored: seq<StoredRegion>, live: seq<Region>, i: nat)
    requires i < |live| && !ShadowedAt(stored, live, i)
    ensures AnyShadowed(stored, live, i) == AnyShadowed(stored, live, i + 1)
  {
  }

  lemma {:induction false} RegionPass1(caps: seq<CapKcap>, maps: set<nat>, stored: seq<StoredRegion>, live: seq<Region>,
                                       i: nat, st: seq<StoredRegion>, c: Copies)
    requires Separate(live) && i <= |live| && Handled(stored, live, i, st)
    ensures var r := Pass1(RegionKind(caps, maps), st, live[i..], c).0;
      if AnyShadowed(stored, live, i) then AnyMissing(live, r) else Handled(stored, live, |live|, r)
    decreases |live| - i
  {
    if i == |live| {
      assert live[i..] == [];
    } else if ShadowedAt(stored, live, i) {
      ShadowedSkipped(caps, maps, stored, live, i, st, c);
      assert live[i] in live;
    } else {
      HandleNext(caps, maps, stored, live, i, st, c);
      Pass1Unfolds(caps, maps, live, i, st, c);
      NoneShadowedAt(stored, live, i);
      var (st', c') := Upsert(RegionKind(caps, maps), st, live[i], c);
      RegionPass1(caps, maps, stored, live, i + 1, st', c');
    }
  }

  lemma {:induction false} RegionPass2(caps: seq<CapKcap>, maps: set<nat>, stored: seq<StoredRegion>, live: seq<Region>, c: Copies, s: StoredRegion)
    ensures s in Pass2(RegionKind(caps, maps), stored, live, c).0 <==>
      s in stored && exists l :: l in live && Covers(l.relAddr, l.size, s.relAddr)
    decreases |stored|
  {
    var kind := RegionKind(caps, maps);
    if stored != [] {
      var k := FindLive(kind, live, stored[0]);
      assert stored == [stored[0]] + stored[1..];
      if k == |live| {
        RegionPass2(caps, maps, stored[1..], live, kind.destroy(stored[0], c), s);
      } else {
        assert live[k] in live && Covers(live[k].relAddr, live[k].size, stored[0].relAddr);
        RegionPass2(caps, maps, stored[1..], live, c, s);
      }
    }
  }

  ghost predicate CoveredBy(live: seq<Region>, s: StoredRegion) {
    exists l :: l in live && Covers(l.relAddr, l.size, s.relAddr)
  }

  // The stored regions describe the map exactly after a pass if and only if no lookup can be
  // misled: no new region is shadowed, no stale record lingers and no record is outdated.
  lemma RegionsMirroredIff(caps: seq<CapKcap>, maps: set<nat>, stored: seq<StoredRegion>, live: seq<Region>, c: Copies)
    requires Separate(live)
    ensures Mirrored(Prepare(RegionKind(caps, maps), stored, live, c).0, live) <==> Unambiguous(stored, live)
  {
    var kind := RegionKind(caps, maps);
    var (m, c') := Pass1(kind, stored, live, c);
    var r := Pass2(kind, m, live, c').0;
    assert live[0..] == live;
    RegionPass1(caps, maps, stored, live, 0, stored, c);
    forall s ensures s in r <==> s in m && CoveredBy(live, s) {
      RegionPass2(caps, maps, m, live, c', s);
    }
    MirroredIfHandled(stored, live, m, r);
  }

  lemma MirroredIfHandled(stored: seq<StoredRegion>, live: seq<Region>, m: seq<StoredRegion>, r: seq<StoredRegion>)
    requires Separate(live) && forall s :: s in r <==> s in m && CoveredBy(live, s)
    requires if AnyShadowed(stored, live, 0) then AnyMissing(live, m) else Handled(stored, live, |live|, m)
    ensures Mirrored(r, live) <==> Unambiguous(stored, live)
  {
    if AnyShadowed(stored, live, 0) {
      var l :| l in live && !StoredAt(m, l.relAddr);
      assert LiveAt(live, l.relAddr) && !StoredAt(r, l.relAddr);
    } else if s :| s in stored && Lingers(live, s) {
      StoredStays(stored, live, |live|, m, s);
      assert s in r && StoredAt(r, s.relAddr);
    } else if s :| s in stored && Outdated(live, s) {
      StoredStays(stored, live, |live|, m, s);
      var l :| l in live && l.relAddr == s.relAddr && !RecordOf(s, l);
      assert Covers(l.relAddr, l.size, s.relAddr) && s in r;
    } else {
      MirroredIfUnambiguous(stored, live, m, r);
    }
  }

  lemma MirroredIfUnambiguous(stored: seq<StoredRegion>, live: seq<Region>, m: seq<StoredRegion>, r: seq<StoredRegion>)
    requires Separate(live) && forall s :: s in r <==> s in m && CoveredBy(live, s)
    requires Handled(stored, live, |live|, m) && Unambiguous(stored, live)
    ensures Mirrored(r, live)
  {
    forall addr | LiveAt(live, addr) ensures StoredAt(r, addr) {
      LiveIsStored(stored, live, m, r, addr);
    }
    forall s | s in r ensures LiveAt(live, s.relAddr) {
      if s in stored {
        assert !Lingers(live, s);
      } else {
        var k := Origin(stored, live, |live|, m, s);
        NewsHas(stored, live, |live|, News(stored, live, |live|)[k]);
      }
    }
    forall s, l | s in r && l in live && s.relAddr == l.relAddr ensures RecordOf(s, l) {
      RecordIsOf(stored, live, m, s, l);
    }
  }

  lemma RecordIsOf(stored: seq<StoredRegion>, live: seq<Region>, m: seq<StoredRegion>, s: StoredRegion, l: Region)
    requires Separate(live) && Handled(stored, live, |live|, m) && (s in stored ==> !Outdated(live, s))
    requires s in m && l in live && s.relAddr == l.relAddr
    ensures RecordOf(s, l)
  {
    var k := Origin(stored, live, |live|, m, s);
    if s !in stored {
      var n := News(stored, live, |live|)[k];
      NewsHas(stored, live, |live|, n);
      assert live[..|live|] == live;
      SameAddress(live, n, l);
    }
  }

  lemma SameAddress(live: seq<Region>, l: Region, l': Region)
    requires Separate(live) && l in live && l' in live && l.relAddr == l'.relAddr
    ensures l == l'
  {
    var i :| 0 <= i < |live| && live[i] == l;
    var j :| 0 <= j < |live| && live[j] == l';
    assert i == j;
  }

  lemma LiveIsStored(stored: seq<StoredRegion>, live: seq<Region>, m: seq<StoredRegion>, r: seq<StoredRegion>, addr: nat)
    requires forall s :: s in r <==> s in m && CoveredBy(live, s)
    requires Handled(stored, live, |live|, m) && LiveAt(live, addr)
    ensures StoredAt(r, addr)
  {
    var l :| l in live && l.relAddr == addr;
    var s: StoredRegion;
    if StoredAt(stored, addr) {
      s :| s in stored && s.relAddr == addr;
      StoredStays(stored, live, |live|, m, s);
    } else {
      NewsHas(stored, live, |live|, l);
      assert live[..|live|] == live;
      var k :| 0 <= k < |News(stored, live, |live|)| && News(stored, live, |live|)[k] == l;
      s := m[k];
    }
    assert s in m && Covers(l.relAddr, l.size, s.relAddr);
  }

  // Two adjacent regions of a fresh map: the upper one, attached first and so further back in the
  // list, is taken for the end of the lower one and never stored.
  lemma UpperNeighbourLost(caps: seq<CapKcap>, maps: set<nat>, c: Copies)
    ensures var live := [Region(5, 0x1000, 0, 0x1000, false, true), Region(6, 0x1000, 0, 0x2000, false, true)];
      Separate(live) && !Mirrored(Prepare(RegionKind(caps, maps), [], live, c).0, live)
  {
    var live := [Region(5, 0x1000, 0, 0x1000, false, true), Region(6, 0x1000, 0, 0x2000, false, true)];
    assert Covers(live[0].relAddr, live[0].size, live[1].relAddr);
    assert ShadowedAt([], live, 1);
    RegionsMirroredIff(caps, maps, [], live, c);
  }
}
