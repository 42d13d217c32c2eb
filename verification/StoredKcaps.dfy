// The selectors of stored records: a checkpoint looks them up in the capability map that it has just scanned.
module StoredKcaps {
  import opened InfoList
  import opened CapMap
  import opened CopyTable
  import opened Reconcile
  import opened StoredState
  import opened StoredStateRefs

  // The map has the badge under selector kcap; 0 stands for a badge that it does not have.
  ghost predicate KcapRight(caps: seq<CapKcap>, badge: nat, kcap: nat) {
    CapKcap(kcap, badge) in caps || (kcap == 0 && forall e :: e in caps ==> e.badge != badge)
  }

  lemma {:induction false} KcapOfRight(caps: seq<CapKcap>, badge: nat)
    ensures KcapRight(caps, badge, KcapOf(caps, badge))
  {
    var p := (e: CapKcap) => e.badge == badge;
    FindIs(caps, p);
  }

  lemma {:induction false} FindIs<T>(s: seq<T>, p: T -> bool)
    ensures match Find(s, p)
      case Some(x) => x in s && p(x)
      case None => forall x :: x in s ==> !p(x)
  {
    if s != [] && !p(s[0]) {
      FindIs(s[1..], p);
      assert s == [s[0]] + s[1..];
    }
  }

  // ---- What holds of all records ----

  // Creating a record of an object that is ok makes the property true, and updating keeps it.
  ghost predicate Closed<S(!new), L(!new)>(kind: Kind<S, L>, ok: L -> bool, p: S -> bool) {
    && (forall l, c :: ok(l) ==> p(kind.create(l, c).0))
    && (forall s, l, c :: p(s) ==> p(kind.update(s, l, c).0))
  }

  ghost predicate All<S(!new)>(s: seq<S>, p: S -> bool) {
    forall x :: x in s ==> p(x)
  }

  lemma {:induction false} UpsertAll<S(!new), L(!new)>(kind: Kind<S, L>, ok: L -> bool, p: S -> bool, stored: seq<S>, l: L, c: Copies)
    requires Closed(kind, ok, p) && All(stored, p) && ok(l)
    ensures All(Upsert(kind, stored, l, c).0, p)
  {
    var k := FindStored(kind, stored, l);
    if k < |stored| {
      assert stored[k] in stored;
    }
  }

  lemma {:induction false} Pass1All<S(!new), L(!new)>(kind: Kind<S, L>, ok: L -> bool, p: S -> bool, stored: seq<S>, live: seq<L>, c: Copies)
    requires Closed(kind, ok, p) && All(stored, p) && All(live, ok)
    ensures All(Pass1(kind, stored, live, c).0, p)
    decreases |live|
  {
    if live != [] {
      assert live[0] in live && forall l :: l in live[1..] ==> l in live;
      UpsertAll(kind, ok, p, stored, live[0], c);
      var (stored', c') := Upsert(kind, stored, live[0], c);
      Pass1All(kind, ok, p, stored', live[1..], c');
    }
  }

  lemma {:induction false} Pass2All<S(!new), L(!new)>(kind: Kind<S, L>, p: S -> bool, stored: seq<S>, live: seq<L>, c: Copies)
    requires All(stored, p)
    ensures All(Pass2(kind, stored, live, c).0, p)
    decreases |stored|
  {
    if stored != [] {
      assert stored[0] in stored && forall s :: s in stored[1..] ==> s in stored;
      Pass2All(kind, p, stored[1..], live, if FindLive(kind, live, stored[0]) == |live| then kind.destroy(stored[0], c) else c);
    }
  }

  lemma {:induction false} PrepareAll<S(!new), L(!new)>(kind: Kind<S, L>, ok: L -> bool, p: S -> bool, stored: seq<S>, live: seq<L>, c: Copies)
    requires Closed(kind, ok, p) && All(stored, p) && All(live, ok)
    ensures All(Prepare(kind, stored, live, c).0, p)
  {
    var (stored', c') := Pass1(kind, stored, live, c);
    Pass1All(kind, ok, p, stored, live, c);
    Pass2All(kind, p, stored', live, c');
  }

  // ---- Kept or made ----

  // A record of an object that owns a list: kept from stored, or made with what right says of its head; and of what
  // it owns, everything was kept or made, as kid says.
  ghost predicate From<H(!new), C(!new)>(stored: seq<Node<H, C>>, keeps: (H, H) -> bool, right: H -> bool, kid: (seq<C>, C) -> bool, s: Node<H, C>) {
    || (exists s0 :: s0 in stored && keeps(s0.head, s.head) && KidsFrom(kid, s0.kids, s.kids))
    || (right(s.head) && KidsFrom(kid, [], s.kids))
  }

  ghost predicate KidsFrom<C(!new)>(kid: (seq<C>, C) -> bool, before: seq<C>, kids: seq<C>) {
    forall x :: x in kids ==> kid(before, x)
  }

  // What is asked of the kind of what is owned.
  ghost predicate KidsClosed<C(!new), D(!new)>(child: Kind<C, D>, kid: (seq<C>, C) -> bool) {
    (forall before :: ClosedOver(child, kid, before)) && (forall before, x :: x in before ==> kid(before, x))
  }

  ghost predicate ClosedOver<C(!new), D(!new)>(child: Kind<C, D>, kid: (seq<C>, C) -> bool, before: seq<C>) {
    Closed(child, (l: D) => true, (x: C) => kid(before, x))
  }

  lemma {:induction false} KidsPrepared<C(!new), D(!new)>(child: Kind<C, D>, kid: (seq<C>, C) -> bool, before: seq<C>, kids: seq<C>, live: seq<D>, c: Copies)
    requires KidsClosed(child, kid) && KidsFrom(kid, before, kids)
    ensures KidsFrom(kid, before, Prepare(child, kids, live, c).0)
  {
    assert ClosedOver(child, kid, before);
    PrepareAll(child, (l: D) => true, (x: C) => kid(before, x), kids, live, c);
  }

  lemma {:induction false} NestedClosed<H(!new), C(!new), G(!new), D(!new)>(kind: Kind<Node<H, C>, Node<G, D>>, child: Kind<C, D>, ok: Node<G, D> -> bool,
      refresh: (H, G) -> H, stored: seq<Node<H, C>>, keeps: (H, H) -> bool, right: H -> bool, kid: (seq<C>, C) -> bool)
    requires KidsClosed(child, kid)
    requires forall l, c :: ok(l) ==> right(kind.create(l, c).0.head) && KidsFrom(kid, [], kind.create(l, c).0.kids)
    requires forall s, l, c :: kind.update(s, l, c).0 == Node(refresh(s.head, l.head), Prepare(child, s.kids, l.kids, c).0)
    requires forall h0, h, g :: keeps(h0, h) ==> keeps(h0, refresh(h, g))
    requires forall h, g :: right(h) ==> right(refresh(h, g))
    ensures Closed(kind, ok, (s: Node<H, C>) => From(stored, keeps, right, kid, s))
  {
    forall s, l, c | From(stored, keeps, right, kid, s) ensures From(stored, keeps, right, kid, kind.update(s, l, c).0) {
      if s0 :| s0 in stored && keeps(s0.head, s.head) && KidsFrom(kid, s0.kids, s.kids) {
        KidsPrepared(child, kid, s0.kids, s.kids, l.kids, c);
        assert keeps(s0.head, refresh(s.head, l.head));
      } else {
        KidsPrepared(child, kid, [], s.kids, l.kids, c);
      }
    }
  }

  lemma {:induction false} StoredFrom<H(!new), C(!new)>(stored: seq<Node<H, C>>, keeps: (H, H) -> bool, right: H -> bool, kid: (seq<C>, C) -> bool)
    requires (forall h :: keeps(h, h)) && forall before, x :: x in before ==> kid(before, x)
    ensures All(stored, (s: Node<H, C>) => From(stored, keeps, right, kid, s))
  {
  }

  // ---- The kinds of records ----

  // A record of a dataspace or a region is never touched: it was there before, or has been made.
  ghost predicate RamDsFrom(caps: seq<CapKcap>, before: seq<StoredRamDs>, d: StoredRamDs) {
    d in before || KcapRight(caps, d.badge, d.kcap)
  }

  ghost predicate RegionFrom(caps: seq<CapKcap>, before: seq<StoredRegion>, q: StoredRegion) {
    q in before || KcapRight(caps, q.dsBadge, q.kcap)
  }

  // Of a region map only the fault handler changes.
  ghost predicate KeptMap(h0: StoredMapHead, h: StoredMapHead) {
    h == h0.(sigh := h.sigh)
  }

  ghost predicate MapFrom(caps: seq<CapKcap>, before: seq<StoredMap>, m: StoredMap) {
    From(before, (h0: StoredMapHead, h: StoredMapHead) => KeptMap(h0, h), (h: StoredMapHead) => KcapRight(caps, h.badge, h.kcap),
         (b: seq<StoredRegion>, q: StoredRegion) => RegionFrom(caps, b, q), m)
  }

  // A session's record is made for a live one, with its arguments as they are then, and stays.
  ghost predicate MadeSession<D(!new)>(caps: seq<CapKcap>, live: seq<Node<SessionHead, D>>, h: StoredSessionHead) {
    KcapRight(caps, h.badge, h.kcap) && exists l :: l in live && DescribesSession(h, l.head)
  }

  ghost predicate DescribesSession(s: StoredSessionHead, l: SessionHead) {
    s.badge == l.badge && s.bootstrapped == l.bootstrapped && s.creationArgs == l.creationArgs && s.upgradeArgs == l.upgradeArgs
  }

  ghost predicate RamFrom(caps: seq<CapKcap>, live: seq<RamSession>, before: seq<StoredRamSession>, s: StoredRamSession) {
    From(before, (h0: StoredSessionHead, h: StoredSessionHead) => h0 == h, (h: StoredSessionHead) => MadeSession(caps, live, h),
         (b: seq<StoredRamDs>, d: StoredRamDs) => RamDsFrom(caps, b, d), s)
  }

  ghost predicate RmFrom(caps: seq<CapKcap>, live: seq<RmSession>, before: seq<StoredRmSession>, s: StoredRmSession) {
    From(before, (h0: StoredSessionHead, h: StoredSessionHead) => h0 == h, (h: StoredSessionHead) => MadeSession(caps, live, h),
         (b: seq<StoredMap>, m: StoredMap) => MapFrom(caps, b, m), s)
  }

  lemma {:induction false} RamDsClosed(caps: seq<CapKcap>)
    ensures KidsClosed(RamDsKind(caps), (b: seq<StoredRamDs>, d: StoredRamDs) => RamDsFrom(caps, b, d))
  {
    var kind, kid := RamDsKind(caps), (b: seq<StoredRamDs>, d: StoredRamDs) => RamDsFrom(caps, b, d);
    forall before: seq<StoredRamDs> ensures ClosedOver(kind, kid, before) {
      forall l: RamDs, c: Copies ensures kid(before, kind.create(l, c).0) {
        KcapOfRight(caps, l.badge);
      }
    }
  }

  lemma {:induction false} RegionClosed(caps: seq<CapKcap>, maps: set<nat>)
    ensures KidsClosed(RegionKind(caps, maps), (b: seq<StoredRegion>, q: StoredRegion) => RegionFrom(caps, b, q))
  {
    var kind, kid := RegionKind(caps, maps), (b: seq<StoredRegion>, q: StoredRegion) => RegionFrom(caps, b, q);
    forall before: seq<StoredRegion> ensures ClosedOver(kind, kid, before) {
      forall l: Region, c: Copies ensures kid(before, kind.create(l, c).0) {
        KcapOfRight(caps, l.dsBadge);
      }
    }
  }

  lemma {:induction false} MapClosed(caps: seq<CapKcap>, maps: set<nat>)
    ensures KidsClosed(MapKind(caps, maps), (b: seq<StoredMap>, m: StoredMap) => MapFrom(caps, b, m))
  {
    var kind, kid := MapKind(caps, maps), (b: seq<StoredMap>, m: StoredMap) => MapFrom(caps, b, m);
    var keeps, right := (h0: StoredMapHead, h: StoredMapHead) => KeptMap(h0, h), (h: StoredMapHead) => KcapRight(caps, h.badge, h.kcap);
    var inner := (b: seq<StoredRegion>, q: StoredRegion) => RegionFrom(caps, b, q);
    RegionClosed(caps, maps);
    forall l: RegionMap, c: Copies ensures right(kind.create(l, c).0.head) {
      KcapOfRight(caps, l.head.badge);
    }
    var refresh := (s: StoredMapHead, l: MapHead) => s.(sigh := l.sigh);
    forall h0: StoredMapHead, h: StoredMapHead, g: MapHead | keeps(h0, h) ensures keeps(h0, refresh(h, g)) {
      assert h0.(sigh := g.sigh) == h.(sigh := g.sigh);
    }
    forall s: StoredMap, l: RegionMap, c: Copies
      ensures kind.update(s, l, c).0 == Node(refresh(s.head, l.head), Prepare(RegionKind(caps, maps), s.kids, l.kids, c).0)
    {
    }
    forall before: seq<StoredMap> ensures ClosedOver(kind, kid, before) {
      NestedClosed(kind, RegionKind(caps, maps), (l: RegionMap) => true, refresh,
                   before, keeps, right, inner);
    }
    forall h: StoredMapHead ensures keeps(h, h) {
      assert h == h.(sigh := h.sigh);
    }
    forall before: seq<StoredMap>, m | m in before ensures kid(before, m) {
      StoredFrom(before, keeps, right, inner);
    }
  }

  lemma {:induction false} RamPreparedFrom(caps: seq<CapKcap>, stored: seq<StoredRamSession>, live: seq<RamSession>, c: Copies)
    ensures forall s :: s in Prepare(RamSessionKind(caps), stored, live, c).0 ==> RamFrom(caps, live, stored, s)
  {
    var kind := RamSessionKind(caps);
    var keeps, right := (h0: StoredSessionHead, h: StoredSessionHead) => h0 == h, (h: StoredSessionHead) => MadeSession(caps, live, h);
    var inner, ok := (b: seq<StoredRamDs>, d: StoredRamDs) => RamDsFrom(caps, b, d), (l: RamSession) => l in live;
    RamDsClosed(caps);
    forall l: RamSession, c: Copies | ok(l) ensures right(kind.create(l, c).0.head) {
      KcapOfRight(caps, l.head.badge);
      assert DescribesSession(kind.create(l, c).0.head, l.head);
    }
    NestedClosed(kind, RamDsKind(caps), ok, (s: StoredSessionHead, l: SessionHead) => s, stored, keeps, right, inner);
    StoredFrom(stored, keeps, right, inner);
    PrepareAll(kind, ok, (s: StoredRamSession) => From(stored, keeps, right, inner, s), stored, live, c);
  }

  lemma {:induction false} SeedFrom(caps: seq<CapKcap>, l: RmSession, m: StoredMap)
    requires m in PdSeed(caps, l)
    ensures MapFrom(caps, [], m)
  {
    var i :| 0 <= i < |l.kids| && PdSeed(caps, l)[i] == m;
    KcapOfRight(caps, l.kids[i].head.badge);
  }

  lemma {:induction false} RmPreparedFrom(caps: seq<CapKcap>, maps: set<nat>, pd: bool, stored: seq<StoredRmSession>, live: seq<RmSession>, c: Copies)
    ensures var kind := if pd then PdSessionKind(caps, maps) else RmSessionKind(caps, maps);
      forall s :: s in Prepare(kind, stored, live, c).0 ==> RmFrom(caps, live, stored, s)
  {
    var kind := if pd then PdSessionKind(caps, maps) else RmSessionKind(caps, maps);
    var keeps, right := (h0: StoredSessionHead, h: StoredSessionHead) => h0 == h, (h: StoredSessionHead) => MadeSession(caps, live, h);
    var inner, ok := (b: seq<StoredMap>, m: StoredMap) => MapFrom(caps, b, m), (l: RmSession) => l in live;
    MapClosed(caps, maps);
    forall l: RmSession, c: Copies | ok(l) ensures right(kind.create(l, c).0.head) && KidsFrom(inner, [], kind.create(l, c).0.kids) {
      KcapOfRight(caps, l.head.badge);
      assert DescribesSession(kind.create(l, c).0.head, l.head);
      forall m | m in kind.create(l, c).0.kids ensures inner([], m) {
        SeedFrom(caps, l, m);
      }
    }
    NestedClosed(kind, MapKind(caps, maps), ok, (s: StoredSessionHead, l: SessionHead) => s, stored, keeps, right, inner);
    StoredFrom(stored, keeps, right, inner);
    PrepareAll(kind, ok, (s: StoredRmSession) => From(stored, keeps, right, inner, s), stored, live, c);
  }

  // ---- Checkpoints ----

  // After a checkpoint every record at every level is one from before, or has been made by it; then its selector is
  // one that the capability map, as just scanned, has for the record's own badge, or 0 if it has none.
  lemma {:induction false} CheckpointKcaps(s: Stored, w: World, c: Copies)
    ensures var s' := Checkpoint(s, w, c).0;
      && (forall r :: r in s'.ram ==> RamFrom(w.caps, w.ram, s.ram, r))
      && (forall r :: r in s'.pd ==> RmFrom(w.caps, w.pd, s.pd, r)) && (forall r :: r in s'.rm ==> RmFrom(w.caps, w.rm, s.rm, r))
  {
    var (ram, c1) := Prepare(RamSessionKind(w.caps), s.ram, w.ram, c);
    var (pd, c2) := Prepare(PdSessionKind(w.caps, Maps(w)), s.pd, w.pd, c1);
    RamPreparedFrom(w.caps, s.ram, w.ram, c);
    RmPreparedFrom(w.caps, Maps(w), true, s.pd, w.pd, c1);
    RmPreparedFrom(w.caps, Maps(w), false, s.rm, w.rm, c2);
  }

  // ---- Sequences of checkpoints ----

  // The selector was right for the badge in the capability map scanned by one of the checkpoints.
  ghost predicate EverRight(worlds: seq<World>, badge: nat, kcap: nat) {
    exists n :: 0 <= n < |worlds| && KcapRight(worlds[n].caps, badge, kcap)
  }

  ghost predicate RamEver(worlds: seq<World>, s: StoredRamSession) {
    EverRight(worlds, s.head.badge, s.head.kcap) && forall d :: d in s.kids ==> EverRight(worlds, d.badge, d.kcap)
  }

  ghost predicate MapEver(worlds: seq<World>, m: StoredMap) {
    EverRight(worlds, m.head.badge, m.head.kcap) && forall q :: q in m.kids ==> EverRight(worlds, q.dsBadge, q.kcap)
  }

  ghost predicate RmEver(worlds: seq<World>, s: StoredRmSession) {
    EverRight(worlds, s.head.badge, s.head.kcap) && forall m :: m in s.kids ==> MapEver(worlds, m)
  }

  ghost predicate AllEver(worlds: seq<World>, s: Stored) {
    && (forall r :: r in s.ram ==> RamEver(worlds, r))
    && (forall r :: r in s.pd ==> RmEver(worlds, r)) && (forall r :: r in s.rm ==> RmEver(worlds, r))
  }

  lemma {:induction false} EverLater(before: seq<World>, w: World, badge: nat, kcap: nat)
    requires EverRight(before, badge, kcap) || KcapRight(w.caps, badge, kcap)
    ensures EverRight(before + [w], badge, kcap)
  {
    if n :| 0 <= n < |before| && KcapRight(before[n].caps, badge, kcap) {
      assert (before + [w])[n] == before[n];
    } else {
      assert (before + [w])[|before|] == w;
    }
  }

  lemma {:induction false} RamEverNext(before: seq<World>, w: World, stored: seq<StoredRamSession>, r: StoredRamSession)
    requires (forall s :: s in stored ==> RamEver(before, s)) && RamFrom(w.caps, w.ram, stored, r)
    ensures RamEver(before + [w], r)
  {
    EverLater(before, w, r.head.badge, r.head.kcap);
    forall d | d in r.kids ensures EverRight(before + [w], d.badge, d.kcap) {
      EverLater(before, w, d.badge, d.kcap);
    }
  }

  lemma {:induction false} MapEverNext(before: seq<World>, w: World, stored: seq<StoredMap>, m: StoredMap)
    requires (forall s :: s in stored ==> MapEver(before, s)) && MapFrom(w.caps, stored, m)
    ensures MapEver(before + [w], m)
  {
    EverLater(before, w, m.head.badge, m.head.kcap);
    forall q | q in m.kids ensures EverRight(before + [w], q.dsBadge, q.kcap) {
      EverLater(before, w, q.dsBadge, q.kcap);
    }
  }

  lemma {:induction false} RmEverNext(before: seq<World>, w: World, live: seq<RmSession>, stored: seq<StoredRmSession>, r: StoredRmSession)
    requires (forall s :: s in stored ==> RmEver(before, s)) && RmFrom(w.caps, live, stored, r)
    ensures RmEver(before + [w], r)
  {
    EverLater(before, w, r.head.badge, r.head.kcap);
    forall m | m in r.kids ensures MapEver(before + [w], m) {
      if s0 :| s0 in stored && s0.head == r.head && KidsFrom((b: seq<StoredMap>, x: StoredMap) => MapFrom(w.caps, b, x), s0.kids, r.kids) {
        MapEverNext(before, w, s0.kids, m);
      } else {
        MapEverNext(before, w, [], m);
      }
    }
  }

  // After any sequence of checkpoints every record, at every level, has a selector that was right when one of them
  // scanned the capability map; by CheckpointKcaps that was the one that made the record.
  lemma {:induction false} KcapsEverRight(worlds: seq<World>)
    ensures AllEver(worlds, After(worlds).0)
    decreases |worlds|
  {
    if worlds != [] {
      var before, w := worlds[..|worlds| - 1], worlds[|worlds| - 1];
      KcapsEverRight(before);
      assert worlds == before + [w];
      var (s, c) := After(before);
      CheckpointKcaps(s, w, c);
      var s' := Checkpoint(s, w, c).0;
      forall r | r in s'.ram ensures RamEver(worlds, r) {
        RamEverNext(before, w, s.ram, r);
      }
      forall r | r in s'.pd ensures RmEver(worlds, r) {
        RmEverNext(before, w, w.pd, s.pd, r);
      }
      forall r | r in s'.rm ensures RmEver(worlds, r) {
        RmEverNext(before, w, w.rm, s.rm, r);
      }
    }
  }
}
