// The first half of Restorer::restore: every stored object is identified with one the fresh child
// already has, or recreated, and the translation of badges is built (src/rtcr/restorer.cc).
module Restorer {
  import opened Variants
  import opened InfoList
  import opened CapMap
  import opened RamIdentify
  import opened StoredState
  import opened Translation
  import opened RestoreState

  class Restorer {
    // How the arrays of timestamps are filled.
    const variant: Variant
    var ckptToResto: seq<CkptResto>
    var capabilityMap: seq<CapKcap>
    // The badge of the next object that is created for the child.
    var next: nat

    ghost function Bindings(): Bound
      reads this
    {
      Bound(ckptToResto, capabilityMap)
    }

    constructor (variant: Variant, next: nat)
      ensures ckptToResto == [] && capabilityMap == [] && this.variant == variant && this.next == next
    {
      ckptToResto, capabilityMap, this.variant, this.next := [], [], variant, next;
    }

    // A new object of the child, to be put into slot kcap of its capability map.
    method Create(kcap: nat) returns (badge: nat)
      modifies this
      ensures badge == old(next) && next == badge + 1 && ckptToResto == old(ckptToResto)
      ensures capabilityMap == [CapKcap(kcap, badge)] + old(capabilityMap)
    {
      badge := next;
      next := next + 1;
      capabilityMap := [CapKcap(kcap, badge)] + capabilityMap;
    }

    // ---- RAM sessions ----

    // None is an array access out of bounds.
    method IdentifyBootstrapped(live: seq<RamDs>, stored: seq<StoredRamDs>) returns (pairs: Option<seq<CkptResto>>)
      requires DistinctDs(stored, live)
      ensures pairs.Some? <==> Matches(variant, Entries(stored), LiveEntries(live))
      ensures pairs.Some? ==> OneToOne(pairs.value, stored, live) && (pairs.value == [] <==> !HasBootstrapped(stored))
    {
      pairs := IdentifyRamDataspaces(variant, LiveEntries(live), Entries(stored));
      if pairs.Some? {
        PairsOneToOne(pairs.value, stored, live);
        BootstrappedIffStamps(stored);
      }
    }

    // None is an array access out of bounds, or the exception thrown if no dataspace could be identified.
    method IdentifyRecreateRamDataspaces(live: seq<RamDs>, stored: seq<StoredRamDs>) returns (r: Option<seq<RamDs>>)
      requires DistinctDs(stored, live) && (forall o :: o in DsBadges(live) ==> o < next)
      modifies this
      ensures r.Some? <==> RamDsRestorable(variant, stored, live)
      ensures Grown(old(Bindings()), Bindings())
      ensures r.Some? ==>
        && Extends(old(ckptToResto), old(next), ckptToResto, next, KeysTo(stored, RamDsKey(), |stored|), DsBadges(live))
        && AllFound(Bindings(), RamDsOf(stored, live), stored, r.value, |stored|)
        && Slotted(old(Bindings()), Bindings(), NeedsTo(stored, RamDsNeed(), |stored|))
        && forall l :: l in live ==> l in r.value
    {
      var found := IdentifyBootstrapped(live, stored);
      if found.None? || found.value == [] {
        return None;
      }
      var pairs := found.value;
      var made := live;
      ghost var tr0, n0, b0 := ckptToResto, next, Bindings();
      BoundNone(Bindings(), next, stored, RamDsKey(), RamDsOf(stored, live), made);
      NothingSlotted(b0, b0);
      assert Taken(pairs, stored, 0) == {};
      var i := 0;
      while i < |stored|
        invariant 0 <= i <= |stored| && Grown(b0, Bindings()) && Slotted(b0, Bindings(), NeedsTo(stored, RamDsNeed(), i))
        invariant BoundTo(tr0, n0, Bindings(), next, stored, RamDsKey(), RamDsOf(stored, live), made, i, Taken(pairs, stored, i))
        invariant forall l :: l in live ==> l in made
      {
        ghost var b := Bindings();
        made := IdentifyOrAlloc(live, stored, i, pairs, made, tr0, n0);
        GrownTwice(b0, b, Bindings());
        SlottedNext(b0, b, Bindings(), stored, RamDsNeed(), i);
        i := i + 1;
      }
      TakenAreLive(pairs, stored, live, |stored|);
      ExtendsMore(tr0, n0, ckptToResto, next, KeysTo(stored, RamDsKey(), |stored|), Taken(pairs, stored, |stored|), DsBadges(live));
      r := Some(made);
    }

    // One turn of that loop.
    method IdentifyOrAlloc(live: seq<RamDs>, stored: seq<StoredRamDs>, i: nat, pairs: seq<CkptResto>, made: seq<RamDs>,
                           ghost tr0: seq<CkptResto>, ghost n0: nat)
      returns (made': seq<RamDs>)
      requires OneToOne(pairs, stored, live) && i < |stored|
      requires forall o :: o in DsBadges(live) ==> o < n0
      requires BoundTo(tr0, n0, Bindings(), next, stored, RamDsKey(), RamDsOf(stored, live), made, i, Taken(pairs, stored, i))
      requires forall l :: l in live ==> l in made
      modifies this
      ensures Grown(old(Bindings()), Bindings())
      ensures BoundTo(tr0, n0, Bindings(), next, stored, RamDsKey(), RamDsOf(stored, live), made', i + 1, Taken(pairs, stored, i + 1))
      ensures Slotted(old(Bindings()), Bindings(), RamDsNeed()(stored[i]))
      ensures forall l :: l in made ==> l in made'
    {
      ghost var b, n, boot := Bindings(), next, {};
      var s := stored[i];
      var target: nat;
      ghost var own: RamDs;
      made' := made;
      TakenNext(pairs, stored, live, i);
      TakenAreLive(pairs, stored, live, i + 1);
      if s.bootstrapped {
        assert HasPartner(pairs, stored, live, s);
        target := Translate(pairs, s.badge).value;
        own :| own in live && own.badge == target && Rank(Entries(stored), s.timestamp) == Rank(LiveEntries(live), own.timestamp);
        boot := {target};
      } else {
        target := Create(s.kcap);
        var l := RamDs(target, s.size, s.cached, false, s.managed, target);
        made' := [l] + made;
        own := l;
      }
      ckptToResto := [CkptResto(s.badge, target)] + ckptToResto;
      if s.bootstrapped {
        NothingSlotted(b, Bindings());
      } else {
        OneSlotted(b, Bindings(), s.kcap, s.badge, target);
      }
      assert RamDsStands(Bindings(), stored, live, s, own);
      RamDsLasting(stored, live);
      BoundNext(tr0, n0, b, n, Bindings(), next, stored, RamDsKey(), RamDsOf(stored, live), made, made', i,
                Taken(pairs, stored, i), boot, target, own);
    }

    // ---- PD sessions ----

    // None is the exception thrown if the session has no signal source yet, as one just created has none.
    method IdentifyRecreateSignalSources(live: seq<nat>, stored: seq<StoredSource>) returns (r: Option<seq<nat>>)
      requires DistinctBy(stored, SourceKey()) && OneBootstrapped(stored) && (live != [] ==> live[0] < next)
      modifies this
      ensures r.Some? <==> live != []
      ensures Grown(old(Bindings()), Bindings())
      ensures r.Some? ==>
        && Extends(old(ckptToResto), old(next), ckptToResto, next, KeysTo(stored, SourceKey(), |stored|), {live[0]})
        && AllFound(Bindings(), SourceOf(live[0]), stored, r.value, |stored|)
        && Slotted(old(Bindings()), Bindings(), NeedsTo(stored, SourceNeed(), |stored|))
    {
      if live == [] {
        return None;
      }
      var made, first := live, live[0];
      ghost var tr0, n0, b0 := ckptToResto, next, Bindings();
      BoundNone(Bindings(), next, stored, SourceKey(), SourceOf(first), made);
      NothingSlotted(b0, b0);
      for i := 0 to |stored|
        invariant Slotted(b0, Bindings(), NeedsTo(stored, SourceNeed(), i))
        invariant Grown(b0, Bindings()) && first in made && first < n0
        invariant BoundTo(tr0, n0, Bindings(), next, stored, SourceKey(), SourceOf(first), made, i, SourceTaken(stored, i, first))
      {
        ghost var b := Bindings();
        made := IdentifyRecreateSource(stored, i, first, made, tr0, n0);
        GrownTwice(b0, b, Bindings());
        SlottedNext(b0, b, Bindings(), stored, SourceNeed(), i);
      }
      ExtendsMore(tr0, n0, ckptToResto, next, KeysTo(stored, SourceKey(), |stored|), SourceTaken(stored, |stored|, first), {first});
      r := Some(made);
    }

    // One turn of that loop.
    method IdentifyRecreateSource(stored: seq<StoredSource>, i: nat, first: nat, made: seq<nat>, ghost tr0: seq<CkptResto>, ghost n0: nat)
      returns (made': seq<nat>)
      requires DistinctBy(stored, SourceKey()) && OneBootstrapped(stored) && i < |stored| && first in made && first < n0
      requires BoundTo(tr0, n0, Bindings(), next, stored, SourceKey(), SourceOf(first), made, i, SourceTaken(stored, i, first))
      modifies this
      ensures Grown(old(Bindings()), Bindings()) && first in made' && Slotted(old(Bindings()), Bindings(), SourceNeed()(stored[i]))
      ensures BoundTo(tr0, n0, Bindings(), next, stored, SourceKey(), SourceOf(first), made', i + 1, SourceTaken(stored, i + 1, first))
    {
      ghost var b, n := Bindings(), next;
      var target := IdentifyOrCreateSource(stored[i], first);
      made' := SourceAdded(tr0, n0, b, n, Bindings(), next, stored, first, made, i, target);
    }

    method IdentifyOrCreateSource(s: StoredSource, first: nat) returns (target: nat)
      modifies this
      ensures Grown(old(Bindings()), Bindings()) && SourceStands(Bindings(), first, s, target)
      ensures ckptToResto == [CkptResto(s.badge, target)] + old(ckptToResto)
      ensures if s.bootstrapped then target == first && next == old(next) else target == old(next) && next == target + 1
      ensures Slotted(old(Bindings()), Bindings(), SourceNeed()(s))
    {
      ghost var b := Bindings();
      target := first;
      if !s.bootstrapped {
        target := Create(s.kcap);
      }
      ckptToResto := [CkptResto(s.badge, target)] + ckptToResto;
      if s.bootstrapped {
        NothingSlotted(b, Bindings());
      } else {
        OneSlotted(b, Bindings(), s.kcap, s.badge, target);
      }
    }

    // None is the null pointer dereferenced for a context whose source has no translation.
    method IdentifyRecreateSignalContexts(live: seq<Context>, stored: seq<StoredContext>) returns (r: Option<seq<Context>>)
      requires DistinctBy(stored, ContextKey())
      modifies this
      ensures r.Some? <==> SourcesKnown(Keys(old(ckptToResto)), stored, |stored|)
      ensures Grown(old(Bindings()), Bindings())
      ensures r.Some? ==>
        && Extends(old(ckptToResto), old(next), ckptToResto, next, KeysTo(stored, ContextKey(), |stored|), {})
        && AllFound(Bindings(), ContextOf(), stored, r.value, |stored|)
        && Slotted(old(Bindings()), Bindings(), NeedsTo(stored, ContextNeed(), |stored|))
    {
      var made := live;
      ghost var tr0, n0, b0 := ckptToResto, next, Bindings();
      NothingSlotted(b0, b0);
      BoundNone(b0, next, stored, ContextKey(), ContextOf(), made);
      var i := 0;
      while i < |stored|
        invariant 0 <= i <= |stored| && Grown(b0, Bindings()) && SourcesKnown(Keys(tr0), stored, i)
        invariant BoundTo(tr0, n0, Bindings(), next, stored, ContextKey(), ContextOf(), made, i, {})
        invariant Slotted(b0, Bindings(), NeedsTo(stored, ContextNeed(), i))
      {
        ghost var b := Bindings();
        var s := stored[i];
        ExtendsKeeps(tr0, n0, ckptToResto, next, KeysTo(stored, ContextKey(), i), {});
        TranslateIff(ckptToResto, s.source);
        var source := Translate(ckptToResto, s.source);
        if s.source != 0 && source.None? {
          assert !SourceKnown(Keys(tr0), stored, i);
          return None;
        }
        made := CreateContext(stored, i, if s.source == 0 then 0 else source.value, made, tr0, n0);
        GrownTwice(b0, b, Bindings());
        SlottedNext(b0, b, Bindings(), stored, ContextNeed(), i);
        i := i + 1;
      }
      r := Some(made);
    }

    // One turn of that loop; source stands for the context's own, if it has one.
    method CreateContext(stored: seq<StoredContext>, i: nat, source: nat, made: seq<Context>, ghost tr0: seq<CkptResto>, ghost n0: nat)
      returns (made': seq<Context>)
      requires DistinctBy(stored, ContextKey()) && i < |stored|
      requires if stored[i].source == 0 then source == 0 else Stands(Bindings(), stored[i].source, source)
      requires BoundTo(tr0, n0, Bindings(), next, stored, ContextKey(), ContextOf(), made, i, {})
      modifies this
      ensures Grown(old(Bindings()), Bindings()) && Slotted(old(Bindings()), Bindings(), ContextNeed()(stored[i]))
      ensures BoundTo(tr0, n0, Bindings(), next, stored, ContextKey(), ContextOf(), made', i + 1, {})
    {
      ghost var b, n := Bindings(), next;
      var s := stored[i];
      var target := Create(s.kcap);
      var l := Context(target, source, s.imprint);
      made' := [l] + made;
      ckptToResto := [CkptResto(s.badge, target)] + ckptToResto;
      assert ContextStands(Bindings(), s, l);
      ContextLasting();
      BoundNext(tr0, n0, b, n, Bindings(), next, stored, ContextKey(), ContextOf(), made, made', i, {}, {}, target, l);
      OneSlotted(b, Bindings(), s.kcap, s.badge, target);
    }

    method Bind(badge: nat, target: nat)
      requires target < next
      modifies this
      ensures Grown(old(Bindings()), Bindings()) && Stands(Bindings(), badge, target) && next == old(next)
      ensures capabilityMap == old(capabilityMap)
      ensures Extends(old(ckptToResto), next, ckptToResto, next, {badge}, {target})
    {
      ExtendsOne(ckptToResto, next, next, badge, target, {target});
      ckptToResto := [CkptResto(badge, target)] + ckptToResto;
    }

    // A region map and the dataspace it is attached by.
    method BindMap(s: StoredMap, l: RegionMap)
      requires s.head.badge != s.head.dsBadge && l.head.badge != l.head.dsBadge && l.head.badge < next && l.head.dsBadge < next
      modifies this
      ensures Grown(old(Bindings()), Bindings()) && MapStands(Bindings(), s, l) && next == old(next)
      ensures capabilityMap == old(capabilityMap)
      ensures Extends(old(ckptToResto), next, ckptToResto, next, MapKeys(s), MapBadgesOf(l))
    {
      ghost var tr0 := ckptToResto;
      Bind(s.head.badge, l.head.badge);
      ghost var tr1 := ckptToResto;
      Bind(s.head.dsBadge, l.head.dsBadge);
      ExtendsThen(tr0, next, tr1, next, ckptToResto, next, {s.head.badge}, {l.head.badge}, {s.head.dsBadge}, {l.head.dsBadge});
      assert {s.head.badge} + {s.head.dsBadge} == MapKeys(s) && {l.head.badge} + {l.head.dsBadge} == MapBadgesOf(l);
    }

    // The part of the loop over PD sessions behind the choice of the session.
    method IdentifyRecreatePdSession(l: Pd, s: StoredPd) returns (r: Option<Pd>)
      requires PdFits(next, s, l)
      modifies this
      ensures r.Some? <==> l.sources != [] && SourcesKnown(BeforeContexts(Keys(old(ckptToResto)), s), s.contexts, |s.contexts|)
      ensures Grown(old(Bindings()), Bindings())
      ensures r.Some? ==> PdStands(Bindings(), s, l, r.value) && Slotted(old(Bindings()), Bindings(), PdNeeds(s))
      ensures r.Some? ==> Chain(old(ckptToResto), old(next), ckptToResto, next, PdKeys(s), PdOwn(l), 6)
    {
      ghost var tr0, n0, b0 := ckptToResto, next, Bindings();
      OwnBelow(next, PdKeys(s), PdOwn(l), 0);
      assert l.session.head.badge in PdOwn(l)[0];
      Bind(s.session.head.badge, l.session.head.badge);
      ghost var tr1, b1 := ckptToResto, Bindings();
      var sources := IdentifyRecreateSignalSources(l.sources, s.sources);
      if sources.None? {
        return None;
      }
      SourcesChain(tr0, n0, tr1, ckptToResto, next, s, l);
      ghost var b2, n2 := Bindings(), next;
      var contexts := IdentifyRecreateSignalContexts(l.contexts, s.contexts);
      if contexts.None? {
        return None;
      }
      ContextsChain(tr0, n0, b2.tr, n2, ckptToResto, next, s, l);
      ghost var b3 := Bindings();
      BindThreeMaps(l, s, tr0, n0);
      r := Some(Pd(l.session, sources.value, contexts.value));
      SourceLasting(l.sources[0]);
      AllFoundGrown(b2, Bindings(), SourceOf(l.sources[0]), s.sources, sources.value, sources.value, |s.sources|);
      ContextLasting();
      AllFoundGrown(b3, Bindings(), ContextOf(), s.contexts, contexts.value, contexts.value, |s.contexts|);
      PdSlotted(b0, b1, b2, b3, Bindings(), s);
    }

    method BindThreeMaps(l: Pd, s: StoredPd, ghost tr0: seq<CkptResto>, ghost n0: nat)
      requires PdFits(n0, s, l) && n0 <= next && Chain(tr0, n0, ckptToResto, next, PdKeys(s), PdOwn(l), 3)
      modifies this
      ensures Grown(old(Bindings()), Bindings()) && next == old(next) && capabilityMap == old(capabilityMap)
      ensures forall k :: 0 <= k < 3 ==> MapStands(Bindings(), s.session.kids[k], l.session.kids[k])
      ensures Chain(tr0, n0, ckptToResto, next, PdKeys(s), PdOwn(l), 6)
    {
      var k := 0;
      while k < 3
        invariant 0 <= k <= 3 && next == old(next) && capabilityMap == old(capabilityMap) && Grown(old(Bindings()), Bindings())
        invariant forall j :: 0 <= j < k ==> MapStands(Bindings(), s.session.kids[j], l.session.kids[j])
        invariant Chain(tr0, n0, ckptToResto, next, PdKeys(s), PdOwn(l), 3 + k)
      {
        ghost var tr := ckptToResto;
        OwnBelow(n0, PdKeys(s), PdOwn(l), 3 + k);
        assert l.session.kids[k].head.badge in PdOwn(l)[3 + k] && l.session.kids[k].head.dsBadge in PdOwn(l)[3 + k];
        BindMap(s.session.kids[k], l.session.kids[k]);
        ChainNext(tr0, n0, tr, next, ckptToResto, next, PdKeys(s), PdOwn(l), 3 + k);
        k := k + 1;
      }
    }

    // ---- Sessions ----

    method IdentifyRecreateRamSession(l: RamSession, s: StoredRamSession) returns (r: Option<RamSession>)
      requires RamFits(next, s, l)
      modifies this
      ensures r.Some? <==> RamDsRestorable(variant, s.kids, l.kids)
      ensures Grown(old(Bindings()), Bindings())
      ensures r.Some? ==> RamStands(Bindings(), s, l, r.value) && Slotted(old(Bindings()), Bindings(), NeedsTo(s.kids, RamDsNeed(), |s.kids|))
      ensures r.Some? ==> Chain(old(ckptToResto), old(next), ckptToResto, next, RamKeys(s), RamOwn(l), 2)
    {
      ghost var tr0, n0, b0 := ckptToResto, next, Bindings();
      OwnBelow(next, RamKeys(s), RamOwn(l), 0);
      OwnBelow(next, RamKeys(s), RamOwn(l), 1);
      assert l.head.badge in RamOwn(l)[0] && RamOwn(l)[1] == DsBadges(l.kids);
      Bind(s.head.badge, l.head.badge);
      ghost var tr1, b1 := ckptToResto, Bindings();
      var kids := IdentifyRecreateRamDataspaces(l.kids, s.kids);
      if kids.None? {
        return None;
      }
      RamChain(tr0, n0, tr1, ckptToResto, next, s, l);
      SlottedAfter(b0, b1, Bindings(), NeedsTo(s.kids, RamDsNeed(), |s.kids|));
      r := Some(Node(l.head, kids.value));
    }

    // None is one of the exceptions for a thread without its live counterpart or PD session.
    method IdentifyRecreateCpuThreads(live: seq<Thread>, stored: seq<StoredThread>, pds: seq<nat>) returns (r: Option<seq<Thread>>)
      requires ThreadsFit(ckptToResto, next, live, stored, pds)
      modifies this
      ensures r.Some? <==> ThreadsKnown(old(ckptToResto), live, pds, stored, |stored|)
      ensures Grown(old(Bindings()), Bindings())
      ensures r.Some? ==>
        && Extends(old(ckptToResto), old(next), ckptToResto, next, KeysTo(stored, ThreadKey(), |stored|), ThreadBadges(live))
        && AllFound(Bindings(), ThreadOf(live), stored, r.value, |stored|)
        && Slotted(old(Bindings()), Bindings(), NeedsTo(stored, ThreadNeed(), |stored|))
    {
      var made := live;
      ghost var tr0, n0, b0 := ckptToResto, next, Bindings();
      NothingSlotted(b0, b0);
      NoThreadsBound(Bindings(), next, live, stored);
      ThreadsKnownIff(tr0, live, pds, stored, 0);
      var i := 0;
      while i < |stored|
        invariant 0 <= i <= |stored| && Grown(b0, Bindings()) && ThreadsKnown(tr0, live, pds, stored, i)
        invariant ThreadsBound(tr0, n0, Bindings(), next, live, stored, made, i) && Slotted(b0, Bindings(), NeedsTo(stored, ThreadNeed(), i))
      {
        ghost var b := Bindings();
        var m := IdentifyOrCreateThread(live, stored, i, pds, made, tr0, n0);
        GrownTwice(b0, b, Bindings());
        NextThreadKnown(tr0, live, pds, stored, i);
        if m.None? {
          return None;
        }
        SlottedNext(b0, b, Bindings(), stored, ThreadNeed(), i);
        made := m.value;
        i := i + 1;
      }
      AllThreadsBound(tr0, n0, Bindings(), next, live, stored, pds, made);
      r := Some(made);
    }

    method IdentifyOrCreateThread(live: seq<Thread>, stored: seq<StoredThread>, i: nat, pds: seq<nat>, made: seq<Thread>,
                                  ghost tr0: seq<CkptResto>, ghost n0: nat)
      returns (m: Option<seq<Thread>>)
      requires i < |stored| && ThreadsFit(tr0, n0, live, stored, pds)
      requires ThreadsBound(tr0, n0, Bindings(), next, live, stored, made, i)
      modifies this
      ensures m.Some? <==> ThreadKnown(tr0, live, pds, stored[i])
      ensures Grown(old(Bindings()), Bindings())
      ensures m.Some? ==> ThreadsBound(tr0, n0, Bindings(), next, live, stored, m.value, i + 1)
      ensures m.Some? ==> Slotted(old(Bindings()), Bindings(), ThreadNeed()(stored[i]))
    {
      if stored[i].bootstrapped {
        m := IdentifyThread(live, stored, i, pds, made, tr0, n0);
      } else {
        m := CreateThread(live, stored, i, pds, made, tr0, n0);
      }
    }

    method IdentifyThread(live: seq<Thread>, stored: seq<StoredThread>, i: nat, ghost pds: seq<nat>, made: seq<Thread>,
                          ghost tr0: seq<CkptResto>, ghost n0: nat)
      returns (m: Option<seq<Thread>>)
      requires i < |stored| && stored[i].bootstrapped && ThreadsFit(tr0, n0, live, stored, pds)
      requires ThreadsBound(tr0, n0, Bindings(), next, live, stored, made, i)
      modifies this
      ensures m.Some? <==> ThreadKnown(tr0, live, pds, stored[i])
      ensures Grown(old(Bindings()), Bindings())
      ensures m.Some? ==> ThreadsBound(tr0, n0, Bindings(), next, live, stored, m.value, i + 1)
      ensures m.Some? ==> Slotted(old(Bindings()), Bindings(), ThreadNeed()(stored[i]))
    {
      OpenThreadsFit(tr0, n0, live, stored, pds);
      OpenThreadsBound(tr0, n0, Bindings(), next, live, stored, made, i);
      OpenThreadKnown(tr0, live, pds, stored[i]);
      ghost var b := Bindings();
      var s := stored[i];
      var k := FirstIndex(made, (t: Thread) => t.name == s.name);
      NameFound(made, live, stored, i, k);
      if k == |made| {
        return None;
      }
      ckptToResto := [CkptResto(s.badge, made[k].badge)] + ckptToResto;
      ThreadIdentified(tr0, n0, b, Bindings(), next, live, stored, pds, made, i, made[k]);
      NothingSlotted(b, Bindings());
      m := Some(made);
    }

    method CreateThread(ghost live: seq<Thread>, stored: seq<StoredThread>, i: nat, pds: seq<nat>, made: seq<Thread>,
                        ghost tr0: seq<CkptResto>, ghost n0: nat)
      returns (m: Option<seq<Thread>>)
      requires i < |stored| && !stored[i].bootstrapped && ThreadsFit(tr0, n0, live, stored, pds)
      requires ThreadsBound(tr0, n0, Bindings(), next, live, stored, made, i)
      modifies this
      ensures m.Some? <==> ThreadKnown(tr0, live, pds, stored[i])
      ensures Grown(old(Bindings()), Bindings())
      ensures m.Some? ==> ThreadsBound(tr0, n0, Bindings(), next, live, stored, m.value, i + 1)
      ensures m.Some? ==> Slotted(old(Bindings()), Bindings(), ThreadNeed()(stored[i]))
    {
      OpenThreadsFit(tr0, n0, live, stored, pds);
      OpenThreadsBound(tr0, n0, Bindings(), next, live, stored, made, i);
      OpenThreadKnown(tr0, live, pds, stored[i]);
      ghost var b, n := Bindings(), next;
      var s := stored[i];
      KeysSome(stored, i, Keys(tr0));
      PdOfThread(tr0, n0, ckptToResto, next, KeysTo(stored, ThreadKey(), i), ThreadsTaken(stored, live, i), pds, s.pd);
      TranslateIff(ckptToResto, s.pd);
      var pd := Translate(ckptToResto, s.pd);
      if pd.None? || pd.value !in pds {
        return None;
      }
      var target := Create(s.kcap);
      var l := Thread(target, s.name, pd.value);
      ckptToResto := [CkptResto(s.badge, target)] + ckptToResto;
      ThreadCreated(tr0, n0, b, n, Bindings(), next, live, stored, pds, made, i, l);
      OneSlotted(b, Bindings(), s.kcap, s.badge, target);
      m := Some([l] + made);
    }

    method IdentifyRecreateCpuSession(live: seq<Cpu>, s: StoredCpu, pds: seq<nat>) returns (r: Option<Cpu>)
      requires live != [] && CpuFits(live, s) && CpuKeys(s) !! Keys(ckptToResto)
      requires (forall o :: o in CpuOwn(live, s) ==> o < next) && (forall o :: o in pds ==> o < next && o !in CpuOwn(live, s))
      modifies this
      ensures r.Some? <==> CpuSessionRestorable(old(ckptToResto), s, live, pds)
      ensures Grown(old(Bindings()), Bindings())
      ensures r.Some? ==> CpuStands(Bindings(), live, s, r.value) && Slotted(old(Bindings()), Bindings(), CpuNeed()(s))
      ensures r.Some? ==> Extends(old(ckptToResto), old(next), ckptToResto, next, CpuKeys(s), CpuOwn(live, s))
    {
      ghost var tr0, n0, b0, own := ckptToResto, next, Bindings(), {};
      var head := live[0].head;
      var threads := live[0].kids;
      if s.head.bootstrapped {
        own := {head.badge};
      } else {
        var target := Create(s.head.kcap);
        head := SessionHead(target, s.head.creationArgs, "", false);
        threads := [];
      }
      ghost var n1 := next;
      ckptToResto := [CkptResto(s.head.badge, head.badge)] + ckptToResto;
      ExtendsOne(tr0, n0, n1, s.head.badge, head.badge, own);
      ExtendsKeeps(tr0, n0, ckptToResto, n1, {s.head.badge}, own);
      ghost var tr1, b1 := ckptToResto, Bindings();
      HeadSlotted(b0, b1, s.head, head.badge);
      ThreadsKnownSame(tr0, n0, tr1, n1, {s.head.badge}, own, threads, pds, s.kids);
      assert KeysTo(s.kids, ThreadKey(), |s.kids|) <= CpuKeys(s);
      forall l | l in threads ensures l.badge < next {
        assert l.badge in ThreadBadges(threads) && l.badge in CpuOwn(live, s);
      }
      OpenCpuSessionRestorable(tr0, s, live, pds);
      OpenThreadsFit(tr1, n1, threads, s.kids, pds);
      var kids := IdentifyRecreateCpuThreads(threads, s.kids, pds);
      if kids.None? {
        return None;
      }
      assert threads == ThreadsFor(live, s);
      CpuExtended(tr0, n0, tr1, n1, ckptToResto, next, live, s, own);
      SlottedThen(b0, b1, Bindings(), SessionNeed(s.head), NeedsTo(s.kids, ThreadNeed(), |s.kids|));
      r := Some(Node(head, kids.value));
    }

    method IdentifyRecreateRegionMaps(stored: seq<StoredMap>) returns (made: seq<RegionMap>)
      requires DistinctMaps(stored)
      modifies this
      ensures MapsBound(old(Bindings()), old(next), Bindings(), next, stored, made, |stored|)
    {
      ghost var n0, b0 := next, Bindings();
      made := [];
      NoMapsBound(b0, n0, stored);
      var i := 0;
      while i < |stored|
        invariant 0 <= i <= |stored| && MapsBound(b0, n0, Bindings(), next, stored, made, i)
      {
        made := IdentifyRecreateRegionMapNext(stored, i, made, b0, n0);
        i := i + 1;
      }
    }

    // One turn of that loop.
    method IdentifyRecreateRegionMapNext(stored: seq<StoredMap>, i: nat, made: seq<RegionMap>, ghost b0: Bound, ghost n0: nat)
      returns (made': seq<RegionMap>)
      requires DistinctMaps(stored) && i < |stored| && MapsBound(b0, n0, Bindings(), next, stored, made, i)
      modifies this
      ensures MapsBound(b0, n0, Bindings(), next, stored, made', i + 1)
    {
      ghost var b, n := Bindings(), next;
      var l := CreateRegionMap(stored[i]);
      MapsBoundNext(b0, n0, b, n, Bindings(), stored, made, i, l);
      made' := [l] + made;
    }

    // A new region map and its dataspace, both translated.
    method CreateRegionMap(s: StoredMap) returns (l: RegionMap)
      modifies this
      ensures Grown(old(Bindings()), Bindings()) && NewMapStands(Bindings(), s, l) && next == old(next) + 2
      ensures ckptToResto == [CkptResto(s.head.dsBadge, old(next) + 1)] + ([CkptResto(s.head.badge, old(next))] + old(ckptToResto))
      ensures l.head.badge == old(next) && Slotted(old(Bindings()), Bindings(), MapNeed()(s))
    {
      ghost var b := Bindings();
      var target := Create(s.head.kcap);
      var ds := next;
      next := next + 1;
      l := Node(MapHead(target, ds, s.head.size, 0, false), []);
      ckptToResto := [CkptResto(s.head.badge, target)] + ckptToResto;
      ckptToResto := [CkptResto(s.head.dsBadge, ds)] + ckptToResto;
      OneSlotted(b, Bindings(), s.head.kcap, s.head.badge, target);
    }

    // ---- Lists of sessions ----

    // None if a session had to be recreated: it has no bootstrapped dataspace, and that is an error; or if the
    // matcher fails.
    method IdentifyRecreateRamSessions(live: seq<RamSession>, stored: seq<StoredRamSession>) returns (r: Option<seq<RamSession>>)
      requires RamListFits(next, stored, live)
      modifies this
      ensures r.Some? <==> RamRestorable(variant, stored, live)
      ensures Grown(old(Bindings()), Bindings())
      ensures r.Some? ==> |stored| <= 1 && (stored == [] ==> ckptToResto == old(ckptToResto) && next == old(next) && r.value == live)
      ensures r.Some? && stored != [] ==>
        && |r.value| == |live| && RamStands(Bindings(), stored[0], live[0], r.value[0])
        && Slotted(old(Bindings()), Bindings(), NeedsTo(stored[0].kids, RamDsNeed(), |stored[0].kids|))
        && Chain(old(ckptToResto), old(next), ckptToResto, next, RamKeys(stored[0]), RamOwn(live[0]), 2)
    {
      if live == [] {
        return None;
      }
      var made := live;
      var i := 0;
      while i < |stored|
        invariant 0 <= i <= |stored| && i <= 1 && Grown(old(Bindings()), Bindings())
        invariant i == 0 ==> Bindings() == old(Bindings()) && next == old(next) && made == live
        invariant i == 1 ==>
          && Slotted(old(Bindings()), Bindings(), NeedsTo(stored[0].kids, RamDsNeed(), |stored[0].kids|))
          && stored[0].head.bootstrapped && RamDsRestorable(variant, stored[0].kids, live[0].kids)
          && |made| == |live| && RamStands(Bindings(), stored[0], live[0], made[0])
          && Chain(old(ckptToResto), old(next), ckptToResto, next, RamKeys(stored[0]), RamOwn(live[0]), 2)
      {
        var s := stored[i];
        if s.head.bootstrapped {
          var l := IdentifyRecreateRamSession(made[0], s);
          if l.None? {
            return None;
          }
          made := made[0 := l.value];
        } else {
          var target := Create(s.head.kcap);
          ckptToResto := [CkptResto(s.head.badge, target)] + ckptToResto;
          var kids := IdentifyRecreateRamDataspaces([], s.kids);
          NothingToFind(variant, s.kids);
          assert kids.None?;
          return None;
        }
        i := i + 1;
      }
      r := Some(made);
    }

    // None if a session had to be recreated: it has no signal source, and that is an error.
    method IdentifyRecreatePdSessions(live: seq<Pd>, stored: seq<StoredPd>) returns (r: Option<seq<Pd>>)
      requires PdListFits(next, stored, live)
      modifies this
      ensures r.Some? <==> PdRestorable(Keys(old(ckptToResto)), stored, live)
      ensures Grown(old(Bindings()), Bindings())
      ensures r.Some? ==> |stored| <= 1 && (stored == [] ==> ckptToResto == old(ckptToResto) && next == old(next) && r.value == live)
      ensures r.Some? && stored != [] ==>
        && |r.value| == |live| && ThreeMaps(stored[0], live[0]) && PdStands(Bindings(), stored[0], live[0], r.value[0])
        && Slotted(old(Bindings()), Bindings(), PdNeeds(stored[0]))
        && Chain(old(ckptToResto), old(next), ckptToResto, next, PdKeys(stored[0]), PdOwn(live[0]), 6)
    {
      if live == [] {
        return None;
      }
      var made := live;
      var i := 0;
      while i < |stored|
        invariant 0 <= i <= |stored| && i <= 1 && Grown(old(Bindings()), Bindings())
        invariant i == 0 ==> Bindings() == old(Bindings()) && next == old(next) && made == live
        invariant i == 1 ==>
          && Slotted(old(Bindings()), Bindings(), PdNeeds(stored[0]))
          && PdSessionRestorable(Keys(old(ckptToResto)), stored[0], live[0])
          && |made| == |live| && ThreeMaps(stored[0], live[0]) && PdStands(Bindings(), stored[0], live[0], made[0])
          && Chain(old(ckptToResto), old(next), ckptToResto, next, PdKeys(stored[0]), PdOwn(live[0]), 6)
      {
        var s := stored[i];
        if s.session.head.bootstrapped {
          assert s in stored;
          var l := IdentifyRecreatePdSession(made[0], s);
          if l.None? {
            return None;
          }
          made := made[0 := l.value];
        } else {
          var target := Create(s.session.head.kcap);
          ckptToResto := [CkptResto(s.session.head.badge, target)] + ckptToResto;
          var sources := IdentifyRecreateSignalSources([], s.sources);
          assert s in stored && sources.None?;
          return None;
        }
        i := i + 1;
      }
      r := Some(made);
    }

    method IdentifyRecreateCpuSessions(live: seq<Cpu>, stored: seq<StoredCpu>, pds: seq<nat>) returns (r: Option<seq<Cpu>>)
      requires CpuListFits(next, Keys(ckptToResto), stored, live, pds)
      modifies this
      ensures r.Some? <==> CpuRestorable(old(ckptToResto), stored, live, pds)
      ensures Grown(old(Bindings()), Bindings())
      ensures r.Some? ==>
        && live != [] && AllFound(Bindings(), CpuOf(live), stored, r.value, |stored|)
        && Slotted(old(Bindings()), Bindings(), NeedsTo(stored, CpuNeed(), |stored|))
        && Chain(old(ckptToResto), old(next), ckptToResto, next, CpuParts(stored), CpuOwnParts(live, stored), |stored|)
    {
      if live == [] {
        return None;
      }
      ghost var tr0, n0, b0 := ckptToResto, next, Bindings();
      var made := [];
      ExtendsNothing(ckptToResto, next);
      OpenAllFound(Bindings(), CpuOf(live), stored, made, 0);
      NothingSlotted(b0, b0);
      var i := 0;
      while i < |stored|
        invariant 0 <= i <= |stored| && Grown(b0, Bindings())
        invariant CpuRestorableTo(tr0, stored, live, pds, i)
        invariant Chain(tr0, n0, ckptToResto, next, CpuParts(stored), CpuOwnParts(live, stored), i)
        invariant AllFound(Bindings(), CpuOf(live), stored, made, i) && Slotted(b0, Bindings(), NeedsTo(stored, CpuNeed(), i))
      {
        ghost var b := Bindings();
        var m := IdentifyRecreateCpuNext(live, stored, pds, i, made, tr0, n0);
        GrownTwice(b0, b, Bindings());
        if m.None? {
          NotCpuRestorable(tr0, stored, live, pds, i);
          return None;
        }
        SlottedNext(b0, b, Bindings(), stored, CpuNeed(), i);
        made := m.value;
        i := i + 1;
      }
      r := Some(made);
    }

    // One turn of that loop.
    method IdentifyRecreateCpuNext(live: seq<Cpu>, stored: seq<StoredCpu>, pds: seq<nat>, i: nat, made: seq<Cpu>, ghost tr0: seq<CkptResto>, ghost n0: nat)
      returns (m: Option<seq<Cpu>>)
      requires live != [] && i < |stored| && CpuListFits(n0, Keys(tr0), stored, live, pds) && AllFound(Bindings(), CpuOf(live), stored, made, i)
      requires Chain(tr0, n0, ckptToResto, next, CpuParts(stored), CpuOwnParts(live, stored), i)
      modifies this
      ensures m.Some? <==> CpuSessionRestorable(tr0, stored[i], live, pds)
      ensures Grown(old(Bindings()), Bindings())
      ensures m.Some? ==>
        && AllFound(Bindings(), CpuOf(live), stored, m.value, i + 1) && Slotted(old(Bindings()), Bindings(), CpuNeed()(stored[i]))
        && Chain(tr0, n0, ckptToResto, next, CpuParts(stored), CpuOwnParts(live, stored), i + 1)
    {
      ghost var b, n := Bindings(), next;
      CpuTurn(tr0, n0, ckptToResto, next, stored, live, pds, i);
      CpuTurnSame(tr0, n0, ckptToResto, next, stored, live, pds, i);
      var l := IdentifyRecreateCpuSession(live, stored[i], pds);
      if l.None? {
        return None;
      }
      ChainNext(tr0, n0, b.tr, n, ckptToResto, next, CpuParts(stored), CpuOwnParts(live, stored), i);
      CpuFoundNext(b, Bindings(), live, stored, made, i, l.value);
      m := Some([l.value] + made);
    }

    method IdentifyRecreateRmSession(s: StoredRmSession) returns (l: RmSession)
      requires DistinctMaps(s.kids) && s.head.badge !in UnionTo(MapParts(s.kids), |s.kids|)
      modifies this
      ensures Grown(old(Bindings()), Bindings()) && RmStands(Bindings(), s, l) && old(next) <= l.head.badge < next
      ensures Extends(old(ckptToResto), old(next), ckptToResto, next, RmKeys(s), {})
      ensures Slotted(old(Bindings()), Bindings(), RmNeed()(s))
    {
      ghost var tr0, n0, b0 := ckptToResto, next, Bindings();
      var target := Create(s.head.kcap);
      ckptToResto := [CkptResto(s.head.badge, target)] + ckptToResto;
      ghost var tr1, n1, b1 := ckptToResto, next, Bindings();
      OneSlotted(b0, b1, s.head.kcap, s.head.badge, target);
      ExtendsOne(tr0, n0, n1, s.head.badge, target, {});
      var maps := IdentifyRecreateRegionMaps(s.kids);
      AllMapsBound(b1, n1, Bindings(), next, s.kids, maps);
      ExtendsThen(tr0, n0, tr1, n1, ckptToResto, next, {s.head.badge}, {}, UnionTo(MapParts(s.kids), |s.kids|), {});
      l := Node(SessionHead(target, s.head.creationArgs, "", false), maps);
      MadeDistinct(maps, MapKey(), n1, next);
      SlottedThen(b0, b1, Bindings(), [Need(s.head.kcap, s.head.badge)], NeedsTo(s.kids, MapNeed(), |s.kids|));
    }

    // Always succeeds: RM sessions and their region maps are recreated without exception.
    method IdentifyRecreateRmSessions(stored: seq<StoredRmSession>) returns (made: seq<RmSession>)
      requires RmListFits(stored)
      modifies this
      ensures Grown(old(Bindings()), Bindings()) && RmsBound(old(ckptToResto), old(next), Bindings(), next, stored, made, |stored|)
      ensures Slotted(old(Bindings()), Bindings(), NeedsTo(stored, RmNeed(), |stored|))
    {
      ghost var tr0, n0, b0 := ckptToResto, next, Bindings();
      made := [];
      NoRmsBound(Bindings(), next, stored);
      NothingSlotted(b0, b0);
      for i := 0 to |stored|
        invariant Grown(b0, Bindings()) && RmsBound(tr0, n0, Bindings(), next, stored, made, i)
        invariant Slotted(b0, Bindings(), NeedsTo(stored, RmNeed(), i))
      {
        ghost var b := Bindings();
        made := IdentifyRecreateRmNext(stored, i, made, tr0, n0);
        GrownTwice(b0, b, Bindings());
        SlottedNext(b0, b, Bindings(), stored, RmNeed(), i);
      }
    }

    method IdentifyRecreateRmNext(stored: seq<StoredRmSession>, i: nat, made: seq<RmSession>, ghost tr0: seq<CkptResto>, ghost n0: nat)
      returns (made': seq<RmSession>)
      requires RmListFits(stored) && i < |stored| && RmsBound(tr0, n0, Bindings(), next, stored, made, i)
      modifies this
      ensures Grown(old(Bindings()), Bindings()) && RmsBound(tr0, n0, Bindings(), next, stored, made', i + 1)
      ensures Slotted(old(Bindings()), Bindings(), RmNeed()(stored[i]))
    {
      ghost var b, n := Bindings(), next;
      OpenRmListFits(stored);
      var l := IdentifyRecreateRmSession(stored[i]);
      RmsBoundNext(tr0, n0, b, n, Bindings(), next, stored, made, i, l);
      made' := [l] + made;
    }

    // ---- All phases ----

    // RAM before PD before CPU before RM sessions.  The translation then covers every stored badge, one
    // to one, and each stored object has its object in the child; otherwise one of the phases has failed.
    method IdentifyRecreate(c: Child, s: StoredChild) returns (r: Option<Child>)
      requires ckptToResto == [] && BadgesFit(next, c, s)
      modifies this
      ensures r.Some? <==> Restorable(variant, c, s)
      ensures r.Some? ==>
        && Faithful(ckptToResto) && Keys(ckptToResto) == UnionTo(PhaseKeys(s), 4)
        && Restored(Bindings(), c, s, r.value) && Slotted(old(Bindings()), Bindings(), StateNeeds(s))
    {
      ghost var n0, b0 := next, Bindings();
      var first := IdentifyRecreateRamAndPd(c, s);
      if first.None? {
        return None;
      }
      ghost var b2, n2 := Bindings(), next;
      RestorableMeans(variant, b2.tr, c, s);
      var cpu := IdentifyRecreateCpuSessions(c.cpu, s.cpu, PdBadges(c.pd));
      if cpu.None? {
        return None;
      }
      ghost var b3, n3 := Bindings(), next;
      RmListFitsHere(n0, c, s);
      var rm := IdentifyRecreateRmSessions(s.rm);
      AllRmsBound(b3.tr, n3, Bindings(), next, s.rm, rm);
      LastPhasesDone(n0, b2.tr, n2, b3.tr, n3, ckptToResto, next, c, s);
      r := Some(Child(first.value.0, first.value.1, cpu.value, rm));
      AllRestored(b2, b2, b3, Bindings(), c, s, r.value);
      StateSlotted(b0, b2, b3, Bindings(), s);
    }

    method IdentifyRecreateRamAndPd(c: Child, s: StoredChild) returns (r: Option<(seq<RamSession>, seq<Pd>)>)
      requires ckptToResto == [] && BadgesFit(next, c, s)
      modifies this
      ensures r.Some? <==> RamRestorable(variant, s.ram, c.ram) && PdRestorable(UnionTo(RamKeys(s.ram[0]), 2), s.pd, c.pd)
      ensures r.Some? ==>
        && |s.ram| == |s.pd| == 1 && |r.value.0| == |r.value.1| == 1
        && RamStands(Bindings(), s.ram[0], c.ram[0], r.value.0[0]) && PdStands(Bindings(), s.pd[0], c.pd[0], r.value.1[0])
        && Slotted(old(Bindings()), Bindings(), NeedsTo(s.ram[0].kids, RamDsNeed(), |s.ram[0].kids|) + PdNeeds(s.pd[0]))
        && Chain([], old(next), ckptToResto, next, PhaseKeys(s), PhaseOwn(c, s), 2) && old(next) <= next && Faithful(ckptToResto)
        && CpuListFits(next, Keys(ckptToResto), s.cpu, c.cpu, PdBadges(c.pd))
    {
      ghost var n0, b0 := next, Bindings();
      OpenBadgesFit(n0, c, s);
      var ram := IdentifyRecreateRamSessions(c.ram, s.ram);
      if ram.None? {
        return None;
      }
      ghost var b1, n1 := Bindings(), next;
      RamPhaseDone(n0, b1.tr, n1, c, s);
      var pd := IdentifyRecreatePdSessions(c.pd, s.pd);
      if pd.None? {
        return None;
      }
      PdPhaseDone(n0, b1.tr, n1, ckptToResto, next, c, s);
      RamStandsGrown(b1, Bindings(), s.ram[0], c.ram[0], ram.value[0]);
      SlottedThen(b0, b1, Bindings(), NeedsTo(s.ram[0].kids, RamDsNeed(), |s.ram[0].kids|), PdNeeds(s.pd[0]));
      r := Some((ram.value, pd.value));
    }
  }
}
