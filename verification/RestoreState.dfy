// What the restorer reads and what it finds in, or creates for, the fresh child.
module RestoreState {
  import opened Variants
  import opened Folding
  import opened InfoList
  import opened CapMap
  import opened RamIdentify
  import opened StoredState
  import opened Translation

  // ---- Records and objects beyond those of StoredState ----

  datatype StoredSource = StoredSource(kcap: nat, badge: nat, bootstrapped: bool)
  // A source of 0 is an invalid capability.
  datatype StoredContext = StoredContext(kcap: nat, badge: nat, source: nat, imprint: nat)
  datatype StoredPd = StoredPd(session: StoredRmSession, sources: seq<StoredSource>, contexts: seq<StoredContext>)
  datatype StoredThread = StoredThread(kcap: nat, badge: nat, bootstrapped: bool, name: string, pd: nat)
  type StoredCpu = Node<StoredSessionHead, StoredThread>

  datatype Context = Context(badge: nat, source: nat, imprint: nat)
  datatype Pd = Pd(session: RmSession, sources: seq<nat>, contexts: seq<Context>)
  datatype Thread = Thread(badge: nat, name: string, pd: nat)
  type Cpu = Node<SessionHead, Thread>

  // ---- When an object of the child stands for a stored one ----

  // The translation, and the objects that had to be created with their places in the capability map.
  datatype Bound = Bound(tr: seq<CkptResto>, caps: seq<CapKcap>)

  ghost predicate Stands(b: Bound, badge: nat, target: nat) {
    CkptResto(badge, target) in b.tr
  }

  ghost predicate StandsNew(b: Bound, kcap: nat, badge: nat, target: nat) {
    Stands(b, badge, target) && CapKcap(kcap, target) in b.caps
  }

  // More bindings never unbind.
  ghost predicate Grown(b: Bound, b': Bound) {
    (forall e :: e in b.tr ==> e in b'.tr) && (forall e :: e in b.caps ==> e in b'.caps)
  }

  lemma GrownTwice(b: Bound, b': Bound, b'': Bound)
    requires Grown(b, b') && Grown(b', b'')
    ensures Grown(b, b'')
  {
  }

  ghost predicate Lasting<S(!new), L(!new)>(stands: (Bound, S, L) -> bool) {
    forall b, b', s, l :: stands(b, s, l) && Grown(b, b') ==> stands(b', s, l)
  }

  ghost predicate Found<S(!new), L(!new)>(b: Bound, stands: (Bound, S, L) -> bool, made: seq<L>, s: S) {
    exists l :: l in made && stands(b, s, l)
  }

  // Each of the first n records has its object among those made.  Folded like Extends.
  ghost predicate AllFound<S(!new), L(!new)>(b: Bound, stands: (Bound, S, L) -> bool, stored: seq<S>, made: seq<L>, n: nat)
    requires n <= |stored|
  {
    forall key: nat {:trigger UnfoldFor(key, made)} :: UnfoldFor(key, made) ==> forall i :: 0 <= i < n ==> Found(b, stands, made, stored[i])
  }

  lemma OpenAllFound<S(!new), L(!new)>(b: Bound, stands: (Bound, S, L) -> bool, stored: seq<S>, made: seq<L>, n: nat)
    requires n <= |stored|
    ensures AllFound(b, stands, stored, made, n) <==> forall i :: 0 <= i < n ==> Found(b, stands, made, stored[i])
  {
    assert UnfoldFor(0, made);
  }

  lemma AllFoundGrown<S(!new), L(!new)>(b: Bound, b': Bound, stands: (Bound, S, L) -> bool, stored: seq<S>, made: seq<L>, made': seq<L>, n: nat)
    requires n <= |stored| && AllFound(b, stands, stored, made, n) && Lasting(stands) && Grown(b, b') && forall l :: l in made ==> l in made'
    ensures AllFound(b', stands, stored, made', n)
  {
    OpenAllFound(b, stands, stored, made, n);
    OpenAllFound(b', stands, stored, made', n);
    forall i | 0 <= i < n ensures Found(b', stands, made', stored[i]) {
      assert Found(b, stands, made, stored[i]);
      var l :| l in made && stands(b, stored[i], l);
      assert l in made' && stands(b', stored[i], l);
    }
  }

  lemma AllFoundNext<S(!new), L(!new)>(b: Bound, b': Bound, stands: (Bound, S, L) -> bool, stored: seq<S>, made: seq<L>, made': seq<L>, n: nat, own: L)
    requires n < |stored| && AllFound(b, stands, stored, made, n) && Lasting(stands) && Grown(b, b') && forall l :: l in made ==> l in made'
    requires own in made' && stands(b', stored[n], own)
    ensures AllFound(b', stands, stored, made', n + 1)
  {
    AllFoundGrown(b, b', stands, stored, made, made', n);
    OpenAllFound(b', stands, stored, made', n);
    OpenAllFound(b', stands, stored, made', n + 1);
    assert Found(b', stands, made', stored[n]);
  }

  // Badges of the first n records.
  ghost function KeysTo<S(!new)>(stored: seq<S>, key: S -> nat, n: nat): set<nat>
    requires n <= |stored|
  {
    set i | 0 <= i < n :: key(stored[i])
  }

  ghost predicate DistinctBy<S(!new)>(stored: seq<S>, key: S -> nat) {
    forall i, j :: 0 <= i < j < |stored| ==> key(stored[i]) != key(stored[j])
  }

  lemma KeysNext<S(!new)>(stored: seq<S>, key: S -> nat, n: nat)
    requires DistinctBy(stored, key) && n < |stored|
    ensures key(stored[n]) !in KeysTo(stored, key, n) && KeysTo(stored, key, n + 1) == KeysTo(stored, key, n) + {key(stored[n])}
  {
  }

  // State of a loop over records: the first n are bound, each to an object of its own, either one of
  // boot or a new one.
  ghost predicate BoundTo<S(!new), L(!new)>(tr0: seq<CkptResto>, n0: nat, b: Bound, next: nat, stored: seq<S>, key: S -> nat,
                                            stands: (Bound, S, L) -> bool, made: seq<L>, n: nat, boot: set<nat>)
    requires n <= |stored|
  {
    Extends(tr0, n0, b.tr, next, KeysTo(stored, key, n), boot) && AllFound(b, stands, stored, made, n)
  }

  lemma BoundNone<S(!new), L(!new)>(b: Bound, next: nat, stored: seq<S>, key: S -> nat, stands: (Bound, S, L) -> bool, made: seq<L>)
    ensures BoundTo(b.tr, next, b, next, stored, key, stands, made, 0, {})
  {
    assert KeysTo(stored, key, 0) == {};
    ExtendsNothing(b.tr, next);
    OpenAllFound(b, stands, stored, made, 0);
  }

  lemma BoundNext<S(!new), L(!new)>(tr0: seq<CkptResto>, n0: nat, b: Bound, next: nat, b': Bound, next': nat, stored: seq<S>, key: S -> nat,
                                    stands: (Bound, S, L) -> bool, made: seq<L>, made': seq<L>, n: nat, boot: set<nat>, boot': set<nat>,
                                    target: nat, own: L)
    requires n < |stored| && BoundTo(tr0, n0, b, next, stored, key, stands, made, n, boot)
    requires DistinctBy(stored, key) && Lasting(stands)
    requires b'.tr == [CkptResto(key(stored[n]), target)] + b.tr && Grown(b, b') && next <= next'
    requires boot !! boot' && (forall o :: o in boot || o in boot' ==> o < n0) && (target in boot' || next <= target < next')
    requires own in made' && stands(b', stored[n], own) && forall l :: l in made ==> l in made'
    ensures BoundTo(tr0, n0, b', next', stored, key, stands, made', n + 1, boot + boot')
  {
    KeysNext(stored, key, n);
    ExtendsOne(b.tr, next, next', key(stored[n]), target, boot');
    ExtendsThen(tr0, n0, b.tr, next, b'.tr, next', KeysTo(stored, key, n), boot, {key(stored[n])}, boot');
    AllFoundNext(b, b', stands, stored, made, made', n, own);
  }

  // ---- What is entered into the capability map ----

  // A recreated object has to be found under the selector and in place of the badge of its record.
  datatype Need = Need(kcap: nat, badge: nat)

  // What the first n records need, in their order.
  ghost function NeedsTo<S>(stored: seq<S>, one: S -> seq<Need>, n: nat): seq<Need>
    requires n <= |stored|
  {
    if n == 0 then [] else NeedsTo(stored, one, n - 1) + one(stored[n - 1])
  }

  // The list has got from caps0 to caps by exactly the entries for needs, the last one in front.
  ghost predicate SlotsMade(tr: seq<CkptResto>, caps0: seq<CapKcap>, caps: seq<CapKcap>, needs: seq<Need>) {
    if needs == [] then caps == caps0
    else
      var last := |needs| - 1;
      && caps != [] && caps[0].kcap == needs[last].kcap && CkptResto(needs[last].badge, caps[0].badge) in tr
      && SlotsMade(tr, caps0, caps[1..], needs[..last])
  }

  ghost predicate Slotted(b0: Bound, b: Bound, needs: seq<Need>) {
    SlotsMade(b.tr, b0.caps, b.caps, needs)
  }

  lemma {:induction false} NothingSlotted(b0: Bound, b: Bound)
    requires b.caps == b0.caps
    ensures Slotted(b0, b, [])
  {
  }

  lemma {:induction false} OneSlotted(b0: Bound, b: Bound, kcap: nat, badge: nat, target: nat)
    requires b.caps == [CapKcap(kcap, target)] + b0.caps && CkptResto(badge, target) in b.tr
    ensures Slotted(b0, b, [Need(kcap, badge)])
  {
    assert b.caps[1..] == b0.caps && [Need(kcap, badge)][..0] == [];
  }

  lemma {:induction false} SlotsMadeThen(tr: seq<CkptResto>, tr': seq<CkptResto>, caps0: seq<CapKcap>, caps1: seq<CapKcap>, caps2: seq<CapKcap>,
                                         needs1: seq<Need>, needs2: seq<Need>)
    requires SlotsMade(tr, caps0, caps1, needs1) && SlotsMade(tr', caps1, caps2, needs2) && forall e :: e in tr ==> e in tr'
    ensures SlotsMade(tr', caps0, caps2, needs1 + needs2)
    decreases |needs1| + |needs2|
  {
    var needs := needs1 + needs2;
    if needs2 != [] {
      SlotsMadeThen(tr, tr', caps0, caps1, caps2[1..], needs1, needs2[..|needs2| - 1]);
      assert needs[..|needs| - 1] == needs1 + needs2[..|needs2| - 1];
    } else {
      assert needs == needs1;
      if needs1 != [] {
        var none: seq<Need> := [];
        SlotsMadeThen(tr, tr', caps0, caps1[1..], caps1[1..], needs1[..|needs1| - 1], none);
        assert needs1[..|needs1| - 1] + none == needs1[..|needs1| - 1];
      }
    }
  }

  lemma {:induction false} SlottedThen(b0: Bound, b1: Bound, b2: Bound, needs1: seq<Need>, needs2: seq<Need>)
    requires Slotted(b0, b1, needs1) && Slotted(b1, b2, needs2) && Grown(b1, b2)
    ensures Slotted(b0, b2, needs1 + needs2)
  {
    SlotsMadeThen(b1.tr, b2.tr, b0.caps, b1.caps, b2.caps, needs1, needs2);
  }

  // One turn of a loop over records.
  lemma {:induction false} SlottedNext<S>(b0: Bound, b1: Bound, b2: Bound, stored: seq<S>, one: S -> seq<Need>, n: nat)
    requires n < |stored| && Slotted(b0, b1, NeedsTo(stored, one, n)) && Slotted(b1, b2, one(stored[n])) && Grown(b1, b2)
    ensures Slotted(b0, b2, NeedsTo(stored, one, n + 1))
  {
    SlottedThen(b0, b1, b2, NeedsTo(stored, one, n), one(stored[n]));
  }

  ghost function RamDsNeed(): StoredRamDs -> seq<Need> {
    (s: StoredRamDs) => if s.bootstrapped then [] else [Need(s.kcap, s.badge)]
  }

  ghost function SourceNeed(): StoredSource -> seq<Need> {
    (s: StoredSource) => if s.bootstrapped then [] else [Need(s.kcap, s.badge)]
  }

  ghost function ContextNeed(): StoredContext -> seq<Need> {
    (s: StoredContext) => [Need(s.kcap, s.badge)]
  }

  ghost function ThreadNeed(): StoredThread -> seq<Need> {
    (s: StoredThread) => if s.bootstrapped then [] else [Need(s.kcap, s.badge)]
  }

  ghost function MapNeed(): StoredMap -> seq<Need> {
    (s: StoredMap) => [Need(s.head.kcap, s.head.badge)]
  }

  ghost function PdNeeds(s: StoredPd): seq<Need> {
    NeedsTo(s.sources, SourceNeed(), |s.sources|) + NeedsTo(s.contexts, ContextNeed(), |s.contexts|)
  }

  ghost function SessionNeed(s: StoredSessionHead): seq<Need> {
    if s.bootstrapped then [] else [Need(s.kcap, s.badge)]
  }

  ghost function CpuNeed(): StoredCpu -> seq<Need> {
    (s: StoredCpu) => SessionNeed(s.head) + NeedsTo(s.kids, ThreadNeed(), |s.kids|)
  }

  ghost function RmNeed(): StoredRmSession -> seq<Need> {
    (s: StoredRmSession) => [Need(s.head.kcap, s.head.badge)] + NeedsTo(s.kids, MapNeed(), |s.kids|)
  }

  // ---- RAM dataspaces ----

  // A bootstrapped dataspace is found by creation rank, any other is allocated alike.
  ghost predicate RamDsStands(b: Bound, stored: seq<StoredRamDs>, live: seq<RamDs>, s: StoredRamDs, l: RamDs) {
    if s.bootstrapped then
      Stands(b, s.badge, l.badge) && l in live && Rank(Entries(stored), s.timestamp) == Rank(LiveEntries(live), l.timestamp)
    else
      StandsNew(b, s.kcap, s.badge, l.badge) && l.size == s.size && l.cached == s.cached
  }

  ghost function RamDsOf(stored: seq<StoredRamDs>, live: seq<RamDs>): (Bound, StoredRamDs, RamDs) -> bool {
    (b: Bound, s: StoredRamDs, l: RamDs) => RamDsStands(b, stored, live, s, l)
  }

  lemma RamDsLasting(stored: seq<StoredRamDs>, live: seq<RamDs>)
    ensures Lasting(RamDsOf(stored, live))
  {
  }

  ghost function RamDsKey(): StoredRamDs -> nat {
    (s: StoredRamDs) => s.badge
  }

  // Badges and timestamps name one dataspace each.
  ghost predicate DistinctDs(stored: seq<StoredRamDs>, live: seq<RamDs>) {
    Distinct(Entries(stored)) && Distinct(LiveEntries(live))
  }

  ghost predicate HasBootstrapped(stored: seq<StoredRamDs>) {
    exists i :: 0 <= i < |stored| && stored[i].bootstrapped
  }

  // The matcher stays inside its arrays and finds a dataspace.
  ghost predicate RamDsRestorable(v: Variant, stored: seq<StoredRamDs>, live: seq<RamDs>) {
    HasBootstrapped(stored) && Matches(v, Entries(stored), LiveEntries(live))
  }

  // A session just created has no dataspace that could be found.
  lemma NothingToFind(v: Variant, stored: seq<StoredRamDs>)
    ensures !RamDsRestorable(v, stored, [])
  {
    BootstrappedIffStamps(stored);
    assert LiveEntries([]) == [];
  }

  ghost function DsBadges(live: seq<RamDs>): set<nat> {
    set l | l in live :: l.badge
  }

  // The pairs found for a bootstrapped stored dataspace, and for no two the same.
  lemma PairedOnce(pairs: seq<CkptResto>, stored: seq<StoredRamDs>, live: seq<RamDs>, p: CkptResto, q: CkptResto)
    requires DistinctDs(stored, live) && PairedByRank(pairs, Entries(stored), LiveEntries(live)) && p in pairs && q in pairs
    ensures p.ckptBadge == q.ckptBadge <==> p.restoBadge == q.restoBadge
  {
    var es, el := Entries(stored), LiveEntries(live);
    var s, l := PairFrom(pairs, es, el, p);
    var s', l' := PairFrom(pairs, es, el, q);
    PairingIsOrderIsomorphism(pairs, es, el, s, l, s', l');
    if s.badge == s'.badge {
      SameBadgeSameEntry(es, s, s');
    }
    if l.badge == l'.badge {
      SameBadgeSameEntry(el, l, l');
    }
  }

  // The live dataspace found for a bootstrapped record.
  lemma PartnerOf(pairs: seq<CkptResto>, stored: seq<StoredRamDs>, live: seq<RamDs>, i: nat) returns (k: nat)
    requires DistinctDs(stored, live) && PairedByRank(pairs, Entries(stored), LiveEntries(live))
    requires i < |stored| && stored[i].bootstrapped
    ensures k < |live| && Translate(pairs, stored[i].badge) == Some(live[k].badge) && CkptResto(stored[i].badge, live[k].badge) in pairs
    ensures Rank(Entries(stored), stored[i].timestamp) == Rank(LiveEntries(live), live[k].timestamp)
  {
    var es, el := Entries(stored), LiveEntries(live);
    assert es[i] in es && Bootstrapped(es[i], es);
    var l :| Paired(pairs, es[i], l, es, el);
    k :| 0 <= k < |el| && el[k] == l;
    TranslateIff(pairs, stored[i].badge);
    assert stored[i].badge in Keys(pairs);
    PairedOnce(pairs, stored, live, CkptResto(stored[i].badge, live[k].badge),
               CkptResto(stored[i].badge, Translate(pairs, stored[i].badge).value));
  }

  lemma BootstrappedIffStamps(stored: seq<StoredRamDs>)
    ensures HasBootstrapped(stored) <==> |Stamps(Entries(stored))| > 0
  {
    var es := Entries(stored);
    if i :| 0 <= i < |stored| && stored[i].bootstrapped {
      StampsHas(es, es[i].timestamp);
      assert es[i] in es;
    } else {
      NoneBootstrapped(es);
    }
  }

  ghost predicate HasPartner(pairs: seq<CkptResto>, stored: seq<StoredRamDs>, live: seq<RamDs>, s: StoredRamDs) {
    exists l :: l in live && Translate(pairs, s.badge) == Some(l.badge)
      && Rank(Entries(stored), s.timestamp) == Rank(LiveEntries(live), l.timestamp)
  }

  // What the loop over the records uses of the pairs: they lead from the bootstrapped records to live
  // dataspaces of the same rank, one to one.
  ghost predicate OneToOne(pairs: seq<CkptResto>, stored: seq<StoredRamDs>, live: seq<RamDs>) {
    && DistinctBy(stored, RamDsKey())
    && (forall s :: s in stored && s.bootstrapped ==> HasPartner(pairs, stored, live, s))
    && Keys(pairs) == BootstrappedKeys(stored) && Images(pairs) <= DsBadges(live)
    && forall p, q :: p in pairs && q in pairs ==> (p.ckptBadge == q.ckptBadge <==> p.restoBadge == q.restoBadge)
  }

  ghost function BootstrappedKeys(stored: seq<StoredRamDs>): set<nat> {
    set i | 0 <= i < |stored| && stored[i].bootstrapped :: stored[i].badge
  }

  lemma PairsOneToOne(pairs: seq<CkptResto>, stored: seq<StoredRamDs>, live: seq<RamDs>)
    requires DistinctDs(stored, live) && PairedByRank(pairs, Entries(stored), LiveEntries(live))
    ensures OneToOne(pairs, stored, live)
  {
    DistinctRecords(stored);
    PairEnds(pairs, stored, live);
    RecordsHavePartners(pairs, stored, live);
    PairsOnce(pairs, stored, live);
  }

  lemma DistinctRecords(stored: seq<StoredRamDs>)
    requires Distinct(Entries(stored))
    ensures DistinctBy(stored, RamDsKey())
  {
    forall i, j | 0 <= i < j < |stored| ensures stored[i].badge != stored[j].badge {
      assert Entries(stored)[i].badge != Entries(stored)[j].badge;
    }
  }

  lemma PairEnds(pairs: seq<CkptResto>, stored: seq<StoredRamDs>, live: seq<RamDs>)
    requires PairedByRank(pairs, Entries(stored), LiveEntries(live))
    ensures Keys(pairs) <= BootstrappedKeys(stored) && Images(pairs) <= DsBadges(live)
  {
    forall p | p in pairs ensures p.ckptBadge in BootstrappedKeys(stored) && p.restoBadge in DsBadges(live) {
      var s, l := PairFrom(pairs, Entries(stored), LiveEntries(live), p);
      PairedEnds(stored, live, s, l);
    }
  }

  lemma RecordsHavePartners(pairs: seq<CkptResto>, stored: seq<StoredRamDs>, live: seq<RamDs>)
    requires DistinctDs(stored, live) && PairedByRank(pairs, Entries(stored), LiveEntries(live))
    ensures BootstrappedKeys(stored) <= Keys(pairs)
    ensures forall s :: s in stored && s.bootstrapped ==> HasPartner(pairs, stored, live, s)
  {
    forall i | 0 <= i < |stored| && stored[i].bootstrapped
      ensures stored[i].badge in Keys(pairs) && HasPartner(pairs, stored, live, stored[i])
    {
      var k := PartnerOf(pairs, stored, live, i);
      assert live[k] in live;
    }
  }

  lemma PairsOnce(pairs: seq<CkptResto>, stored: seq<StoredRamDs>, live: seq<RamDs>)
    requires DistinctDs(stored, live) && PairedByRank(pairs, Entries(stored), LiveEntries(live))
    ensures forall p, q :: p in pairs && q in pairs ==> (p.ckptBadge == q.ckptBadge <==> p.restoBadge == q.restoBadge)
  {
    forall p, q | p in pairs && q in pairs ensures p.ckptBadge == q.ckptBadge <==> p.restoBadge == q.restoBadge {
      PairedOnce(pairs, stored, live, p, q);
    }
  }

  lemma PairedEnds(stored: seq<StoredRamDs>, live: seq<RamDs>, s: Entry, l: Entry)
    requires Bootstrapped(s, Entries(stored)) && Bootstrapped(l, LiveEntries(live))
    ensures s.badge in BootstrappedKeys(stored) && l.badge in DsBadges(live)
  {
    var es, el := Entries(stored), LiveEntries(live);
    var i :| 0 <= i < |es| && es[i] == s;
    var k :| 0 <= k < |el| && el[k] == l;
    assert stored[i].badge == s.badge && live[k] in live;
  }

  // The live dataspaces taken by the first n records.
  ghost function Taken(pairs: seq<CkptResto>, stored: seq<StoredRamDs>, n: nat): set<nat>
    requires n <= |stored|
  {
    set p | p in pairs && p.ckptBadge in KeysTo(stored, RamDsKey(), n) :: p.restoBadge
  }

  lemma TakenAreLive(pairs: seq<CkptResto>, stored: seq<StoredRamDs>, live: seq<RamDs>, n: nat)
    requires OneToOne(pairs, stored, live) && n <= |stored|
    ensures Taken(pairs, stored, n) <= DsBadges(live)
  {
    assert Taken(pairs, stored, n) <= Images(pairs);
  }

  // The next record takes a live dataspace of its own if it is bootstrapped, and none otherwise.
  lemma {:induction false} TakenNext(pairs: seq<CkptResto>, stored: seq<StoredRamDs>, live: seq<RamDs>, n: nat)
    requires OneToOne(pairs, stored, live) && n < |stored|
    ensures !stored[n].bootstrapped ==> Taken(pairs, stored, n + 1) == Taken(pairs, stored, n)
    ensures stored[n].bootstrapped ==>
      && Translate(pairs, stored[n].badge).Some?
      && Translate(pairs, stored[n].badge).value !in Taken(pairs, stored, n)
      && Taken(pairs, stored, n + 1) == Taken(pairs, stored, n) + {Translate(pairs, stored[n].badge).value}
  {
    var b := stored[n].badge;
    KeysNext(stored, RamDsKey(), n);
    TranslateIff(pairs, b);
    if !stored[n].bootstrapped {
      assert b !in Keys(pairs);
    } else {
      var own := CkptResto(b, Translate(pairs, b).value);
      assert b in Keys(pairs) && own in pairs;
      assert forall p :: p in pairs ==> (p.ckptBadge == b <==> p.restoBadge == own.restoBadge);
    }
  }

  // ---- Signal sources and contexts ----

  ghost function SourceKey(): StoredSource -> nat {
    (s: StoredSource) => s.badge
  }

  ghost predicate SourceStands(b: Bound, first: nat, s: StoredSource, l: nat) {
    if s.bootstrapped then Stands(b, s.badge, l) && l == first else StandsNew(b, s.kcap, s.badge, l)
  }

  ghost function SourceOf(first: nat): (Bound, StoredSource, nat) -> bool {
    (b: Bound, s: StoredSource, l: nat) => SourceStands(b, first, s, l)
  }

  lemma SourceLasting(first: nat)
    ensures Lasting(SourceOf(first))
  {
  }

  // One more source bound.
  lemma SourceNext(tr0: seq<CkptResto>, n0: nat, b: Bound, next: nat, b': Bound, next': nat, stored: seq<StoredSource>, first: nat,
                   made: seq<nat>, made': seq<nat>, i: nat, target: nat)
    requires i < |stored| && DistinctBy(stored, SourceKey()) && OneBootstrapped(stored) && first < n0
    requires BoundTo(tr0, n0, b, next, stored, SourceKey(), SourceOf(first), made, i, SourceTaken(stored, i, first))
    requires b'.tr == [CkptResto(stored[i].badge, target)] + b.tr && Grown(b, b') && SourceStands(b', first, stored[i], target)
    requires if stored[i].bootstrapped then target == first && next' == next else target == next && next' == next + 1
    requires target in made' && forall l :: l in made ==> l in made'
    ensures BoundTo(tr0, n0, b', next', stored, SourceKey(), SourceOf(first), made', i + 1, SourceTaken(stored, i + 1, first))
  {
    SourceLasting(first);
    SourceTakenNext(stored, i, first);
    BoundNext(tr0, n0, b, next, b', next', stored, SourceKey(), SourceOf(first), made, made', i,
              SourceTaken(stored, i, first), if stored[i].bootstrapped then {target} else {}, target, target);
  }

  // The sources at hand after the i-th record.
  function SourceAdded(ghost tr0: seq<CkptResto>, ghost n0: nat, ghost b: Bound, ghost next: nat, ghost b': Bound, ghost next': nat,
                       stored: seq<StoredSource>, first: nat, made: seq<nat>, i: nat, target: nat) : (made': seq<nat>)
    requires i < |stored| && DistinctBy(stored, SourceKey()) && OneBootstrapped(stored) && first < n0 && first in made
    requires BoundTo(tr0, n0, b, next, stored, SourceKey(), SourceOf(first), made, i, SourceTaken(stored, i, first))
    requires b'.tr == [CkptResto(stored[i].badge, target)] + b.tr && Grown(b, b') && SourceStands(b', first, stored[i], target)
    requires if stored[i].bootstrapped then target == first && next' == next else target == next && next' == next + 1
    ensures first in made'
    ensures BoundTo(tr0, n0, b', next', stored, SourceKey(), SourceOf(first), made', i + 1, SourceTaken(stored, i + 1, first))
  {
    var made' := if stored[i].bootstrapped then made else [target] + made;
    SourceNext(tr0, n0, b, next, b', next', stored, first, made, made', i, target);
    made'
  }

  ghost predicate OneBootstrapped(stored: seq<StoredSource>) {
    forall i, j :: 0 <= i < j < |stored| ==> !(stored[i].bootstrapped && stored[j].bootstrapped)
  }

  // What the first n records take of the child's own sources.
  ghost function SourceTaken(stored: seq<StoredSource>, n: nat, first: nat): set<nat>
    requires n <= |stored|
  {
    if exists i :: 0 <= i < n && stored[i].bootstrapped then {first} else {}
  }

  lemma SourceTakenNext(stored: seq<StoredSource>, n: nat, first: nat)
    requires OneBootstrapped(stored) && n < |stored|
    ensures stored[n].bootstrapped ==> SourceTaken(stored, n, first) == {} && SourceTaken(stored, n + 1, first) == {first}
    ensures !stored[n].bootstrapped ==> SourceTaken(stored, n + 1, first) == SourceTaken(stored, n, first)
  {
  }

  ghost function ContextKey(): StoredContext -> nat {
    (s: StoredContext) => s.badge
  }

  // A recreated context has the imprint of the stored one and the source that stands for its source.
  ghost predicate ContextStands(b: Bound, s: StoredContext, l: Context) {
    && StandsNew(b, s.kcap, s.badge, l.badge) && l.imprint == s.imprint
    && if s.source == 0 then l.source == 0 else Stands(b, s.source, l.source)
  }

  ghost function ContextOf(): (Bound, StoredContext, Context) -> bool {
    (b: Bound, s: StoredContext, l: Context) => ContextStands(b, s, l)
  }

  lemma ContextLasting()
    ensures Lasting(ContextOf())
  {
  }

  // The source of every context is translated by the time it is needed.
  ghost predicate SourcesKnown(keys: set<nat>, stored: seq<StoredContext>, n: nat)
    requires n <= |stored|
  {
    forall i :: 0 <= i < n ==> SourceKnown(keys, stored, i)
  }

  ghost predicate SourceKnown(keys: set<nat>, stored: seq<StoredContext>, i: nat)
    requires i < |stored|
  {
    stored[i].source == 0 || stored[i].source in keys || stored[i].source in KeysTo(stored, ContextKey(), i)
  }

  // ---- PD sessions ----

  // A region map comes with the dataspace it can be attached by.
  ghost function MapKeys(s: StoredMap): set<nat> {
    {s.head.badge, s.head.dsBadge}
  }

  ghost function MapBadgesOf(l: RegionMap): set<nat> {
    {l.head.badge, l.head.dsBadge}
  }

  ghost predicate MapStands(b: Bound, s: StoredMap, l: RegionMap) {
    Stands(b, s.head.badge, l.head.badge) && Stands(b, s.head.dsBadge, l.head.dsBadge)
  }

  // A session has an address space, a stack area and a linker area.
  ghost predicate ThreeMaps(s: StoredPd, l: Pd) {
    |s.session.kids| == 3 && |l.session.kids| == 3
  }

  ghost function PdKeys(s: StoredPd): seq<set<nat>>
    requires |s.session.kids| == 3
  {
    [{s.session.head.badge}, KeysTo(s.sources, SourceKey(), |s.sources|), KeysTo(s.contexts, ContextKey(), |s.contexts|),
     MapKeys(s.session.kids[0]), MapKeys(s.session.kids[1]), MapKeys(s.session.kids[2])]
  }

  // The objects a session of the child brings along; of several signal sources only the first counts.
  ghost function PdOwn(l: Pd): seq<set<nat>>
    requires |l.session.kids| == 3
  {
    [{l.session.head.badge}, if l.sources == [] then {} else {l.sources[0]}, {},
     MapBadgesOf(l.session.kids[0]), MapBadgesOf(l.session.kids[1]), MapBadgesOf(l.session.kids[2])]
  }

  ghost predicate PdFits(next: nat, s: StoredPd, l: Pd) {
    && ThreeMaps(s, l) && Chainable(next, PdKeys(s), PdOwn(l)) && OneBootstrapped(s.sources) && (l.sources != [] ==> l.sources[0] < next)
    && DistinctBy(s.sources, SourceKey()) && DistinctBy(s.contexts, ContextKey())
    && (forall k :: 0 <= k < 3 ==> s.session.kids[k].head.badge != s.session.kids[k].head.dsBadge)
    && (forall k :: 0 <= k < 3 ==> l.session.kids[k].head.badge != l.session.kids[k].head.dsBadge)
  }

  lemma SourcesChain(tr0: seq<CkptResto>, n0: nat, tr1: seq<CkptResto>, tr2: seq<CkptResto>, n2: nat, s: StoredPd, l: Pd)
    requires ThreeMaps(s, l) && Chainable(n0, PdKeys(s), PdOwn(l)) && l.sources != []
    requires Extends(tr0, n0, tr1, n0, {s.session.head.badge}, {l.session.head.badge})
    requires Extends(tr1, n0, tr2, n2, KeysTo(s.sources, SourceKey(), |s.sources|), {l.sources[0]})
    ensures Chain(tr0, n0, tr2, n2, PdKeys(s), PdOwn(l), 2) && n0 <= n2 && Keys(tr2) == BeforeContexts(Keys(tr0), s)
  {
    ExtendsNothing(tr0, n0);
    ChainNext(tr0, n0, tr0, n0, tr1, n0, PdKeys(s), PdOwn(l), 0);
    ChainNext(tr0, n0, tr1, n0, tr2, n2, PdKeys(s), PdOwn(l), 1);
    ExtendsKeeps(tr0, n0, tr1, n0, PdKeys(s)[0], PdOwn(l)[0]);
    ExtendsKeeps(tr1, n0, tr2, n2, PdKeys(s)[1], PdOwn(l)[1]);
  }

  lemma ContextsChain(tr0: seq<CkptResto>, n0: nat, tr: seq<CkptResto>, next: nat, tr': seq<CkptResto>, next': nat, s: StoredPd, l: Pd)
    requires ThreeMaps(s, l) && Chainable(n0, PdKeys(s), PdOwn(l)) && n0 <= next
    requires Chain(tr0, n0, tr, next, PdKeys(s), PdOwn(l), 2)
    requires Extends(tr, next, tr', next', KeysTo(s.contexts, ContextKey(), |s.contexts|), {})
    ensures Chain(tr0, n0, tr', next', PdKeys(s), PdOwn(l), 3) && n0 <= next'
  {
    ExtendsKeeps(tr, next, tr', next', PdKeys(s)[2], PdOwn(l)[2]);
    ChainNext(tr0, n0, tr, next, tr', next', PdKeys(s), PdOwn(l), 2);
  }

  // l is what the session l0 of the child has become.
  ghost predicate PdStands(b: Bound, s: StoredPd, l0: Pd, l: Pd)
    requires ThreeMaps(s, l0)
  {
    && l.session == l0.session && l0.sources != []
    && Stands(b, s.session.head.badge, l.session.head.badge)
    && AllFound(b, SourceOf(l0.sources[0]), s.sources, l.sources, |s.sources|)
    && AllFound(b, ContextOf(), s.contexts, l.contexts, |s.contexts|)
    && (forall k :: 0 <= k < 3 ==> MapStands(b, s.session.kids[k], l0.session.kids[k]))
  }

  // The badges translated when the contexts of s are recreated.
  ghost function BeforeContexts(keys: set<nat>, s: StoredPd): set<nat> {
    keys + {s.session.head.badge} + KeysTo(s.sources, SourceKey(), |s.sources|)
  }

  lemma PdStandsGrown(b: Bound, b': Bound, s: StoredPd, l0: Pd, l: Pd)
    requires ThreeMaps(s, l0) && PdStands(b, s, l0, l) && Grown(b, b')
    ensures PdStands(b', s, l0, l)
  {
    SourceLasting(l0.sources[0]);
    ContextLasting();
    AllFoundGrown(b, b', SourceOf(l0.sources[0]), s.sources, l.sources, l.sources, |s.sources|);
    AllFoundGrown(b, b', ContextOf(), s.contexts, l.contexts, l.contexts, |s.contexts|);
  }

  // ---- RAM sessions ----

  ghost function RamKeys(s: StoredRamSession): seq<set<nat>> {
    [{s.head.badge}, KeysTo(s.kids, RamDsKey(), |s.kids|)]
  }

  ghost function RamOwn(l: RamSession): seq<set<nat>> {
    [{l.head.badge}, DsBadges(l.kids)]
  }

  ghost predicate RamFits(next: nat, s: StoredRamSession, l: RamSession) {
    DistinctDs(s.kids, l.kids) && Chainable(next, RamKeys(s), RamOwn(l))
  }

  // l is what the session l0 of the child has become.
  ghost predicate RamStands(b: Bound, s: StoredRamSession, l0: RamSession, l: RamSession) {
    && l.head == l0.head && Stands(b, s.head.badge, l.head.badge)
    && AllFound(b, RamDsOf(s.kids, l0.kids), s.kids, l.kids, |s.kids|)
  }

  lemma RamChain(tr0: seq<CkptResto>, n0: nat, tr1: seq<CkptResto>, tr2: seq<CkptResto>, n2: nat, s: StoredRamSession, l: RamSession)
    requires Chainable(n0, RamKeys(s), RamOwn(l))
    requires Extends(tr0, n0, tr1, n0, {s.head.badge}, {l.head.badge})
    requires Extends(tr1, n0, tr2, n2, KeysTo(s.kids, RamDsKey(), |s.kids|), DsBadges(l.kids))
    ensures Chain(tr0, n0, tr2, n2, RamKeys(s), RamOwn(l), 2)
  {
    ExtendsNothing(tr0, n0);
    ChainNext(tr0, n0, tr0, n0, tr1, n0, RamKeys(s), RamOwn(l), 0);
    ChainNext(tr0, n0, tr1, n0, tr2, n2, RamKeys(s), RamOwn(l), 1);
  }

  // ---- CPU sessions ----

  ghost function ThreadKey(): StoredThread -> nat {
    (s: StoredThread) => s.badge
  }

  ghost function ThreadBadges(live: seq<Thread>): set<nat> {
    set l | l in live :: l.badge
  }

  // A bootstrapped thread is found by name, any other is created in the PD session that stands for its own.
  ghost predicate ThreadStands(b: Bound, live: seq<Thread>, s: StoredThread, l: Thread) {
    && l.name == s.name
    && if s.bootstrapped then Stands(b, s.badge, l.badge) && l in live
       else StandsNew(b, s.kcap, s.badge, l.badge) && Stands(b, s.pd, l.pd)
  }

  ghost function ThreadOf(live: seq<Thread>): (Bound, StoredThread, Thread) -> bool {
    (b: Bound, s: StoredThread, l: Thread) => ThreadStands(b, live, s, l)
  }

  lemma ThreadLasting(live: seq<Thread>)
    ensures Lasting(ThreadOf(live))
  {
  }

  // No record before a bootstrapped one has its name, under which a thread of the child is looked up.
  ghost predicate FoundByName(stored: seq<StoredThread>) {
    forall i, j :: 0 <= i < j < |stored| && stored[j].bootstrapped ==> stored[i].name != stored[j].name
  }

  ghost predicate NamedThread(live: seq<Thread>, name: string) {
    exists l :: l in live && l.name == name
  }

  // A bootstrapped thread needs a live one of its name, any other a translated PD session.
  // Folded like Extends.
  ghost predicate ThreadKnown(tr: seq<CkptResto>, live: seq<Thread>, pds: seq<nat>, s: StoredThread) {
    forall key: nat {:trigger Unfold(key)} :: Unfold(key) ==>
      if s.bootstrapped then NamedThread(live, s.name) else Translate(tr, s.pd).Some? && Translate(tr, s.pd).value in pds
  }

  lemma {:induction false} OpenThreadKnown(tr: seq<CkptResto>, live: seq<Thread>, pds: seq<nat>, s: StoredThread)
    ensures ThreadKnown(tr, live, pds, s) <==>
      if s.bootstrapped then NamedThread(live, s.name) else Translate(tr, s.pd).Some? && Translate(tr, s.pd).value in pds
  {
    assert Unfold(0);
  }

  // Folded like Extends.
  ghost predicate ThreadsKnown(tr: seq<CkptResto>, live: seq<Thread>, pds: seq<nat>, stored: seq<StoredThread>, n: nat)
    requires n <= |stored|
  {
    forall key: nat {:trigger Unfold(key)} :: Unfold(key) ==> forall i :: 0 <= i < n ==> ThreadKnown(tr, live, pds, stored[i])
  }

  lemma ThreadsKnownIff(tr: seq<CkptResto>, live: seq<Thread>, pds: seq<nat>, stored: seq<StoredThread>, n: nat)
    requires n <= |stored|
    ensures ThreadsKnown(tr, live, pds, stored, n) <==> forall i :: 0 <= i < n ==> ThreadKnown(tr, live, pds, stored[i])
  {
    assert Unfold(0);
  }

  // After n records with their threads: one more, or a failure.
  lemma NextThreadKnown(tr: seq<CkptResto>, live: seq<Thread>, pds: seq<nat>, stored: seq<StoredThread>, n: nat)
    requires n < |stored| && ThreadsKnown(tr, live, pds, stored, n)
    ensures ThreadsKnown(tr, live, pds, stored, n + 1) <==> ThreadKnown(tr, live, pds, stored[n])
    ensures !ThreadKnown(tr, live, pds, stored[n]) ==> !ThreadsKnown(tr, live, pds, stored, |stored|)
  {
    ThreadsKnownIff(tr, live, pds, stored, n);
    ThreadsKnownIff(tr, live, pds, stored, n + 1);
    ThreadsKnownIff(tr, live, pds, stored, |stored|);
  }

  // What the first n records take of the live threads.
  ghost function ThreadsTaken(stored: seq<StoredThread>, live: seq<Thread>, n: nat): set<nat>
    requires n <= |stored|
  {
    set i, l | 0 <= i < n && stored[i].bootstrapped && l in live && l.name == stored[i].name :: l.badge
  }

  ghost predicate LiveThreads(live: seq<Thread>) {
    forall i, j :: 0 <= i < j < |live| ==> live[i].name != live[j].name && live[i].badge != live[j].badge
  }

  lemma ThreadsTakenNext(stored: seq<StoredThread>, live: seq<Thread>, n: nat, k: nat)
    requires FoundByName(stored) && LiveThreads(live) && n < |stored| && k < |live|
    requires stored[n].bootstrapped && live[k].name == stored[n].name
    ensures live[k].badge !in ThreadsTaken(stored, live, n)
    ensures ThreadsTaken(stored, live, n + 1) == ThreadsTaken(stored, live, n) + {live[k].badge}
  {
    forall l | l in live ensures l.name == live[k].name <==> l == live[k] {
    }
    forall l | l in live ensures l.badge == live[k].badge <==> l == live[k] {
    }
  }

  lemma ThreadsTakenSame(stored: seq<StoredThread>, live: seq<Thread>, n: nat)
    requires n < |stored| && !stored[n].bootstrapped
    ensures ThreadsTaken(stored, live, n + 1) == ThreadsTaken(stored, live, n)
  {
  }

  // A PD session is found under the translation that was there before the threads.
  lemma {:induction false} PdOfThread(tr0: seq<CkptResto>, n0: nat, tr: seq<CkptResto>, next: nat, keys: set<nat>, boot: set<nat>, pds: seq<nat>, pd: nat)
    requires Extends(tr0, n0, tr, next, keys, boot) && keys !! Keys(tr0)
    requires forall o :: o in pds ==> o < n0 && o !in boot
    ensures (Translate(tr, pd).Some? && Translate(tr, pd).value in pds) <==> (Translate(tr0, pd).Some? && Translate(tr0, pd).value in pds)
    ensures pd in Keys(tr0) ==> Translate(tr, pd) == Translate(tr0, pd)
  {
    OpenExtends(tr0, n0, tr, next, keys, boot);
    var news := tr[..|tr| - |tr0|];
    assert tr == news + tr0;
    TranslateAppend(news, tr0, pd);
    TranslateIff(tr0, pd);
    TranslateIff(news, pd);
    ImagesBounded(news, n0, next, keys, boot);
    if Translate(news, pd).Some? {
      assert Translate(news, pd).value in Images(news);
    }
  }

  // The threads at hand: the live ones and those created for the first n records, which have other names.
  ghost predicate NamesOf(made: seq<Thread>, live: seq<Thread>, stored: seq<StoredThread>, n: nat)
    requires n <= |stored|
  {
    && (forall l :: l in live ==> l in made)
    && (forall l :: l in made ==> l in live || exists i :: 0 <= i < n && l.name == stored[i].name)
  }

  // So a bootstrapped thread is found if it is live, and then the live one.
  lemma NameFound(made: seq<Thread>, live: seq<Thread>, stored: seq<StoredThread>, n: nat, k: nat)
    requires n < |stored| && stored[n].bootstrapped && FoundByName(stored) && NamesOf(made, live, stored, n)
    requires k <= |made| && (forall j :: 0 <= j < k ==> made[j].name != stored[n].name) && (k < |made| ==> made[k].name == stored[n].name)
    ensures k < |made| <==> NamedThread(live, stored[n].name)
    ensures k < |made| ==> made[k] in live
  {
    if k == |made| {
      forall l | l in live ensures l.name != stored[n].name {
        assert l in made;
      }
    } else {
      assert made[k] in made;
    }
  }

  lemma KeysSome(stored: seq<StoredThread>, n: nat, others: set<nat>)
    requires n <= |stored| && KeysTo(stored, ThreadKey(), |stored|) !! others
    ensures KeysTo(stored, ThreadKey(), n) !! others
  {
    assert KeysTo(stored, ThreadKey(), n) <= KeysTo(stored, ThreadKey(), |stored|);
  }

  // What the loop over threads demands: distinct records, bootstrapped ones with names of their own, distinct
  // live threads, all badges known.
  // Folded like Extends.
  ghost predicate ThreadsFit(tr: seq<CkptResto>, next: nat, live: seq<Thread>, stored: seq<StoredThread>, pds: seq<nat>) {
    forall key: nat {:trigger Unfold(key)} :: Unfold(key) ==>
      && DistinctBy(stored, ThreadKey()) && FoundByName(stored) && LiveThreads(live)
      && KeysTo(stored, ThreadKey(), |stored|) !! Keys(tr)
      && (forall l :: l in live ==> l.badge < next) && (forall o :: o in pds ==> o < next && o !in ThreadBadges(live))
  }

  lemma OpenThreadsFit(tr: seq<CkptResto>, next: nat, live: seq<Thread>, stored: seq<StoredThread>, pds: seq<nat>)
    ensures ThreadsFit(tr, next, live, stored, pds) <==>
      && DistinctBy(stored, ThreadKey()) && FoundByName(stored) && LiveThreads(live)
      && KeysTo(stored, ThreadKey(), |stored|) !! Keys(tr)
      && (forall l :: l in live ==> l.badge < next) && (forall o :: o in pds ==> o < next && o !in ThreadBadges(live))
  {
    assert Unfold(0);
  }

  // State of that loop: the first n threads are bound.  Folded like Extends.
  ghost predicate ThreadsBound(tr0: seq<CkptResto>, n0: nat, b: Bound, next: nat, live: seq<Thread>, stored: seq<StoredThread>,
                               made: seq<Thread>, n: nat)
    requires n <= |stored|
  {
    forall key: nat {:trigger Unfold(key)} :: Unfold(key) ==>
      && BoundTo(tr0, n0, b, next, stored, ThreadKey(), ThreadOf(live), made, n, ThreadsTaken(stored, live, n))
      && NamesOf(made, live, stored, n)
  }

  lemma OpenThreadsBound(tr0: seq<CkptResto>, n0: nat, b: Bound, next: nat, live: seq<Thread>, stored: seq<StoredThread>,
                         made: seq<Thread>, n: nat)
    requires n <= |stored|
    ensures ThreadsBound(tr0, n0, b, next, live, stored, made, n) <==>
      && BoundTo(tr0, n0, b, next, stored, ThreadKey(), ThreadOf(live), made, n, ThreadsTaken(stored, live, n))
      && NamesOf(made, live, stored, n)
  {
    assert Unfold(0);
  }

  lemma NoThreadsBound(b: Bound, next: nat, live: seq<Thread>, stored: seq<StoredThread>)
    ensures ThreadsBound(b.tr, next, b, next, live, stored, live, 0)
  {
    BoundNone(b, next, stored, ThreadKey(), ThreadOf(live), live);
    assert ThreadsTaken(stored, live, 0) == {};
    OpenThreadsBound(b.tr, next, b, next, live, stored, live, 0);
  }

  lemma AllThreadsBound(tr0: seq<CkptResto>, n0: nat, b: Bound, next: nat, live: seq<Thread>, stored: seq<StoredThread>,
                        pds: seq<nat>, made: seq<Thread>)
    requires ThreadsFit(tr0, n0, live, stored, pds) && ThreadsBound(tr0, n0, b, next, live, stored, made, |stored|)
    ensures Extends(tr0, n0, b.tr, next, KeysTo(stored, ThreadKey(), |stored|), ThreadBadges(live))
    ensures AllFound(b, ThreadOf(live), stored, made, |stored|)
  {
    OpenThreadsFit(tr0, n0, live, stored, pds);
    OpenThreadsBound(tr0, n0, b, next, live, stored, made, |stored|);
    ExtendsMore(tr0, n0, b.tr, next, KeysTo(stored, ThreadKey(), |stored|), ThreadsTaken(stored, live, |stored|), ThreadBadges(live));
  }

  // One more thread: a live one of the record's name.
  lemma ThreadIdentified(tr0: seq<CkptResto>, n0: nat, b: Bound, b': Bound, next: nat, live: seq<Thread>, stored: seq<StoredThread>,
                         pds: seq<nat>, made: seq<Thread>, i: nat, l: Thread)
    requires i < |stored| && stored[i].bootstrapped && ThreadsFit(tr0, n0, live, stored, pds)
    requires ThreadsBound(tr0, n0, b, next, live, stored, made, i) && l in live && l in made && l.name == stored[i].name
    requires b' == b.(tr := [CkptResto(stored[i].badge, l.badge)] + b.tr)
    ensures ThreadsBound(tr0, n0, b', next, live, stored, made, i + 1)
  {
    OpenThreadsFit(tr0, n0, live, stored, pds);
    OpenThreadsBound(tr0, n0, b, next, live, stored, made, i);
    var at :| 0 <= at < |live| && live[at] == l;
    ThreadsTakenNext(stored, live, i, at);
    assert ThreadStands(b', live, stored[i], l);
    ThreadLasting(live);
    BoundNext(tr0, n0, b, next, b', next, stored, ThreadKey(), ThreadOf(live), made, made, i, ThreadsTaken(stored, live, i), {l.badge}, l.badge, l);
    OpenThreadsBound(tr0, n0, b', next, live, stored, made, i + 1);
  }

  // Or a new one, in the PD session that stands for the record's.
  lemma ThreadCreated(tr0: seq<CkptResto>, n0: nat, b: Bound, next: nat, b': Bound, next': nat, live: seq<Thread>, stored: seq<StoredThread>,
                      pds: seq<nat>, made: seq<Thread>, i: nat, l: Thread)
    requires i < |stored| && !stored[i].bootstrapped && ThreadsFit(tr0, n0, live, stored, pds)
    requires ThreadsBound(tr0, n0, b, next, live, stored, made, i) && l.name == stored[i].name && next <= l.badge < next'
    requires b'.tr == [CkptResto(stored[i].badge, l.badge)] + b.tr && Grown(b, b') && ThreadStands(b', live, stored[i], l)
    ensures ThreadsBound(tr0, n0, b', next', live, stored, [l] + made, i + 1)
  {
    OpenThreadsFit(tr0, n0, live, stored, pds);
    OpenThreadsBound(tr0, n0, b, next, live, stored, made, i);
    ThreadsTakenSame(stored, live, i);
    ThreadLasting(live);
    BoundNext(tr0, n0, b, next, b', next', stored, ThreadKey(), ThreadOf(live), made, [l] + made, i, ThreadsTaken(stored, live, i), {}, l.badge, l);
    OpenThreadsBound(tr0, n0, b', next', live, stored, [l] + made, i + 1);
  }

  // ---- Lists of CPU sessions ----

  ghost function CpuKeys(s: StoredCpu): set<nat> {
    {s.head.badge} + KeysTo(s.kids, ThreadKey(), |s.kids|)
  }

  // The threads that are there when the session of s is looked at: a recreated session has none.
  ghost function ThreadsFor(live: seq<Cpu>, s: StoredCpu): seq<Thread>
    requires live != []
  {
    if s.head.bootstrapped then live[0].kids else []
  }

  ghost function CpuOwn(live: seq<Cpu>, s: StoredCpu): set<nat>
    requires live != []
  {
    if s.head.bootstrapped then {live[0].head.badge} + ThreadBadges(live[0].kids) else {}
  }

  ghost function CpuParts(stored: seq<StoredCpu>): seq<set<nat>> {
    seq(|stored|, i requires 0 <= i < |stored| => CpuKeys(stored[i]))
  }

  ghost function CpuOwnParts(live: seq<Cpu>, stored: seq<StoredCpu>): seq<set<nat>>
    requires live != []
  {
    seq(|stored|, i requires 0 <= i < |stored| => CpuOwn(live, stored[i]))
  }

  ghost predicate CpuFits(live: seq<Cpu>, s: StoredCpu)
    requires live != []
  {
    && DistinctBy(s.kids, ThreadKey()) && FoundByName(s.kids) && s.head.badge !in KeysTo(s.kids, ThreadKey(), |s.kids|)
    && LiveThreads(ThreadsFor(live, s)) && live[0].head.badge !in ThreadBadges(live[0].kids)
  }

  // A session is recreated with the arguments with which the stored one was created.
  ghost predicate RecreatedHead(s: StoredSessionHead, l: SessionHead) {
    l.creationArgs == s.creationArgs && l.upgradeArgs == "" && !l.bootstrapped
  }

  ghost predicate CpuStands(b: Bound, live: seq<Cpu>, s: StoredCpu, l: Cpu)
    requires live != []
  {
    && (if s.head.bootstrapped then Stands(b, s.head.badge, l.head.badge) && l.head == live[0].head
        else StandsNew(b, s.head.kcap, s.head.badge, l.head.badge) && RecreatedHead(s.head, l.head))
    && AllFound(b, ThreadOf(ThreadsFor(live, s)), s.kids, l.kids, |s.kids|)
  }

  ghost function CpuOf(live: seq<Cpu>): (Bound, StoredCpu, Cpu) -> bool
    requires live != []
  {
    (b: Bound, s: StoredCpu, l: Cpu) => CpuStands(b, live, s, l)
  }

  lemma CpuLasting(live: seq<Cpu>)
    requires live != []
    ensures Lasting(CpuOf(live))
  {
    forall b, b', s: StoredCpu, l: Cpu | CpuStands(b, live, s, l) && Grown(b, b') ensures CpuStands(b', live, s, l) {
      ThreadLasting(ThreadsFor(live, s));
      AllFoundGrown(b, b', ThreadOf(ThreadsFor(live, s)), s.kids, l.kids, l.kids, |s.kids|);
    }
  }

  lemma CpuFoundNext(b: Bound, b': Bound, live: seq<Cpu>, stored: seq<StoredCpu>, made: seq<Cpu>, i: nat, l: Cpu)
    requires live != [] && i < |stored| && AllFound(b, CpuOf(live), stored, made, i) && Grown(b, b') && CpuStands(b', live, stored[i], l)
    ensures AllFound(b', CpuOf(live), stored, [l] + made, i + 1)
  {
    CpuLasting(live);
    AllFoundNext(b, b', CpuOf(live), stored, made, [l] + made, i, l);
  }

  // A session bound, and then its threads.
  lemma {:induction false} CpuExtended(tr0: seq<CkptResto>, n0: nat, tr1: seq<CkptResto>, n1: nat, tr2: seq<CkptResto>, n2: nat, live: seq<Cpu>,
                                       s: StoredCpu, own: set<nat>)
    requires live != [] && CpuFits(live, s) && own == (if s.head.bootstrapped then {live[0].head.badge} else {})
    requires forall o :: o in CpuOwn(live, s) ==> o < n0
    requires Extends(tr0, n0, tr1, n1, {s.head.badge}, own)
    requires Extends(tr1, n1, tr2, n2, KeysTo(s.kids, ThreadKey(), |s.kids|), ThreadBadges(ThreadsFor(live, s)))
    ensures Extends(tr0, n0, tr2, n2, CpuKeys(s), CpuOwn(live, s))
  {
    var threads := ThreadBadges(ThreadsFor(live, s));
    assert own + threads == CpuOwn(live, s);
    ExtendsThen(tr0, n0, tr1, n1, tr2, n2, {s.head.badge}, own, KeysTo(s.kids, ThreadKey(), |s.kids|), threads);
  }

  // What was translated before does not change which threads can be recreated later.
  lemma ThreadsKnownSame(tr0: seq<CkptResto>, n0: nat, tr: seq<CkptResto>, next: nat, keys: set<nat>, boot: set<nat>,
                         live: seq<Thread>, pds: seq<nat>, stored: seq<StoredThread>)
    requires Extends(tr0, n0, tr, next, keys, boot) && keys !! Keys(tr0) && forall o :: o in pds ==> o < n0 && o !in boot
    ensures ThreadsKnown(tr, live, pds, stored, |stored|) <==> ThreadsKnown(tr0, live, pds, stored, |stored|)
  {
    forall i | 0 <= i < |stored| ensures ThreadKnown(tr, live, pds, stored[i]) <==> ThreadKnown(tr0, live, pds, stored[i]) {
      PdOfThread(tr0, n0, tr, next, keys, boot, pds, stored[i].pd);
      OpenThreadKnown(tr, live, pds, stored[i]);
      OpenThreadKnown(tr0, live, pds, stored[i]);
    }
    ThreadsKnownIff(tr, live, pds, stored, |stored|);
    ThreadsKnownIff(tr0, live, pds, stored, |stored|);
  }

  // Every thread of s has its live counterpart or its PD session.  Folded like Extends.
  ghost predicate CpuSessionRestorable(tr: seq<CkptResto>, s: StoredCpu, live: seq<Cpu>, pds: seq<nat>)
    requires live != []
  {
    forall key: nat {:trigger Unfold(key)} :: Unfold(key) ==> ThreadsKnown(tr, ThreadsFor(live, s), pds, s.kids, |s.kids|)
  }

  lemma OpenCpuSessionRestorable(tr: seq<CkptResto>, s: StoredCpu, live: seq<Cpu>, pds: seq<nat>)
    requires live != []
    ensures CpuSessionRestorable(tr, s, live, pds) <==> ThreadsKnown(tr, ThreadsFor(live, s), pds, s.kids, |s.kids|)
  {
    assert Unfold(0);
  }

  // ---- Lists of RM sessions ----

  ghost function MapParts(stored: seq<StoredMap>): seq<set<nat>> {
    seq(|stored|, i requires 0 <= i < |stored| => MapKeys(stored[i]))
  }

  ghost function Nothings(n: nat): (r: seq<set<nat>>)
    ensures |r| == n && forall i :: 0 <= i < n ==> r[i] == {}
  {
    seq(n, i => {})
  }

  // A recreated region map is as large as the stored one.
  ghost predicate NewMapStands(b: Bound, s: StoredMap, l: RegionMap) {
    && StandsNew(b, s.head.kcap, s.head.badge, l.head.badge) && Stands(b, s.head.dsBadge, l.head.dsBadge)
    && l.head.size == s.head.size && l.kids == []
  }

  ghost function NewMapOf(): (Bound, StoredMap, RegionMap) -> bool {
    (b: Bound, s: StoredMap, l: RegionMap) => NewMapStands(b, s, l)
  }

  lemma NewMapLasting()
    ensures Lasting(NewMapOf())
  {
  }

  ghost predicate DistinctMaps(stored: seq<StoredMap>) {
    Apart(MapParts(stored)) && forall i :: 0 <= i < |stored| ==> stored[i].head.badge != stored[i].head.dsBadge
  }

  ghost function RmKeys(s: StoredRmSession): set<nat> {
    {s.head.badge} + UnionTo(MapParts(s.kids), |s.kids|)
  }

  ghost function RmParts(stored: seq<StoredRmSession>): seq<set<nat>> {
    seq(|stored|, i requires 0 <= i < |stored| => RmKeys(stored[i]))
  }

  function MapKey(): RegionMap -> nat {
    (l: RegionMap) => l.head.badge
  }

  function RmKey(): RmSession -> nat {
    (l: RmSession) => l.head.badge
  }

  // Objects created one after the other have badges of their own.  Folded like Extends.
  ghost predicate Made<L(!new)>(made: seq<L>, key: L -> nat, n0: nat, next: nat) {
    n0 <= next && forall k: nat {:trigger Unfold(k)} :: Unfold(k) ==>
      DistinctBy(made, key) && forall i :: 0 <= i < |made| ==> n0 <= key(made[i]) < next
  }

  lemma MadeNone<L(!new)>(key: L -> nat, n0: nat)
    ensures Made([], key, n0, n0)
  {
  }

  lemma MadeNext<L(!new)>(made: seq<L>, key: L -> nat, n0: nat, next: nat, l: L, next': nat)
    requires Made(made, key, n0, next) && next <= key(l) < next'
    ensures Made([l] + made, key, n0, next')
  {
    assert Unfold(0);
  }

  lemma MadeDistinct<L(!new)>(made: seq<L>, key: L -> nat, n0: nat, next: nat)
    requires Made(made, key, n0, next)
    ensures DistinctBy(made, key)
  {
    assert Unfold(0);
  }

  ghost predicate RmStands(b: Bound, s: StoredRmSession, l: RmSession) {
    && StandsNew(b, s.head.kcap, s.head.badge, l.head.badge) && RecreatedHead(s.head, l.head)
    && AllFound(b, NewMapOf(), s.kids, l.kids, |s.kids|) && DistinctBy(l.kids, MapKey())
  }

  ghost function RmOf(): (Bound, StoredRmSession, RmSession) -> bool {
    (b: Bound, s: StoredRmSession, l: RmSession) => RmStands(b, s, l)
  }

  lemma RmLasting()
    ensures Lasting(RmOf())
  {
    forall b, b', s: StoredRmSession, l: RmSession | RmStands(b, s, l) && Grown(b, b') ensures RmStands(b', s, l) {
      NewMapLasting();
      AllFoundGrown(b, b', NewMapOf(), s.kids, l.kids, l.kids, |s.kids|);
    }
  }

  lemma RmFoundNext(b: Bound, b': Bound, stored: seq<StoredRmSession>, made: seq<RmSession>, i: nat, l: RmSession)
    requires i < |stored| && AllFound(b, RmOf(), stored, made, i) && Grown(b, b') && RmStands(b', stored[i], l)
    ensures AllFound(b', RmOf(), stored, [l] + made, i + 1)
  {
    RmLasting();
    AllFoundNext(b, b', RmOf(), stored, made, [l] + made, i, l);
  }

  // Two new bindings for a new region map.
  // State of the loop over region maps.  Folded like Extends.
  ghost predicate MapsBound(b0: Bound, n0: nat, b: Bound, next: nat, stored: seq<StoredMap>, made: seq<RegionMap>, n: nat)
    requires n <= |stored|
  {
    forall key: nat {:trigger Unfold(key)} :: Unfold(key) ==>
      && Grown(b0, b) && Chain(b0.tr, n0, b.tr, next, MapParts(stored), Nothings(|stored|), n)
      && AllFound(b, NewMapOf(), stored, made, n) && Made(made, MapKey(), n0, next) && Slotted(b0, b, NeedsTo(stored, MapNeed(), n))
  }

  lemma {:induction false} OpenMapsBound(b0: Bound, n0: nat, b: Bound, next: nat, stored: seq<StoredMap>, made: seq<RegionMap>, n: nat)
    requires n <= |stored|
    ensures MapsBound(b0, n0, b, next, stored, made, n) <==>
      && Grown(b0, b) && Chain(b0.tr, n0, b.tr, next, MapParts(stored), Nothings(|stored|), n)
      && AllFound(b, NewMapOf(), stored, made, n) && Made(made, MapKey(), n0, next) && Slotted(b0, b, NeedsTo(stored, MapNeed(), n))
  {
    assert Unfold(0);
  }

  lemma {:induction false} NoMapsBound(b: Bound, n0: nat, stored: seq<StoredMap>)
    ensures MapsBound(b, n0, b, n0, stored, [], 0)
  {
    MadeNone(MapKey(), n0);
    ExtendsNothing(b.tr, n0);
    OpenAllFound(b, NewMapOf(), stored, [], 0);
    NothingSlotted(b, b);
    OpenMapsBound(b, n0, b, n0, stored, [], 0);
  }

  lemma {:induction false} MapsBoundNext(b0: Bound, n0: nat, b: Bound, next: nat, b': Bound, stored: seq<StoredMap>, made: seq<RegionMap>, i: nat, l: RegionMap)
    requires DistinctMaps(stored) && i < |stored| && MapsBound(b0, n0, b, next, stored, made, i)
    requires Grown(b, b') && NewMapStands(b', stored[i], l) && l.head.badge == next && Slotted(b, b', MapNeed()(stored[i]))
    requires b'.tr == [CkptResto(stored[i].head.dsBadge, next + 1)] + ([CkptResto(stored[i].head.badge, next)] + b.tr)
    ensures MapsBound(b0, n0, b', next + 2, stored, [l] + made, i + 1)
  {
    OpenMapsBound(b0, n0, b, next, stored, made, i);
    OpenMapsBound(b0, n0, b', next + 2, stored, [l] + made, i + 1);
    MapNext(b0.tr, n0, b.tr, next, b'.tr, next + 2, stored, i);
    MadeNext(made, MapKey(), n0, next, l, next + 2);
    NewMapLasting();
    AllFoundNext(b, b', NewMapOf(), stored, made, [l] + made, i, l);
    GrownTwice(b0, b, b');
    SlottedNext(b0, b, b', stored, MapNeed(), i);
  }

  lemma {:induction false} AllMapsBound(b0: Bound, n0: nat, b: Bound, next: nat, stored: seq<StoredMap>, made: seq<RegionMap>)
    requires MapsBound(b0, n0, b, next, stored, made, |stored|)
    ensures Grown(b0, b) && Extends(b0.tr, n0, b.tr, next, UnionTo(MapParts(stored), |stored|), {})
    ensures AllFound(b, NewMapOf(), stored, made, |stored|) && Made(made, MapKey(), n0, next)
    ensures Slotted(b0, b, NeedsTo(stored, MapNeed(), |stored|))
  {
    OpenMapsBound(b0, n0, b, next, stored, made, |stored|);
    UnionOfNothings(|stored|, |stored|);
  }

  lemma MapNext(tr0: seq<CkptResto>, n0: nat, tr: seq<CkptResto>, next: nat, tr': seq<CkptResto>, next': nat, stored: seq<StoredMap>, i: nat)
    requires DistinctMaps(stored) && i < |stored| && Chain(tr0, n0, tr, next, MapParts(stored), Nothings(|stored|), i)
    requires next' == next + 2
    requires tr' == [CkptResto(stored[i].head.dsBadge, next + 1)] + ([CkptResto(stored[i].head.badge, next)] + tr)
    ensures Chain(tr0, n0, tr', next', MapParts(stored), Nothings(|stored|), i + 1)
  {
    var s := stored[i];
    var tr1 := [CkptResto(s.head.badge, next)] + tr;
    ExtendsOne(tr, next, next + 1, s.head.badge, next, {});
    ExtendsOne(tr1, next + 1, next', s.head.dsBadge, next + 1, {});
    ExtendsThen(tr, next, tr1, next + 1, tr', next', {s.head.badge}, {}, {s.head.dsBadge}, {});
    assert {s.head.badge} + {s.head.dsBadge} == MapParts(stored)[i];
    OpenChainable(n0, MapParts(stored), Nothings(|stored|));
    ChainNext(tr0, n0, tr, next, tr', next', MapParts(stored), Nothings(|stored|), i);
  }

  lemma {:induction false} UnionOfNothings(n: nat, k: nat)
    requires k <= n
    ensures UnionTo(Nothings(n), k) == {}
  {
    if k > 0 {
      UnionOfNothings(n, k - 1);
    }
  }

  // ---- What the lists of sessions have to be like, and when they can be restored ----

  ghost predicate RamListFits(next: nat, stored: seq<StoredRamSession>, live: seq<RamSession>) {
    && (forall i, j :: 0 <= i < j < |stored| ==> !(stored[i].head.bootstrapped && stored[j].head.bootstrapped))
    && (forall s :: s in stored && !s.head.bootstrapped ==> Distinct(Entries(s.kids)))
    && (live != [] ==> forall s :: s in stored && s.head.bootstrapped ==> RamFits(next, s, live[0]))
  }

  ghost predicate RamRestorable(v: Variant, stored: seq<StoredRamSession>, live: seq<RamSession>) {
    live != [] && forall s :: s in stored ==> s.head.bootstrapped && RamDsRestorable(v, s.kids, live[0].kids)
  }

  ghost predicate PdListFits(next: nat, stored: seq<StoredPd>, live: seq<Pd>) {
    && (forall i, j :: 0 <= i < j < |stored| ==> !(stored[i].session.head.bootstrapped && stored[j].session.head.bootstrapped))
    && (forall s :: s in stored && !s.session.head.bootstrapped ==> DistinctBy(s.sources, SourceKey()) && OneBootstrapped(s.sources))
    && (live != [] ==> forall s :: s in stored && s.session.head.bootstrapped ==> PdFits(next, s, live[0]))
  }

  ghost predicate PdSessionRestorable(keys: set<nat>, s: StoredPd, l: Pd) {
    s.session.head.bootstrapped && l.sources != [] && SourcesKnown(BeforeContexts(keys, s), s.contexts, |s.contexts|)
  }

  ghost predicate PdRestorable(keys: set<nat>, stored: seq<StoredPd>, live: seq<Pd>) {
    live != [] && forall s :: s in stored ==> PdSessionRestorable(keys, s, live[0])
  }

  // Folded like Extends.
  ghost predicate CpuListFits(next: nat, keys: set<nat>, stored: seq<StoredCpu>, live: seq<Cpu>, pds: seq<nat>) {
    live != [] ==> forall key: nat {:trigger Unfold(key)} :: Unfold(key) ==> CpuAllFit(next, keys, stored, live, pds)
  }

  ghost predicate CpuAllFit(next: nat, keys: set<nat>, stored: seq<StoredCpu>, live: seq<Cpu>, pds: seq<nat>)
    requires live != []
  {
    && (forall i :: 0 <= i < |stored| ==> CpuFits(live, stored[i]))
    && Chainable(next, CpuParts(stored), CpuOwnParts(live, stored)) && UnionTo(CpuParts(stored), |stored|) !! keys
    && (forall o :: o in pds ==> o < next && o != live[0].head.badge && o !in ThreadBadges(live[0].kids))
  }

  lemma OpenCpuListFits(next: nat, keys: set<nat>, stored: seq<StoredCpu>, live: seq<Cpu>, pds: seq<nat>)
    requires live != []
    ensures CpuListFits(next, keys, stored, live, pds) <==> CpuAllFit(next, keys, stored, live, pds)
  {
    assert Unfold(0);
  }

  ghost predicate CpuRestorableTo(tr: seq<CkptResto>, stored: seq<StoredCpu>, live: seq<Cpu>, pds: seq<nat>, n: nat)
    requires live != [] && n <= |stored|
  {
    n == 0 || (CpuRestorableTo(tr, stored, live, pds, n - 1) && CpuSessionRestorable(tr, stored[n - 1], live, pds))
  }

  lemma {:induction false} CpuRestorableAll(tr: seq<CkptResto>, stored: seq<StoredCpu>, live: seq<Cpu>, pds: seq<nat>, n: nat)
    requires live != [] && n <= |stored|
    ensures CpuRestorableTo(tr, stored, live, pds, n) <==> forall i :: 0 <= i < n ==> CpuSessionRestorable(tr, stored[i], live, pds)
  {
    if n > 0 {
      CpuRestorableAll(tr, stored, live, pds, n - 1);
    }
  }

  ghost predicate CpuRestorable(tr: seq<CkptResto>, stored: seq<StoredCpu>, live: seq<Cpu>, pds: seq<nat>) {
    live != [] && CpuRestorableTo(tr, stored, live, pds, |stored|)
  }

  lemma NotCpuRestorable(tr: seq<CkptResto>, stored: seq<StoredCpu>, live: seq<Cpu>, pds: seq<nat>, i: nat)
    requires live != [] && i < |stored| && !CpuSessionRestorable(tr, stored[i], live, pds)
    ensures !CpuRestorable(tr, stored, live, pds)
  {
    CpuRestorableAll(tr, stored, live, pds, |stored|);
  }

  // Folded like Extends.
  ghost predicate RmListFits(stored: seq<StoredRmSession>) {
    forall key: nat {:trigger Unfold(key)} :: Unfold(key) ==> RmAllFit(stored)
  }

  ghost predicate RmAllFit(stored: seq<StoredRmSession>) {
    && Apart(RmParts(stored))
    && (forall i :: 0 <= i < |stored| ==>
          DistinctMaps(stored[i].kids) && stored[i].head.badge !in UnionTo(MapParts(stored[i].kids), |stored[i].kids|))
  }

  lemma OpenRmListFits(stored: seq<StoredRmSession>)
    ensures RmListFits(stored) <==> RmAllFit(stored)
  {
    assert Unfold(0);
  }

  // State of the loop over RM sessions: the first n are bound.  Folded like Extends.
  ghost predicate RmsBound(tr0: seq<CkptResto>, n0: nat, b: Bound, next: nat, stored: seq<StoredRmSession>, made: seq<RmSession>, n: nat)
    requires n <= |stored|
  {
    forall key: nat {:trigger Unfold(key)} :: Unfold(key) ==>
      && Chain(tr0, n0, b.tr, next, RmParts(stored), Nothings(|stored|), n)
      && AllFound(b, RmOf(), stored, made, n) && Made(made, RmKey(), n0, next)
  }

  lemma OpenRmsBound(tr0: seq<CkptResto>, n0: nat, b: Bound, next: nat, stored: seq<StoredRmSession>, made: seq<RmSession>, n: nat)
    requires n <= |stored|
    ensures RmsBound(tr0, n0, b, next, stored, made, n) <==>
      && Chain(tr0, n0, b.tr, next, RmParts(stored), Nothings(|stored|), n)
      && AllFound(b, RmOf(), stored, made, n) && Made(made, RmKey(), n0, next)
  {
    assert Unfold(0);
  }

  lemma NoRmsBound(b: Bound, next: nat, stored: seq<StoredRmSession>)
    ensures RmsBound(b.tr, next, b, next, stored, [], 0)
  {
    ExtendsNothing(b.tr, next);
    OpenAllFound(b, RmOf(), stored, [], 0);
    MadeNone(RmKey(), next);
    OpenRmsBound(b.tr, next, b, next, stored, [], 0);
  }

  lemma RmsBoundNext(tr0: seq<CkptResto>, n0: nat, b: Bound, next: nat, b': Bound, next': nat, stored: seq<StoredRmSession>,
                     made: seq<RmSession>, i: nat, l: RmSession)
    requires RmListFits(stored) && i < |stored| && RmsBound(tr0, n0, b, next, stored, made, i)
    requires Grown(b, b') && RmStands(b', stored[i], l) && next <= l.head.badge < next'
    requires Extends(b.tr, next, b'.tr, next', RmKeys(stored[i]), {})
    ensures RmsBound(tr0, n0, b', next', stored, [l] + made, i + 1)
  {
    OpenRmListFits(stored);
    OpenRmsBound(tr0, n0, b, next, stored, made, i);
    OpenRmsBound(tr0, n0, b', next', stored, [l] + made, i + 1);
    OpenChainable(n0, RmParts(stored), Nothings(|stored|));
    ChainNext(tr0, n0, b.tr, next, b'.tr, next', RmParts(stored), Nothings(|stored|), i);
    RmFoundNext(b, b', stored, made, i, l);
    MadeNext(made, RmKey(), n0, next, l, next');
  }

  lemma AllRmsBound(tr0: seq<CkptResto>, n0: nat, b: Bound, next: nat, stored: seq<StoredRmSession>, made: seq<RmSession>)
    requires RmsBound(tr0, n0, b, next, stored, made, |stored|)
    ensures Chain(tr0, n0, b.tr, next, RmParts(stored), Nothings(|stored|), |stored|)
    ensures AllFound(b, RmOf(), stored, made, |stored|) && DistinctBy(made, RmKey())
  {
    OpenRmsBound(tr0, n0, b, next, stored, made, |stored|);
    MadeDistinct(made, RmKey(), n0, next);
  }

  // The i-th CPU session can be handled as if it were the first.
  lemma CpuTurn(tr0: seq<CkptResto>, n0: nat, tr: seq<CkptResto>, next: nat, stored: seq<StoredCpu>, live: seq<Cpu>, pds: seq<nat>, i: nat)
    requires live != [] && CpuListFits(n0, Keys(tr0), stored, live, pds) && i < |stored|
    requires Chain(tr0, n0, tr, next, CpuParts(stored), CpuOwnParts(live, stored), i)
    ensures CpuFits(live, stored[i]) && CpuKeys(stored[i]) !! Keys(tr) && n0 <= next
    ensures (forall o :: o in CpuOwn(live, stored[i]) ==> o < next) && (forall o :: o in pds ==> o < next && o !in CpuOwn(live, stored[i]))
    ensures CpuParts(stored)[i] == CpuKeys(stored[i]) && CpuOwnParts(live, stored)[i] == CpuOwn(live, stored[i])
    ensures Chainable(n0, CpuParts(stored), CpuOwnParts(live, stored))
  {
    var keys, own := CpuParts(stored), CpuOwnParts(live, stored);
    OpenCpuListFits(n0, Keys(tr0), stored, live, pds);
    ExtendsKeeps(tr0, n0, tr, next, UnionTo(keys, i), UnionTo(own, i));
    KeysLeft(n0, keys, own, Keys(tr0), i);
    OwnBelow(n0, keys, own, i);
    assert own[i] == CpuOwn(live, stored[i]);
    forall o | o in CpuOwn(live, stored[i]) ensures o < next {
      assert o in own[i];
    }
  }

  // The keys of one phase are new to what was translated before the chain and in it.
  lemma {:induction false} KeysLeft(n0: nat, keys: seq<set<nat>>, own: seq<set<nat>>, before: set<nat>, i: nat)
    requires Chainable(n0, keys, own) && i < |keys| && UnionTo(keys, |keys|) !! before
    ensures keys[i] !! before + UnionTo(keys, i) && UnionTo(keys, i) !! before
  {
    OpenChainable(n0, keys, own);
    ApartFromUnion(keys, i, i);
    InUnion(keys, |keys|, i);
    UnionsNest(keys, i, |keys|);
  }

  lemma CpuTurnSame(tr0: seq<CkptResto>, n0: nat, tr: seq<CkptResto>, next: nat, stored: seq<StoredCpu>, live: seq<Cpu>, pds: seq<nat>, i: nat)
    requires live != [] && CpuListFits(n0, Keys(tr0), stored, live, pds) && i < |stored|
    requires Chain(tr0, n0, tr, next, CpuParts(stored), CpuOwnParts(live, stored), i)
    ensures CpuSessionRestorable(tr, stored[i], live, pds) <==> CpuSessionRestorable(tr0, stored[i], live, pds)
  {
    var keys, own := CpuParts(stored), CpuOwnParts(live, stored);
    OpenCpuListFits(n0, Keys(tr0), stored, live, pds);
    KeysLeft(n0, keys, own, Keys(tr0), i);
    NoPdTaken(live, stored, pds, i);
    ThreadsKnownSame(tr0, n0, tr, next, UnionTo(keys, i), UnionTo(own, i), ThreadsFor(live, stored[i]), pds, stored[i].kids);
    OpenCpuSessionRestorable(tr, stored[i], live, pds);
    OpenCpuSessionRestorable(tr0, stored[i], live, pds);
  }

  lemma {:induction false} NoPdTaken(live: seq<Cpu>, stored: seq<StoredCpu>, pds: seq<nat>, i: nat)
    requires live != [] && i <= |stored| && forall o :: o in pds ==> o != live[0].head.badge && o !in ThreadBadges(live[0].kids)
    ensures forall o :: o in pds ==> o !in UnionTo(CpuOwnParts(live, stored), i)
  {
    if i > 0 {
      NoPdTaken(live, stored, pds, i - 1);
    }
  }

  // ---- All phases ----

  // What the fresh child has when the restorer is called, or has afterwards.
  datatype Child = Child(ram: seq<RamSession>, pd: seq<Pd>, cpu: seq<Cpu>, rm: seq<RmSession>)

  datatype StoredChild = StoredChild(ram: seq<StoredRamSession>, pd: seq<StoredPd>, cpu: seq<StoredCpu>, rm: seq<StoredRmSession>)

  function PdBadges(live: seq<Pd>): (r: seq<nat>)
    ensures |r| == |live| && forall i :: 0 <= i < |live| ==> r[i] == live[i].session.head.badge
  {
    seq(|live|, i requires 0 <= i < |live| => live[i].session.head.badge)
  }

  // The stored badges in the order of the phases, and the objects of the child that can stand for them.
  ghost function PhaseKeys(s: StoredChild): seq<set<nat>>
    requires s.ram != [] && s.pd != [] && |s.pd[0].session.kids| == 3
  {
    [UnionTo(RamKeys(s.ram[0]), 2), UnionTo(PdKeys(s.pd[0]), 6), UnionTo(CpuParts(s.cpu), |s.cpu|), UnionTo(RmParts(s.rm), |s.rm|)]
  }

  ghost function PhaseOwn(c: Child, s: StoredChild): seq<set<nat>>
    requires c.ram != [] && c.pd != [] && c.cpu != [] && |c.pd[0].session.kids| == 3
  {
    [UnionTo(RamOwn(c.ram[0]), 2), UnionTo(PdOwn(c.pd[0]), 6), UnionTo(CpuOwnParts(c.cpu, s.cpu), |s.cpu|), {}]
  }

  // A fresh child with one session of each kind; a stored state in which badges are distinct, with at
  // most one bootstrapped session of each kind.
  // Folded like Extends.
  ghost predicate BadgesFit(next: nat, c: Child, s: StoredChild) {
    && |c.ram| == |c.pd| == |c.cpu| == 1 && s.ram != [] && s.pd != [] && ThreeMaps(s.pd[0], c.pd[0])
    && forall key: nat {:trigger Unfold(key)} :: Unfold(key) ==> AllListsFit(next, c, s)
  }

  ghost predicate AllListsFit(next: nat, c: Child, s: StoredChild)
    requires |c.ram| == |c.pd| == |c.cpu| == 1 && s.ram != [] && s.pd != [] && ThreeMaps(s.pd[0], c.pd[0])
  {
    && RamListFits(next, s.ram, c.ram) && PdListFits(next, s.pd, c.pd) && CpuListFits(next, {}, s.cpu, c.cpu, PdBadges(c.pd))
    && RmListFits(s.rm) && Chainable(next, PhaseKeys(s), PhaseOwn(c, s))
  }

  lemma OpenBadgesFit(next: nat, c: Child, s: StoredChild)
    requires BadgesFit(next, c, s)
    ensures AllListsFit(next, c, s)
  {
    assert Unfold(0);
  }

  // Exactly what a restore needs to get through: the RAM and PD session is the bootstrapped one, with at
  // least one bootstrapped dataspace, as many in the child, and the matcher inside its arrays; a signal source
  // in the child and the source of every context translated; every bootstrapped thread has a live one of its
  // name; every other is in that PD session.
  ghost predicate Restorable(v: Variant, c: Child, s: StoredChild)
    requires c.cpu != [] && s.ram != [] && s.pd != []
  {
    && RamRestorable(v, s.ram, c.ram) && PdRestorable(UnionTo(RamKeys(s.ram[0]), 2), s.pd, c.pd)
    && forall i, k :: 0 <= i < |s.cpu| && 0 <= k < |s.cpu[i].kids| ==>
         var t := s.cpu[i].kids[k];
         if t.bootstrapped then NamedThread(ThreadsFor(c.cpu, s.cpu[i]), t.name) else t.pd == s.pd[0].session.head.badge
  }

  lemma RamStandsGrown(b: Bound, b': Bound, s: StoredRamSession, l0: RamSession, l: RamSession)
    requires RamStands(b, s, l0, l) && Grown(b, b')
    ensures RamStands(b', s, l0, l)
  {
    RamDsLasting(s.kids, l0.kids);
    AllFoundGrown(b, b', RamDsOf(s.kids, l0.kids), s.kids, l.kids, l.kids, |s.kids|);
  }

  lemma PdFitsLater(next: nat, next': nat, stored: seq<StoredPd>, live: seq<Pd>)
    requires PdListFits(next, stored, live) && next <= next' && live != []
    ensures PdListFits(next', stored, live)
  {
    forall s | s in stored && s.session.head.bootstrapped ensures PdFits(next', s, live[0]) {
      OpenChainable(next, PdKeys(s), PdOwn(live[0]));
      OpenChainable(next', PdKeys(s), PdOwn(live[0]));
    }
  }

  lemma {:induction false} CpuFitsLater(next: nat, next': nat, keys: set<nat>, stored: seq<StoredCpu>, live: seq<Cpu>, pds: seq<nat>)
    requires live != [] && CpuListFits(next, {}, stored, live, pds) && next <= next' && UnionTo(CpuParts(stored), |stored|) !! keys
    ensures CpuListFits(next', keys, stored, live, pds)
  {
    OpenCpuListFits(next, {}, stored, live, pds);
    OpenCpuListFits(next', keys, stored, live, pds);
    OpenChainable(next, CpuParts(stored), CpuOwnParts(live, stored));
    OpenChainable(next', CpuParts(stored), CpuOwnParts(live, stored));
  }

  // With the PD session translated, the translation of a thread's PD session decides what it should.
  lemma CpuRestorableMeans(tr: seq<CkptResto>, c: Child, s: StoredChild)
    requires Faithful(tr) && |c.pd| == 1 && c.cpu != [] && s.pd != []
    requires CkptResto(s.pd[0].session.head.badge, c.pd[0].session.head.badge) in tr
    ensures CpuRestorable(tr, s.cpu, c.cpu, PdBadges(c.pd)) <==>
      forall i, k :: 0 <= i < |s.cpu| && 0 <= k < |s.cpu[i].kids| ==>
        var t := s.cpu[i].kids[k];
        if t.bootstrapped then NamedThread(ThreadsFor(c.cpu, s.cpu[i]), t.name) else t.pd == s.pd[0].session.head.badge
  {
    var pds, pd := PdBadges(c.pd), s.pd[0].session.head.badge;
    CpuRestorableAll(tr, s.cpu, c.cpu, pds, |s.cpu|);
    forall i | 0 <= i < |s.cpu|
      ensures CpuSessionRestorable(tr, s.cpu[i], c.cpu, pds) <==> forall k :: 0 <= k < |s.cpu[i].kids| ==>
        var t := s.cpu[i].kids[k];
        if t.bootstrapped then NamedThread(ThreadsFor(c.cpu, s.cpu[i]), t.name) else t.pd == pd
    {
      OpenCpuSessionRestorable(tr, s.cpu[i], c.cpu, pds);
      ThreadsKnownIff(tr, ThreadsFor(c.cpu, s.cpu[i]), pds, s.cpu[i].kids, |s.cpu[i].kids|);
      forall k | 0 <= k < |s.cpu[i].kids|
        ensures var t := s.cpu[i].kids[k];
          ThreadKnown(tr, ThreadsFor(c.cpu, s.cpu[i]), pds, t) <==>
            if t.bootstrapped then NamedThread(ThreadsFor(c.cpu, s.cpu[i]), t.name) else t.pd == pd
      {
        OpenThreadKnown(tr, ThreadsFor(c.cpu, s.cpu[i]), pds, s.cpu[i].kids[k]);
        TranslatesTo(tr, s.cpu[i].kids[k].pd, pd, c.pd[0].session.head.badge);
      }
    }
  }

  lemma {:induction false} TranslatesTo(tr: seq<CkptResto>, badge: nat, key: nat, target: nat)
    requires Faithful(tr) && CkptResto(key, target) in tr
    ensures Translate(tr, badge) == Some(target) <==> badge == key
  {
    TranslateIs(tr, badge, target);
    TranslateIs(tr, key, target);
    TranslateIff(tr, badge);
    TranslateIff(tr, key);
    if Translate(tr, badge) == Some(target) {
      TranslateOneToOne(tr, badge, key);
    }
  }

  lemma CpuAllGrown(b: Bound, b': Bound, live: seq<Cpu>, stored: seq<StoredCpu>, made: seq<Cpu>)
    requires live != [] && AllFound(b, CpuOf(live), stored, made, |stored|) && Grown(b, b')
    ensures AllFound(b', CpuOf(live), stored, made, |stored|)
  {
    CpuLasting(live);
    AllFoundGrown(b, b', CpuOf(live), stored, made, made, |stored|);
  }

  // What all recreated objects of a state need, in the order in which they are recreated.
  ghost function StateNeeds(s: StoredChild): seq<Need>
    requires s.ram != [] && s.pd != []
  {
    NeedsTo(s.ram[0].kids, RamDsNeed(), |s.ram[0].kids|) + PdNeeds(s.pd[0])
    + NeedsTo(s.cpu, CpuNeed(), |s.cpu|) + NeedsTo(s.rm, RmNeed(), |s.rm|)
  }

  lemma {:induction false} NeedsHas<S>(stored: seq<S>, one: S -> seq<Need>, n: nat, e: Need)
    requires n <= |stored|
    ensures e in NeedsTo(stored, one, n) <==> exists i :: 0 <= i < n && e in one(stored[i])
  {
    if n > 0 {
      NeedsHas(stored, one, n - 1, e);
    }
  }

  // Exactly the objects that bootstrapping does not make.
  ghost predicate Recreated(s: StoredChild, e: Need)
    requires s.ram != [] && s.pd != []
  {
    || (exists d :: d in s.ram[0].kids && !d.bootstrapped && e == Need(d.kcap, d.badge))
    || (exists x :: x in s.pd[0].sources && !x.bootstrapped && e == Need(x.kcap, x.badge))
    || (exists x :: x in s.pd[0].contexts && e == Need(x.kcap, x.badge))
    || (exists r :: r in s.cpu && !r.head.bootstrapped && e == Need(r.head.kcap, r.head.badge))
    || (exists r, x :: r in s.cpu && x in r.kids && !x.bootstrapped && e == Need(x.kcap, x.badge))
    || (exists r :: r in s.rm && e == Need(r.head.kcap, r.head.badge))
    || (exists r, m :: r in s.rm && m in r.kids && e == Need(m.head.kcap, m.head.badge))
  }

  lemma {:induction false} SlottedAfter(b0: Bound, b1: Bound, b2: Bound, needs: seq<Need>)
    requires b1.caps == b0.caps && Slotted(b1, b2, needs)
    ensures Slotted(b0, b2, needs)
  {
  }

  lemma {:induction false} SlottedBefore(b0: Bound, b1: Bound, b2: Bound, needs: seq<Need>)
    requires Slotted(b0, b1, needs) && b2.caps == b1.caps && Grown(b1, b2)
    ensures Slotted(b0, b2, needs)
  {
    NothingSlotted(b1, b2);
    SlottedThen(b0, b1, b2, needs, []);
    assert needs + [] == needs;
  }

  lemma {:induction false} PdSlotted(b0: Bound, b1: Bound, b2: Bound, b3: Bound, b4: Bound, s: StoredPd)
    requires b1.caps == b0.caps && Slotted(b1, b2, NeedsTo(s.sources, SourceNeed(), |s.sources|))
    requires Slotted(b2, b3, NeedsTo(s.contexts, ContextNeed(), |s.contexts|)) && b4.caps == b3.caps && Grown(b2, b3) && Grown(b3, b4)
    ensures Slotted(b0, b4, PdNeeds(s))
  {
    SlottedAfter(b0, b1, b2, NeedsTo(s.sources, SourceNeed(), |s.sources|));
    SlottedThen(b0, b2, b3, NeedsTo(s.sources, SourceNeed(), |s.sources|), NeedsTo(s.contexts, ContextNeed(), |s.contexts|));
    SlottedBefore(b0, b3, b4, PdNeeds(s));
  }

  lemma {:induction false} HeadSlotted(b0: Bound, b1: Bound, s: StoredSessionHead, target: nat)
    requires b1.caps == (if s.bootstrapped then b0.caps else [CapKcap(s.kcap, target)] + b0.caps) && CkptResto(s.badge, target) in b1.tr
    ensures Slotted(b0, b1, SessionNeed(s))
  {
    if s.bootstrapped {
      NothingSlotted(b0, b1);
    } else {
      OneSlotted(b0, b1, s.kcap, s.badge, target);
    }
  }

  lemma {:induction false} StateSlotted(b0: Bound, b2: Bound, b3: Bound, b4: Bound, s: StoredChild)
    requires s.ram != [] && s.pd != []
    requires Slotted(b0, b2, NeedsTo(s.ram[0].kids, RamDsNeed(), |s.ram[0].kids|) + PdNeeds(s.pd[0]))
    requires Slotted(b2, b3, NeedsTo(s.cpu, CpuNeed(), |s.cpu|)) && Slotted(b3, b4, NeedsTo(s.rm, RmNeed(), |s.rm|))
    requires Grown(b2, b3) && Grown(b3, b4)
    ensures Slotted(b0, b4, StateNeeds(s))
  {
    var first := NeedsTo(s.ram[0].kids, RamDsNeed(), |s.ram[0].kids|) + PdNeeds(s.pd[0]);
    SlottedThen(b0, b2, b3, first, NeedsTo(s.cpu, CpuNeed(), |s.cpu|));
    SlottedThen(b0, b3, b4, first + NeedsTo(s.cpu, CpuNeed(), |s.cpu|), NeedsTo(s.rm, RmNeed(), |s.rm|));
  }

  lemma {:induction false} RamNeedsHas(s: StoredRamSession, e: Need)
    ensures e in NeedsTo(s.kids, RamDsNeed(), |s.kids|) <==> exists d :: d in s.kids && !d.bootstrapped && e == Need(d.kcap, d.badge)
  {
    NeedsHas(s.kids, RamDsNeed(), |s.kids|, e);
    if d :| d in s.kids && !d.bootstrapped && e == Need(d.kcap, d.badge) {
      var i :| 0 <= i < |s.kids| && s.kids[i] == d;
      assert e in RamDsNeed()(s.kids[i]);
    }
  }

  lemma {:induction false} PdNeedsHas(s: StoredPd, e: Need)
    ensures e in PdNeeds(s) <==>
      || (exists x :: x in s.sources && !x.bootstrapped && e == Need(x.kcap, x.badge))
      || (exists x :: x in s.contexts && e == Need(x.kcap, x.badge))
  {
    NeedsHas(s.sources, SourceNeed(), |s.sources|, e);
    NeedsHas(s.contexts, ContextNeed(), |s.contexts|, e);
    if x :| x in s.sources && !x.bootstrapped && e == Need(x.kcap, x.badge) {
      var i :| 0 <= i < |s.sources| && s.sources[i] == x;
      assert e in SourceNeed()(s.sources[i]);
    }
    if x :| x in s.contexts && e == Need(x.kcap, x.badge) {
      var i :| 0 <= i < |s.contexts| && s.contexts[i] == x;
      assert e in ContextNeed()(s.contexts[i]);
    }
  }

  lemma {:induction false} ThreadNeedsHas(s: StoredCpu, e: Need)
    ensures e in CpuNeed()(s) <==>
      (!s.head.bootstrapped && e == Need(s.head.kcap, s.head.badge)) || exists x :: x in s.kids && !x.bootstrapped && e == Need(x.kcap, x.badge)
  {
    NeedsHas(s.kids, ThreadNeed(), |s.kids|, e);
    if x :| x in s.kids && !x.bootstrapped && e == Need(x.kcap, x.badge) {
      var i :| 0 <= i < |s.kids| && s.kids[i] == x;
      assert e in ThreadNeed()(s.kids[i]);
    }
  }

  lemma {:induction false} MapNeedsHas(s: StoredRmSession, e: Need)
    ensures e in RmNeed()(s) <==> e == Need(s.head.kcap, s.head.badge) || exists m :: m in s.kids && e == Need(m.head.kcap, m.head.badge)
  {
    NeedsHas(s.kids, MapNeed(), |s.kids|, e);
    if m :| m in s.kids && e == Need(m.head.kcap, m.head.badge) {
      var i :| 0 <= i < |s.kids| && s.kids[i] == m;
      assert e in MapNeed()(s.kids[i]);
    }
  }

  lemma {:induction false} CpuNeedsHas(cpu: seq<StoredCpu>, e: Need)
    ensures e in NeedsTo(cpu, CpuNeed(), |cpu|) <==>
      || (exists r :: r in cpu && !r.head.bootstrapped && e == Need(r.head.kcap, r.head.badge))
      || (exists r, x :: r in cpu && x in r.kids && !x.bootstrapped && e == Need(x.kcap, x.badge))
  {
    NeedsHas(cpu, CpuNeed(), |cpu|, e);
    forall r | r in cpu ensures e in CpuNeed()(r) ==> e in NeedsTo(cpu, CpuNeed(), |cpu|) {
      var i :| 0 <= i < |cpu| && cpu[i] == r;
    }
    forall r: StoredCpu ensures e in CpuNeed()(r) <==>
      (!r.head.bootstrapped && e == Need(r.head.kcap, r.head.badge)) || exists x :: x in r.kids && !x.bootstrapped && e == Need(x.kcap, x.badge)
    {
      ThreadNeedsHas(r, e);
    }
  }

  lemma {:induction false} RmNeedsHas(rm: seq<StoredRmSession>, e: Need)
    ensures e in NeedsTo(rm, RmNeed(), |rm|) <==>
      || (exists r :: r in rm && e == Need(r.head.kcap, r.head.badge))
      || (exists r, m :: r in rm && m in r.kids && e == Need(m.head.kcap, m.head.badge))
  {
    NeedsHas(rm, RmNeed(), |rm|, e);
    forall r | r in rm ensures e in RmNeed()(r) ==> e in NeedsTo(rm, RmNeed(), |rm|) {
      var i :| 0 <= i < |rm| && rm[i] == r;
    }
    forall r: StoredRmSession ensures e in RmNeed()(r) <==>
      e == Need(r.head.kcap, r.head.badge) || exists m :: m in r.kids && e == Need(m.head.kcap, m.head.badge)
    {
      MapNeedsHas(r, e);
    }
  }

  lemma {:induction false} StateNeedsHas(s: StoredChild, e: Need)
    requires s.ram != [] && s.pd != []
    ensures e in StateNeeds(s) <==> Recreated(s, e)
  {
    RamNeedsHas(s.ram[0], e);
    PdNeedsHas(s.pd[0], e);
    CpuNeedsHas(s.cpu, e);
    RmNeedsHas(s.rm, e);
  }

  // An entry for a need: its selector, and the badge of the object that stands for the record.
  ghost predicate SlotFor(tr: seq<CkptResto>, need: Need, e: CapKcap) {
    e.kcap == need.kcap && Translate(tr, need.badge) == Some(e.badge)
  }

  lemma {:induction false} SlotsInOrder(tr: seq<CkptResto>, caps: seq<CapKcap>, needs: seq<Need>)
    requires Faithful(tr) && SlotsMade(tr, [], caps, needs)
    ensures |caps| == |needs| && forall i :: 0 <= i < |needs| ==> SlotFor(tr, needs[i], caps[|needs| - 1 - i])
    decreases |needs|
  {
    if needs != [] {
      var last := |needs| - 1;
      TranslateIs(tr, needs[last].badge, caps[0].badge);
      SlotsInOrder(tr, caps[1..], needs[..last]);
      forall i | 0 <= i < |needs| ensures SlotFor(tr, needs[i], caps[|needs| - 1 - i]) {
        if i < last {
          assert SlotFor(tr, needs[..last][i], caps[1..][last - 1 - i]);
        }
      }
    }
  }

  // The restorer's list when it has recreated everything: entry by entry, one for each object that bootstrapping does
  // not make, in the order in which they were recreated, the last one in front; and there is nothing else.
  lemma {:induction false} CapabilityListExact(b: Bound, s: StoredChild)
    requires s.ram != [] && s.pd != [] && Faithful(b.tr) && Slotted(Bound([], []), b, StateNeeds(s))
    ensures |b.caps| == |StateNeeds(s)|
    ensures forall i :: 0 <= i < |b.caps| ==> SlotFor(b.tr, StateNeeds(s)[i], b.caps[|b.caps| - 1 - i])
    ensures forall need :: need in StateNeeds(s) <==> Recreated(s, need)
  {
    SlotsInOrder(b.tr, b.caps, StateNeeds(s));
    forall need ensures need in StateNeeds(s) <==> Recreated(s, need) {
      StateNeedsHas(s, need);
    }
  }

  lemma {:induction false} SlotOf(tr: seq<CkptResto>, caps: seq<CapKcap>, needs: seq<Need>, e: CapKcap)
    requires Faithful(tr) && SlotsMade(tr, [], caps, needs)
    ensures e in caps <==> exists need :: need in needs && SlotFor(tr, need, e)
    decreases |needs|
  {
    if needs != [] {
      var last := |needs| - 1;
      TranslateIs(tr, needs[last].badge, caps[0].badge);
      SlotOf(tr, caps[1..], needs[..last], e);
      assert caps == [caps[0]] + caps[1..] && needs == needs[..last] + [needs[last]];
      if e == caps[0] {
        assert needs[last] in needs && SlotFor(tr, needs[last], e);
      }
      if need :| need in needs && SlotFor(tr, need, e) && need !in needs[..last] {
        assert need == needs[last] && e == caps[0];
      }
    }
  }

  // So an entry is in the list if and only if it is one for a recreated object.
  lemma {:induction false} CapabilityListHas(b: Bound, s: StoredChild, e: CapKcap)
    requires s.ram != [] && s.pd != [] && Faithful(b.tr) && Slotted(Bound([], []), b, StateNeeds(s))
    ensures e in b.caps <==> exists need :: Recreated(s, need) && SlotFor(b.tr, need, e)
  {
    var needs := StateNeeds(s);
    SlotOf(b.tr, b.caps, needs, e);
    if e in b.caps {
      var need :| need in needs && SlotFor(b.tr, need, e);
      StateNeedsHas(s, need);
    }
    if need :| Recreated(s, need) && SlotFor(b.tr, need, e) {
      StateNeedsHas(s, need);
    }
  }

  // Everything stored has its object in the restored child.
  ghost predicate Restored(b: Bound, c: Child, s: StoredChild, r: Child)
    requires c.ram != [] && c.pd != [] && c.cpu != [] && s.ram != [] && s.pd != [] && ThreeMaps(s.pd[0], c.pd[0])
  {
    && |s.ram| == |s.pd| == 1 && |r.ram| == |r.pd| == 1
    && RamStands(b, s.ram[0], c.ram[0], r.ram[0]) && PdStands(b, s.pd[0], c.pd[0], r.pd[0])
    && AllFound(b, CpuOf(c.cpu), s.cpu, r.cpu, |s.cpu|) && AllFound(b, RmOf(), s.rm, r.rm, |s.rm|) && DistinctBy(r.rm, RmKey())
  }

  lemma RmListFitsHere(next: nat, c: Child, s: StoredChild)
    requires BadgesFit(next, c, s)
    ensures RmListFits(s.rm)
  {
    OpenBadgesFit(next, c, s);
  }

  // The RAM phase done.
  lemma RamPhaseDone(n0: nat, tr: seq<CkptResto>, next: nat, c: Child, s: StoredChild)
    requires BadgesFit(n0, c, s) && Chain([], n0, tr, next, RamKeys(s.ram[0]), RamOwn(c.ram[0]), 2)
    ensures Chain([], n0, tr, next, PhaseKeys(s), PhaseOwn(c, s), 1) && n0 <= next
    ensures Keys(tr) == UnionTo(RamKeys(s.ram[0]), 2) && PdListFits(next, s.pd, c.pd)
  {
    OpenBadgesFit(n0, c, s);
    ExtendsNothing([], n0);
    ExtendsKeeps([], n0, tr, next, PhaseKeys(s)[0], PhaseOwn(c, s)[0]);
    ChainNext([], n0, [], n0, tr, next, PhaseKeys(s), PhaseOwn(c, s), 0);
    PdFitsLater(n0, next, s.pd, c.pd);
  }

  // The PD phase done: what the CPU phase asks is now decided by the records alone.
  lemma PdPhaseDone(n0: nat, tr: seq<CkptResto>, next: nat, tr': seq<CkptResto>, next': nat, c: Child, s: StoredChild)
    requires BadgesFit(n0, c, s) && n0 <= next && Chain([], n0, tr, next, PhaseKeys(s), PhaseOwn(c, s), 1)
    requires Chain(tr, next, tr', next', PdKeys(s.pd[0]), PdOwn(c.pd[0]), 6)
    ensures Chain([], n0, tr', next', PhaseKeys(s), PhaseOwn(c, s), 2) && n0 <= next'
    ensures CpuListFits(next', Keys(tr'), s.cpu, c.cpu, PdBadges(c.pd)) && Faithful(tr')
  {
    var keys, own := PhaseKeys(s), PhaseOwn(c, s);
    OpenBadgesFit(n0, c, s);
    ExtendsKeeps(tr, next, tr', next', keys[1], own[1]);
    ChainNext([], n0, tr, next, tr', next', keys, own, 1);
    ExtendsNothingIsFaithful(n0, tr', next', UnionTo(keys, 2), UnionTo(own, 2));
    OpenChainable(n0, keys, own);
    ApartFromUnion(keys, 2, 2);
    CpuFitsLater(n0, next', Keys(tr'), s.cpu, c.cpu, PdBadges(c.pd));
  }

  // All phases done.
  lemma LastPhasesDone(n0: nat, tr2: seq<CkptResto>, n2: nat, tr3: seq<CkptResto>, n3: nat, tr4: seq<CkptResto>, n4: nat, c: Child, s: StoredChild)
    requires BadgesFit(n0, c, s) && Chain([], n0, tr2, n2, PhaseKeys(s), PhaseOwn(c, s), 2)
    requires Chain(tr2, n2, tr3, n3, CpuParts(s.cpu), CpuOwnParts(c.cpu, s.cpu), |s.cpu|)
    requires Chain(tr3, n3, tr4, n4, RmParts(s.rm), Nothings(|s.rm|), |s.rm|)
    ensures Faithful(tr4) && Keys(tr4) == UnionTo(PhaseKeys(s), 4)
  {
    var keys, own := PhaseKeys(s), PhaseOwn(c, s);
    OpenBadgesFit(n0, c, s);
    ChainNext([], n0, tr2, n2, tr3, n3, keys, own, 2);
    UnionOfNothings(|s.rm|, |s.rm|);
    ChainNext([], n0, tr3, n3, tr4, n4, keys, own, 3);
    ExtendsNothingIsFaithful(n0, tr4, n4, UnionTo(keys, 4), UnionTo(own, 4));
  }

  lemma RestorableMeans(v: Variant, tr: seq<CkptResto>, c: Child, s: StoredChild)
    requires Faithful(tr) && |c.pd| == 1 && c.cpu != [] && s.ram != [] && s.pd != []
    requires CkptResto(s.pd[0].session.head.badge, c.pd[0].session.head.badge) in tr
    requires RamRestorable(v, s.ram, c.ram) && PdRestorable(UnionTo(RamKeys(s.ram[0]), 2), s.pd, c.pd)
    ensures CpuRestorable(tr, s.cpu, c.cpu, PdBadges(c.pd)) <==> Restorable(v, c, s)
  {
    CpuRestorableMeans(tr, c, s);
  }

  // What one phase has found, the later ones do not lose.
  lemma AllRestored(b1: Bound, b2: Bound, b3: Bound, b4: Bound, c: Child, s: StoredChild, r: Child)
    requires |c.ram| == |c.pd| == |c.cpu| == 1 && |s.ram| == |s.pd| == 1 && ThreeMaps(s.pd[0], c.pd[0]) && |r.ram| == |r.pd| == 1
    requires Grown(b1, b2) && Grown(b2, b3) && Grown(b3, b4)
    requires RamStands(b1, s.ram[0], c.ram[0], r.ram[0]) && PdStands(b2, s.pd[0], c.pd[0], r.pd[0])
    requires AllFound(b3, CpuOf(c.cpu), s.cpu, r.cpu, |s.cpu|) && AllFound(b4, RmOf(), s.rm, r.rm, |s.rm|) && DistinctBy(r.rm, RmKey())
    ensures Restored(b4, c, s, r)
  {
    GrownTwice(b2, b3, b4);
    GrownTwice(b1, b2, b4);
    RamStandsGrown(b1, b4, s.ram[0], c.ram[0], r.ram[0]);
    PdStandsGrown(b2, b4, s.pd[0], c.pd[0], r.pd[0]);
    CpuAllGrown(b3, b4, c.cpu, s.cpu, r.cpu);
  }
}
