// Restoring the state of the nested objects: each loop finds the object of every record through the
// translation and restores the record into it (Restorer::_restore_state_*, src/rtcr/restorer.cc).
module RestoreSessions {
  import opened Folding
  import opened InfoList
  import opened RamIdentify
  import opened StoredState
  import opened Translation
  import opened RestoreState
  import opened MemoryPlan
  import opened RestoreRegions

  // ---- One loop ----

  // The place of the object that _find_child_object returns; None if it throws or returns null.
  function ChildIndex<L>(tr: seq<CkptResto>, badge: nat, live: seq<L>, key: L -> nat): (r: Option<nat>)
    ensures r.Some? ==> r.value < |live| && FindChildObject(tr, badge, live, key) == Some(Some(live[r.value]))
    ensures r.None? ==> FindChildObject(tr, badge, live, key) in {None, Some(None)}
  {
    match Translate(tr, badge)
    case None => None
    case Some(target) => var i := FirstIndex(live, (l: L) => key(l) == target); if i < |live| then Some(i) else None
  }

  // What has become of an object, and what its records want restored.
  datatype Outcome<L> = Outcome(live: L, wants: seq<Want>)

  // The first n records restored, each by step into the object found for it.
  ghost function Walk<S(!new), L(!new)>(tr: seq<CkptResto>, stored: seq<S>, live: seq<L>, skey: S -> nat, key: L -> nat,
                                        step: (S, L) -> Option<Outcome<L>>, n: nat): Option<Outcome<seq<L>>>
    requires n <= |stored|
  {
    if n == 0 then Some(Outcome(live, []))
    else WalkOne(tr, stored[n - 1], skey, key, step, Walk(tr, stored, live, skey, key, step, n - 1))
  }

  ghost function WalkOne<S(!new), L(!new)>(tr: seq<CkptResto>, s: S, skey: S -> nat, key: L -> nat,
                                           step: (S, L) -> Option<Outcome<L>>, before: Option<Outcome<seq<L>>>): Option<Outcome<seq<L>>>
  {
    if before.None? then None
    else match ChildIndex(tr, skey(s), before.value.live, key)
      case None => None
      case Some(i) => Walked(before.value, i, step(s, before.value.live[i]))
  }

  function Walked<L>(before: Outcome<seq<L>>, i: nat, o: Option<Outcome<L>>): Option<Outcome<seq<L>>>
    requires i < |before.live|
  {
    if o.None? then None else Some(Outcome(before.live[i := o.value.live], before.wants + o.value.wants))
  }

  lemma {:induction false} NotWalked<S(!new), L(!new)>(tr: seq<CkptResto>, stored: seq<S>, live: seq<L>, skey: S -> nat, key: L -> nat,
                                                       step: (S, L) -> Option<Outcome<L>>, i: nat, n: nat)
    requires i <= n <= |stored| && Walk(tr, stored, live, skey, key, step, i).None?
    ensures Walk(tr, stored, live, skey, key, step, n).None?
  {
    if i < n {
      NotWalked(tr, stored, live, skey, key, step, i, n - 1);
    }
  }

  // ---- What the loops meet when every record has an object of its own ----

  // The object at k stands for badge.
  ghost predicate StandsAt<L(!new)>(tr: seq<CkptResto>, badge: nat, live: seq<L>, key: L -> nat, k: int) {
    0 <= k < |live| && CkptResto(badge, key(live[k])) in tr
  }

  ghost predicate AllStand<S(!new), L(!new)>(tr: seq<CkptResto>, stored: seq<S>, live: seq<L>, skey: S -> nat, key: L -> nat, at: seq<nat>) {
    && Faithful(tr) && DistinctBy(stored, skey) && DistinctBy(live, key) && |at| == |stored|
    && forall i :: 0 <= i < |stored| ==> StandsAt(tr, skey(stored[i]), live, key, at[i])
  }

  lemma IndexOfStanding<L(!new)>(tr: seq<CkptResto>, badge: nat, live: seq<L>, key: L -> nat, k: nat)
    requires Faithful(tr) && DistinctBy(live, key) && StandsAt(tr, badge, live, key, k)
    ensures ChildIndex(tr, badge, live, key) == Some(k)
  {
    FindsWhatStands(tr, badge, live, key, live[k]);
    assert live[k] in live;
    var i := ChildIndex(tr, badge, live, key);
    assert i.Some? && key(live[i.value]) == key(live[k]);
  }

  ghost predicate KeepsKey<S(!new), L(!new)>(key: L -> nat, step: (S, L) -> Option<Outcome<L>>) {
    forall s, l :: step(s, l).Some? ==> key(step(s, l).value.live) == key(l)
  }

  // Different records have different objects.
  lemma StandApart<S(!new), L(!new)>(tr: seq<CkptResto>, stored: seq<S>, live: seq<L>, skey: S -> nat, key: L -> nat, at: seq<nat>, i: nat, j: nat)
    requires AllStand(tr, stored, live, skey, key, at) && i < |stored| && j < |stored| && i != j
    ensures at[i] != at[j]
  {
    assert skey(stored[i]) != skey(stored[j]);
  }

  // The first n records have gone through.
  ghost predicate WalkedTo<S(!new), L(!new)>(stored: seq<S>, live: seq<L>, key: L -> nat, step: (S, L) -> Option<Outcome<L>>, at: seq<nat>,
                                             n: nat, o: Outcome<seq<L>>)
    requires n <= |stored| == |at| && forall i :: 0 <= i < |at| ==> at[i] < |live|
  {
    && |o.live| == |live| && (forall k :: 0 <= k < |live| ==> key(o.live[k]) == key(live[k]))
    && (forall i :: 0 <= i < n ==> step(stored[i], live[at[i]]).Some? && o.live[at[i]] == step(stored[i], live[at[i]]).value.live)
    && (forall k :: 0 <= k < |live| && (forall i :: 0 <= i < n ==> at[i] != k) ==> o.live[k] == live[k])
    && o.wants == Joined(StepWants(stored, live, step, at), n)
  }

  // What each step wants restored.
  ghost function StepWants<S(!new), L(!new)>(stored: seq<S>, live: seq<L>, step: (S, L) -> Option<Outcome<L>>, at: seq<nat>): (r: seq<seq<Want>>)
    requires |stored| == |at| && forall i :: 0 <= i < |at| ==> at[i] < |live|
    ensures |r| == |stored|
    ensures forall i :: 0 <= i < |r| && step(stored[i], live[at[i]]).Some? ==> r[i] == step(stored[i], live[at[i]]).value.wants
  {
    seq(|stored|, i requires 0 <= i < |stored| =>
      var o := step(stored[i], live[at[i]]); if o.Some? then o.value.wants else [])
  }

  // The loop gets through if and only if every step into the record's own object does; then each of these
  // objects has become what its step makes of it, and no other has changed.
  lemma {:induction false} WalkDone<S(!new), L(!new)>(tr: seq<CkptResto>, stored: seq<S>, live: seq<L>, skey: S -> nat, key: L -> nat,
                                                      step: (S, L) -> Option<Outcome<L>>, at: seq<nat>, n: nat)
    requires n <= |stored| && AllStand(tr, stored, live, skey, key, at) && KeepsKey(key, step)
    ensures Walk(tr, stored, live, skey, key, step, n).Some? <==> forall i :: 0 <= i < n ==> step(stored[i], live[at[i]]).Some?
    ensures Walk(tr, stored, live, skey, key, step, n).Some? ==>
      WalkedTo(stored, live, key, step, at, n, Walk(tr, stored, live, skey, key, step, n).value)
  {
    if n > 0 {
      var before := Walk(tr, stored, live, skey, key, step, n - 1);
      WalkDone(tr, stored, live, skey, key, step, at, n - 1);
      if before.Some? {
        WalkOneDone(tr, stored, live, skey, key, step, at, n, before.value);
      }
    }
  }

  lemma WalkOneDone<S(!new), L(!new)>(tr: seq<CkptResto>, stored: seq<S>, live: seq<L>, skey: S -> nat, key: L -> nat,
                                      step: (S, L) -> Option<Outcome<L>>, at: seq<nat>, n: nat, before: Outcome<seq<L>>)
    requires 0 < n <= |stored| && AllStand(tr, stored, live, skey, key, at) && KeepsKey(key, step)
    requires WalkedTo(stored, live, key, step, at, n - 1, before)
    ensures var o := WalkOne(tr, stored[n - 1], skey, key, step, Some(before));
      && (o.Some? <==> step(stored[n - 1], live[at[n - 1]]).Some?)
      && (o.Some? ==> WalkedTo(stored, live, key, step, at, n, o.value))
  {
    var s, k := stored[n - 1], at[n - 1];
    assert StandsAt(tr, skey(s), live, key, k);
    IndexOfStanding(tr, skey(s), before.live, key, k);
    forall i | 0 <= i < n - 1 ensures at[i] != k {
      StandApart(tr, stored, live, skey, key, at, i, n - 1);
    }
    assert before.live[k] == live[k];
    var o := step(s, live[k]);
    if o.Some? {
      assert Joined(StepWants(stored, live, step, at), n) == before.wants + o.value.wants;
    }
  }

  // ---- Region maps and sessions ----

  // The signal context of a fault handler is looked for in all PD sessions; 0 is no handler.
  ghost predicate SighKnown(tr: seq<CkptResto>, pds: seq<Pd>, sigh: nat) {
    sigh == 0 || (Translate(tr, sigh).Some? && exists p, c :: p in pds && c in p.contexts && c.badge == Translate(tr, sigh).value)
  }

  ghost predicate MapRestorable(tr: seq<CkptResto>, pds: seq<Pd>, s: StoredMap, l: RegionMap) {
    SighKnown(tr, pds, s.head.sigh) && RegionsRestorable(tr, l.kids, s.kids, |s.kids|)
  }

  ghost function RestoredMap(tr: seq<CkptResto>, s: StoredMap, l: RegionMap): RegionMap
    requires s.head.sigh == 0 || Translate(tr, s.head.sigh).Some?
  {
    Node(l.head.(sigh := if s.head.sigh == 0 then l.head.sigh else Translate(tr, s.head.sigh).value),
         Reattached(tr, s.kids, |s.kids|) + l.kids)
  }

  function StoredMapKey(): StoredMap -> nat {
    (s: StoredMap) => s.head.badge
  }

  function StoredRmKey(): StoredRmSession -> nat {
    (s: StoredRmSession) => s.head.badge
  }

  function StoredPdKey(): StoredPd -> nat {
    (s: StoredPd) => s.session.head.badge
  }

  function PdKey(): Pd -> nat {
    (l: Pd) => l.session.head.badge
  }

  ghost function MapStep(tr: seq<CkptResto>, maps: seq<nat>, pds: seq<Pd>): (StoredMap, RegionMap) -> Option<Outcome<RegionMap>> {
    (s: StoredMap, l: RegionMap) =>
      if MapRestorable(tr, pds, s, l) then Some(Outcome(RestoredMap(tr, s, l), Wants(tr, l.kids, s.kids, maps))) else None
  }

  ghost function WalkMaps(tr: seq<CkptResto>, maps: seq<nat>, pds: seq<Pd>, stored: seq<StoredMap>, live: seq<RegionMap>, n: nat)
    : Option<Outcome<seq<RegionMap>>>
    requires n <= |stored|
  {
    Walk(tr, stored, live, StoredMapKey(), MapKey(), MapStep(tr, maps, pds), n)
  }

  ghost function RmStep(tr: seq<CkptResto>, maps: seq<nat>, pds: seq<Pd>): (StoredRmSession, RmSession) -> Option<Outcome<RmSession>> {
    (s: StoredRmSession, l: RmSession) =>
      var o := WalkMaps(tr, maps, pds, s.kids, l.kids, |s.kids|);
      if o.None? then None else Some(Outcome(Node(l.head, o.value.live), o.value.wants))
  }

  ghost function WalkRms(tr: seq<CkptResto>, maps: seq<nat>, pds: seq<Pd>, stored: seq<StoredRmSession>, live: seq<RmSession>, n: nat)
    : Option<Outcome<seq<RmSession>>>
    requires n <= |stored|
  {
    Walk(tr, stored, live, StoredRmKey(), RmKey(), RmStep(tr, maps, pds), n)
  }

  ghost function PdStep(tr: seq<CkptResto>, maps: seq<nat>, pds: seq<Pd>): (StoredPd, Pd) -> Option<Outcome<Pd>> {
    (s: StoredPd, l: Pd) =>
      var o := WalkMaps(tr, maps, pds, s.session.kids, l.session.kids, |s.session.kids|);
      if o.None? then None else Some(Outcome(l.(session := Node(l.session.head, o.value.live)), o.value.wants))
  }

  ghost function WalkPds(tr: seq<CkptResto>, maps: seq<nat>, stored: seq<StoredPd>, live: seq<Pd>, n: nat): Option<Outcome<seq<Pd>>>
    requires n <= |stored|
  {
    Walk(tr, stored, live, StoredPdKey(), PdKey(), PdStep(tr, maps, live), n)
  }

  // ---- RAM sessions ----

  function RamKey(): RamSession -> nat {
    (l: RamSession) => l.head.badge
  }

  // The session is found again, and each of its dataspaces in it.
  ghost predicate RamKnown(tr: seq<CkptResto>, live: seq<RamSession>, s: StoredRamSession) {
    var k := ChildIndex(tr, s.head.badge, live, RamKey());
    k.Some? && forall i :: 0 <= i < |s.kids| ==> RamDsKnown(tr, live[k.value].kids, s.kids[i])
  }

  // The memory to restore after the first n sessions; None if something is not found again.
  ghost function WalkRams(tr: seq<CkptResto>, stored: seq<StoredRamSession>, live: seq<RamSession>, jobs: seq<Job>, n: nat): Option<seq<Job>>
    requires n <= |stored|
  {
    if n == 0 then Some(jobs) else WalkRam(tr, stored[n - 1], live, WalkRams(tr, stored, live, jobs, n - 1))
  }

  ghost function WalkRam(tr: seq<CkptResto>, s: StoredRamSession, live: seq<RamSession>, before: Option<seq<Job>>): Option<seq<Job>> {
    if before.None? || !RamKnown(tr, live, s) then None else Some(RamJobs(tr, s.kids, before.value, |s.kids|))
  }

  lemma {:induction false} RamsNotWalked(tr: seq<CkptResto>, stored: seq<StoredRamSession>, live: seq<RamSession>, jobs: seq<Job>, i: nat, n: nat)
    requires i <= n <= |stored| && WalkRams(tr, stored, live, jobs, i).None?
    ensures WalkRams(tr, stored, live, jobs, n).None?
  {
    if i < n {
      RamsNotWalked(tr, stored, live, jobs, i, n - 1);
    }
  }

  // ---- The dataspaces of region maps ----

  ghost function StoredMapBadges(stored: seq<StoredMap>): set<nat> {
    set m | m in stored :: m.head.dsBadge
  }

  ghost predicate ShowsMap(s: StoredChild, b: nat) {
    || (exists p :: p in s.pd && b in StoredMapBadges(p.session.kids))
    || (exists r :: r in s.rm && b in StoredMapBadges(r.kids))
  }

  ghost predicate AreMaps(maps: seq<nat>, s: StoredChild) {
    forall b :: b in maps <==> ShowsMap(s, b)
  }

  // ---- The memory collected ----

  // A method got through if and only if o says so; then it has made o's objects, and has added the memory that
  // they want restored.  Folded like Extends.
  ghost predicate Collected<L(!new)>(o: Option<Outcome<L>>, jobs: seq<Job>, r: Option<L>, jobs': seq<Job>) {
    forall k: nat {:trigger Unfold(k)} :: Unfold(k) ==> CollectedBy(o, jobs, r, jobs')
  }

  ghost predicate CollectedBy<L(!new)>(o: Option<Outcome<L>>, jobs: seq<Job>, r: Option<L>, jobs': seq<Job>) {
    && (r.Some? <==> o.Some?)
    && (r.Some? ==> r.value == o.value.live && jobs' == RegionJobs(o.value.wants, jobs, |o.value.wants|))
  }

  lemma OpenCollected<L(!new)>(o: Option<Outcome<L>>, jobs: seq<Job>, r: Option<L>, jobs': seq<Job>)
    ensures Collected(o, jobs, r, jobs') <==> CollectedBy(o, jobs, r, jobs')
  {
    assert Unfold(0);
  }

  // State of a loop over records.
  ghost predicate Walking<S(!new), L(!new)>(tr: seq<CkptResto>, stored: seq<S>, live: seq<L>, skey: S -> nat, key: L -> nat,
                                            step: (S, L) -> Option<Outcome<L>>, n: nat, jobs: seq<Job>, now: Option<seq<L>>, jobs': seq<Job>)
    requires n <= |stored|
  {
    Collected(Walk(tr, stored, live, skey, key, step, n), jobs, now, jobs')
  }

  lemma WalkStarts<S(!new), L(!new)>(tr: seq<CkptResto>, stored: seq<S>, live: seq<L>, skey: S -> nat, key: L -> nat,
                                     step: (S, L) -> Option<Outcome<L>>, jobs: seq<Job>)
    ensures Walking(tr, stored, live, skey, key, step, 0, jobs, Some(live), jobs)
  {
  }

  // One turn: the object at k was handled like step.
  lemma WalkGoesOn<S(!new), L(!new)>(tr: seq<CkptResto>, stored: seq<S>, live: seq<L>, skey: S -> nat, key: L -> nat,
                                     step: (S, L) -> Option<Outcome<L>>, n: nat, jobs: seq<Job>, now: seq<L>, jobs': seq<Job>,
                                     k: nat, l: Option<L>, jobs'': seq<Job>)
    requires n < |stored| && Walking(tr, stored, live, skey, key, step, n, jobs, Some(now), jobs')
    requires ChildIndex(tr, skey(stored[n]), now, key) == Some(k) && k < |now| && Collected(step(stored[n], now[k]), jobs', l, jobs'')
    ensures l.Some? ==> Walking(tr, stored, live, skey, key, step, n + 1, jobs, Some(now[k := l.value]), jobs'')
    ensures l.None? ==> Walking(tr, stored, live, skey, key, step, |stored|, jobs, None, jobs'')
  {
    var o, own := Walk(tr, stored, live, skey, key, step, n), step(stored[n], now[k]);
    OpenCollected(o, jobs, Some(now), jobs');
    OpenCollected(own, jobs', l, jobs'');
    if l.Some? {
      RegionJobsThen(o.value.wants, own.value.wants, jobs, |own.value.wants|);
    } else {
      NotWalked(tr, stored, live, skey, key, step, n + 1, |stored|);
    }
  }

  lemma WalkStops<S(!new), L(!new)>(tr: seq<CkptResto>, stored: seq<S>, live: seq<L>, skey: S -> nat, key: L -> nat,
                                    step: (S, L) -> Option<Outcome<L>>, n: nat, jobs: seq<Job>, now: seq<L>, jobs': seq<Job>)
    requires n < |stored| && Walking(tr, stored, live, skey, key, step, n, jobs, Some(now), jobs')
    requires ChildIndex(tr, skey(stored[n]), now, key).None?
    ensures Walking(tr, stored, live, skey, key, step, |stored|, jobs, None, jobs')
  {
    OpenCollected(Walk(tr, stored, live, skey, key, step, n), jobs, Some(now), jobs');
    NotWalked(tr, stored, live, skey, key, step, n + 1, |stored|);
  }

  lemma {:induction false} RegionJobsThen(ws: seq<Want>, ws': seq<Want>, jobs: seq<Job>, n: nat)
    requires n <= |ws'|
    ensures RegionJobs(ws + ws', jobs, |ws| + n) == RegionJobs(ws', RegionJobs(ws, jobs, |ws|), n)
  {
    if n == 0 {
      RegionJobsSame(ws + ws', ws, jobs, |ws|);
    } else {
      RegionJobsThen(ws, ws', jobs, n - 1);
    }
  }

  lemma {:induction false} RegionJobsSame(ws: seq<Want>, ws': seq<Want>, jobs: seq<Job>, n: nat)
    requires n <= |ws| && n <= |ws'| && ws[..n] == ws'[..n]
    ensures RegionJobs(ws, jobs, n) == RegionJobs(ws', jobs, n)
  {
    if n > 0 {
      assert ws[..n - 1] == ws[..n][..n - 1] == ws'[..n - 1] && ws[n - 1] == ws[..n][n - 1];
      RegionJobsSame(ws, ws', jobs, n - 1);
    }
  }

  // RAM, PD and RM sessions one after the other.
  ghost function WalkChild(tr: seq<CkptResto>, maps: seq<nat>, s: StoredChild, live: Child): Option<Outcome<Child>> {
    var pd := WalkPds(tr, maps, s.pd, live.pd, |s.pd|);
    if pd.None? then None else Together(live, pd.value, WalkRms(tr, maps, pd.value.live, s.rm, live.rm, |s.rm|))
  }

  ghost function Together(live: Child, pd: Outcome<seq<Pd>>, rm: Option<Outcome<seq<RmSession>>>): Option<Outcome<Child>> {
    if rm.None? then None else Some(Outcome(live.(pd := pd.live, rm := rm.value.live), pd.wants + rm.value.wants))
  }

  lemma TogetherCollected(live: Child, o: Outcome<seq<Pd>>, o': Option<Outcome<seq<RmSession>>>, jobs1: seq<Job>, jobs2: seq<Job>,
                          rm: Option<seq<RmSession>>, jobs3: seq<Job>)
    requires Collected(Some(o), jobs1, Some(o.live), jobs2) && Collected(o', jobs2, rm, jobs3)
    ensures Collected(Together(live, o, o'), jobs1, if rm.None? then None else Some(live.(pd := o.live, rm := rm.value)), jobs3)
  {
    OpenCollected(Some(o), jobs1, Some(o.live), jobs2);
    OpenCollected(o', jobs2, rm, jobs3);
    if rm.Some? {
      RegionJobsThen(o.wants, o'.value.wants, jobs1, |o'.value.wants|);
    }
  }

  ghost predicate ChildCollected(tr: seq<CkptResto>, maps: seq<nat>, s: StoredChild, live: Child, jobs: seq<Job>,
                                 r: Option<Child>, jobs': seq<Job>)
  {
    var ram := WalkRams(tr, s.ram, live.ram, jobs, |s.ram|);
    if ram.None? then r.None? else Collected(WalkChild(tr, maps, s, live), ram.value, r, jobs')
  }

  // The PD sessions have been handled, and then the RM sessions.
  lemma {:induction false} ChildWalked(tr: seq<CkptResto>, maps: seq<nat>, s: StoredChild, live: Child, jobs: seq<Job>, jobs1: seq<Job>,
                    pd: seq<Pd>, jobs2: seq<Job>, rm: Option<seq<RmSession>>, jobs3: seq<Job>)
    requires WalkRams(tr, s.ram, live.ram, jobs, |s.ram|) == Some(jobs1)
    requires Collected(WalkPds(tr, maps, s.pd, live.pd, |s.pd|), jobs1, Some(pd), jobs2)
    requires Collected(WalkRms(tr, maps, pd, s.rm, live.rm, |s.rm|), jobs2, rm, jobs3)
    ensures ChildCollected(tr, maps, s, live, jobs, if rm.None? then None else Some(live.(pd := pd, rm := rm.value)), jobs3)
  {
    var o := WalkPds(tr, maps, s.pd, live.pd, |s.pd|);
    OpenCollected(o, jobs1, Some(pd), jobs2);
    TogetherCollected(live, o.value, WalkRms(tr, maps, pd, s.rm, live.rm, |s.rm|), jobs1, jobs2, rm, jobs3);
  }

  lemma {:induction false} PdsNotWalked(tr: seq<CkptResto>, maps: seq<nat>, s: StoredChild, live: Child, jobs: seq<Job>, jobs1: seq<Job>, jobs2: seq<Job>)
    requires WalkRams(tr, s.ram, live.ram, jobs, |s.ram|) == Some(jobs1)
    requires Collected(WalkPds(tr, maps, s.pd, live.pd, |s.pd|), jobs1, None, jobs2)
    ensures ChildCollected(tr, maps, s, live, jobs, None, jobs2)
  {
    OpenCollected(WalkPds(tr, maps, s.pd, live.pd, |s.pd|), jobs1, None, jobs2);
  }

  class MemoryCollector {
    var memoryToRestore: seq<Job>

    constructor ()
      ensures memoryToRestore == []
    {
      memoryToRestore := [];
    }

    // False is one of the two exceptions for a dataspace that is not found again.
    method RestoreStateRamDataspaces(tr: seq<CkptResto>, live: seq<RamDs>, stored: seq<StoredRamDs>) returns (ok: bool)
      modifies this
      ensures ok <==> forall i :: 0 <= i < |stored| ==> RamDsKnown(tr, live, stored[i])
      ensures ok ==> memoryToRestore == RamJobs(tr, stored, old(memoryToRestore), |stored|)
    {
      var i := 0;
      while i < |stored|
        invariant 0 <= i <= |stored| && forall j :: 0 <= j < i ==> RamDsKnown(tr, live, stored[j])
        invariant memoryToRestore == RamJobs(tr, stored, old(memoryToRestore), i)
      {
        var found := FindChildObject(tr, stored[i].badge, live, (l: RamDs) => l.badge);
        if found.None? || found.value.None? {
          return false;
        }
        var l := found.value.value;
        memoryToRestore := [Job(l.badge, stored[i].copy, 0, stored[i].size)] + memoryToRestore;
        i := i + 1;
      }
      ok := true;
    }

    // None is an exception or a null pointer dereferenced.
    method RestoreStateAttachedRegions(tr: seq<CkptResto>, regions: seq<Region>, stored: seq<StoredRegion>, maps: seq<nat>)
      returns (r: Option<seq<Region>>)
      modifies this
      ensures r.Some? <==> RegionsRestorable(tr, regions, stored, |stored|)
      ensures r.Some? ==> r.value == Reattached(tr, stored, |stored|) + regions
      ensures r.Some? ==> memoryToRestore == RegionJobs(Wants(tr, regions, stored, maps), old(memoryToRestore), |stored|)
    {
      ghost var ws := Wants(tr, regions, stored, maps);
      assert AreWants(ws, tr, regions, stored, maps);
      r := RestoreRegions(tr, regions, stored, maps, ws);
    }

    method RestoreRegions(tr: seq<CkptResto>, regions: seq<Region>, stored: seq<StoredRegion>, maps: seq<nat>, ghost ws: seq<Want>)
      returns (r: Option<seq<Region>>)
      requires |ws| == |stored| && AreWants(ws, tr, regions, stored, maps)
      modifies this
      ensures r.Some? <==> RegionsRestorable(tr, regions, stored, |stored|)
      ensures r.Some? ==> r.value == Reattached(tr, stored, |stored|) + regions
      ensures r.Some? ==> memoryToRestore == RegionJobs(ws, old(memoryToRestore), |stored|)
    {
      var now := regions;
      ghost var jobs := memoryToRestore;
      var i := 0;
      while i < |stored|
        invariant 0 <= i <= |stored| && RegionsRestorable(tr, regions, stored, i)
        invariant now == Reattached(tr, stored, i) + regions
        invariant memoryToRestore == RegionJobs(ws, jobs, i)
      {
        var next := RestoreRegion(tr, regions, stored, maps, ws, i, now);
        if next.None? {
          NotRestorable(tr, regions, stored, i, |stored|);
          return None;
        }
        now := next.value;
        i := i + 1;
      }
      r := Some(now);
    }

    // One turn of that loop.
    method RestoreRegion(tr: seq<CkptResto>, ghost regions: seq<Region>, stored: seq<StoredRegion>, maps: seq<nat>, ghost ws: seq<Want>,
                         i: nat, now: seq<Region>)
      returns (r: Option<seq<Region>>)
      requires |ws| == |stored| && AreWants(ws, tr, regions, stored, maps) && i < |stored| && now == Reattached(tr, stored, i) + regions
      modifies this
      ensures r.Some? <==> RegionRestorable(tr, regions, stored, i)
      ensures r.Some? ==> r.value == Reattached(tr, stored, i + 1) + regions
      ensures r.Some? ==> memoryToRestore == WithMemory(ws[i], old(memoryToRestore))
    {
      var s := stored[i];
      OpenRegionRestorable(tr, regions, stored, i);
      assert Unfold(0);
      var region := IdentifyOrAttach(tr, now, s);
      if region.None? {
        return None;
      }
      ReattachedNext(tr, regions, stored, i);
      AddMemory(s, region.value.1.dsBadge, maps);
      r := Some(region.value.0);
    }

    // An entry for the copy of s, unless it shows a region map or the copy has one.
    method AddMemory(s: StoredRegion, ds: nat, maps: seq<nat>)
      modifies this
      ensures memoryToRestore == WithMemory(Want(ds, CopyBadge(s), s.size, s.dsBadge in maps), old(memoryToRestore))
    {
      if s.dsBadge !in maps && !HasCopy(memoryToRestore, CopyBadge(s)) {
        memoryToRestore := [Job(ds, CopyBadge(s), 0, s.size)] + memoryToRestore;
      }
    }

    // The attachments after one record, and the one found at its address.
    method IdentifyOrAttach(tr: seq<CkptResto>, now: seq<Region>, s: StoredRegion) returns (r: Option<(seq<Region>, Region)>)
      ensures r.Some? <==> if s.bootstrapped then RegionAt(now, s.relAddr).Some? else Translate(tr, s.dsBadge).Some?
      ensures r.Some? ==>
        && r.value.0 == (if s.bootstrapped then now else [NewRegion(tr, s)] + now)
        && RegionAt(r.value.0, s.relAddr) == Some(r.value.1)
    {
      var now' := now;
      if !s.bootstrapped {
        var target := Translate(tr, s.dsBadge);
        if target.None? {
          return None;
        }
        now' := [Region(target.value, s.size, s.offset, s.relAddr, s.executable, false)] + now;
        FoundInFront(now'[0], now);
      }
      var region := RegionAt(now', s.relAddr);
      match region
      case None => r := None;
      case Some(found) => r := Some((now', found));
    }

    // ---- Fault handlers ----

    // None is the exception for a context without translation, or one that no PD session has.
    method FindContext(tr: seq<CkptResto>, sigh: nat, pds: seq<Pd>) returns (r: Option<Context>)
      requires sigh != 0
      ensures r.Some? <==> SighKnown(tr, pds, sigh)
      ensures r.Some? ==> Translate(tr, sigh) == Some(r.value.badge)
    {
      r := None;
      var i := 0;
      while i < |pds|
        invariant 0 <= i <= |pds| && r.None?
        invariant i > 0 ==> Translate(tr, sigh).Some?
        invariant forall j, c :: 0 <= j < i && c in pds[j].contexts ==> Translate(tr, sigh) != Some(c.badge)
      {
        var found := FindChildObject(tr, sigh, pds[i].contexts, (c: Context) => c.badge);
        if found.None? {
          return None;
        }
        if found.value.Some? {
          assert pds[i] in pds;
          return found.value;
        }
        i := i + 1;
      }
    }

    // ---- Region maps ----

    method RestoreStateRegionMaps(tr: seq<CkptResto>, live: seq<RegionMap>, stored: seq<StoredMap>, maps: seq<nat>, pds: seq<Pd>)
      returns (r: Option<seq<RegionMap>>)
      modifies this
      ensures Walking(tr, stored, live, StoredMapKey(), MapKey(), MapStep(tr, maps, pds), |stored|, old(memoryToRestore), r, memoryToRestore)
    {
      ghost var jobs, step := memoryToRestore, MapStep(tr, maps, pds);
      var now := live;
      WalkStarts(tr, stored, live, StoredMapKey(), MapKey(), step, jobs);
      for i := 0 to |stored|
        invariant Walking(tr, stored, live, StoredMapKey(), MapKey(), step, i, jobs, Some(now), memoryToRestore)
      {
        ghost var before := memoryToRestore;
        var k := ChildIndex(tr, stored[i].head.badge, now, MapKey());
        if k.None? {
          WalkStops(tr, stored, live, StoredMapKey(), MapKey(), step, i, jobs, now, before);
          return None;
        }
        var l := RestoreStateRegionMap(tr, now[k.value], stored[i], maps, pds);
        WalkGoesOn(tr, stored, live, StoredMapKey(), MapKey(), step, i, jobs, now, before, k.value, l, memoryToRestore);
        if l.None? {
          return None;
        }
        now := now[k.value := l.value];
      }
      r := Some(now);
    }

    method RestoreStateRegionMap(tr: seq<CkptResto>, l: RegionMap, s: StoredMap, maps: seq<nat>, pds: seq<Pd>) returns (r: Option<RegionMap>)
      modifies this
      ensures Collected(MapStep(tr, maps, pds)(s, l), old(memoryToRestore), r, memoryToRestore)
    {
      var head := l.head;
      if s.head.sigh != 0 {
        var context := FindContext(tr, s.head.sigh, pds);
        if context.None? {
          return None;
        }
        head := head.(sigh := context.value.badge);
      }
      var regions := RestoreStateAttachedRegions(tr, l.kids, s.kids, maps);
      if regions.None? {
        return None;
      }
      r := Some(Node(head, regions.value));
    }

    // ---- Sessions ----

    method RestoreStateRmSessions(tr: seq<CkptResto>, live: seq<RmSession>, stored: seq<StoredRmSession>, maps: seq<nat>, pds: seq<Pd>)
      returns (r: Option<seq<RmSession>>)
      modifies this
      ensures Walking(tr, stored, live, StoredRmKey(), RmKey(), RmStep(tr, maps, pds), |stored|, old(memoryToRestore), r, memoryToRestore)
    {
      ghost var jobs, step := memoryToRestore, RmStep(tr, maps, pds);
      var now := live;
      WalkStarts(tr, stored, live, StoredRmKey(), RmKey(), step, jobs);
      for i := 0 to |stored|
        invariant Walking(tr, stored, live, StoredRmKey(), RmKey(), step, i, jobs, Some(now), memoryToRestore)
      {
        ghost var before := memoryToRestore;
        var k := ChildIndex(tr, stored[i].head.badge, now, RmKey());
        if k.None? {
          WalkStops(tr, stored, live, StoredRmKey(), RmKey(), step, i, jobs, now, before);
          return None;
        }
        var l := RestoreStateRmSession(tr, now[k.value], stored[i], maps, pds);
        WalkGoesOn(tr, stored, live, StoredRmKey(), RmKey(), step, i, jobs, now, before, k.value, l, memoryToRestore);
        if l.None? {
          return None;
        }
        now := now[k.value := l.value];
      }
      r := Some(now);
    }

    method RestoreStateRmSession(tr: seq<CkptResto>, l: RmSession, s: StoredRmSession, maps: seq<nat>, pds: seq<Pd>) returns (r: Option<RmSession>)
      modifies this
      ensures Collected(RmStep(tr, maps, pds)(s, l), old(memoryToRestore), r, memoryToRestore)
    {
      ghost var jobs, o := memoryToRestore, WalkMaps(tr, maps, pds, s.kids, l.kids, |s.kids|);
      var kids := RestoreStateRegionMaps(tr, l.kids, s.kids, maps, pds);
      OpenCollected(o, jobs, kids, memoryToRestore);
      if kids.None? {
        return None;
      }
      r := Some(Node(l.head, kids.value));
    }

    method RestoreStatePdSessions(tr: seq<CkptResto>, live: seq<Pd>, stored: seq<StoredPd>, maps: seq<nat>)
      returns (r: Option<seq<Pd>>)
      modifies this
      ensures Walking(tr, stored, live, StoredPdKey(), PdKey(), PdStep(tr, maps, live), |stored|, old(memoryToRestore), r, memoryToRestore)
    {
      ghost var jobs, step := memoryToRestore, PdStep(tr, maps, live);
      var now := live;
      WalkStarts(tr, stored, live, StoredPdKey(), PdKey(), step, jobs);
      for i := 0 to |stored|
        invariant Walking(tr, stored, live, StoredPdKey(), PdKey(), step, i, jobs, Some(now), memoryToRestore)
      {
        ghost var before := memoryToRestore;
        var k := ChildIndex(tr, stored[i].session.head.badge, now, PdKey());
        if k.None? {
          WalkStops(tr, stored, live, StoredPdKey(), PdKey(), step, i, jobs, now, before);
          return None;
        }
        var l := RestoreStatePdSession(tr, now[k.value], stored[i], maps, live);
        WalkGoesOn(tr, stored, live, StoredPdKey(), PdKey(), step, i, jobs, now, before, k.value, l, memoryToRestore);
        if l.None? {
          return None;
        }
        now := now[k.value := l.value];
      }
      r := Some(now);
    }

    // The region maps of the session are put into lists of their own, address space first.
    method RestoreStatePdSession(tr: seq<CkptResto>, l: Pd, s: StoredPd, maps: seq<nat>, pds: seq<Pd>) returns (r: Option<Pd>)
      modifies this
      ensures Collected(PdStep(tr, maps, pds)(s, l), old(memoryToRestore), r, memoryToRestore)
    {
      ghost var jobs, o := memoryToRestore, WalkMaps(tr, maps, pds, s.session.kids, l.session.kids, |s.session.kids|);
      var kids := RestoreStateRegionMaps(tr, l.session.kids, s.session.kids, maps, pds);
      OpenCollected(o, jobs, kids, memoryToRestore);
      if kids.None? {
        return None;
      }
      r := Some(l.(session := Node(l.session.head, kids.value)));
    }

    method RestoreStateRamSessions(tr: seq<CkptResto>, live: seq<RamSession>, stored: seq<StoredRamSession>) returns (ok: bool)
      modifies this
      ensures ok <==> WalkRams(tr, stored, live, old(memoryToRestore), |stored|).Some?
      ensures ok ==> WalkRams(tr, stored, live, old(memoryToRestore), |stored|) == Some(memoryToRestore)
    {
      ghost var jobs := memoryToRestore;
      for i := 0 to |stored|
        invariant WalkRams(tr, stored, live, jobs, i) == Some(memoryToRestore)
      {
        ok := RestoreStateRamSession(tr, live, stored[i]);
        if !ok {
          RamsNotWalked(tr, stored, live, jobs, i + 1, |stored|);
          return;
        }
      }
      ok := true;
    }

    method RestoreStateRamSession(tr: seq<CkptResto>, live: seq<RamSession>, s: StoredRamSession) returns (ok: bool)
      modifies this
      ensures ok <==> WalkRam(tr, s, live, Some(old(memoryToRestore))).Some?
      ensures ok ==> WalkRam(tr, s, live, Some(old(memoryToRestore))) == Some(memoryToRestore)
    {
      var k := ChildIndex(tr, s.head.badge, live, RamKey());
      if k.None? {
        return false;
      }
      ok := RestoreStateRamDataspaces(tr, live[k.value].kids, s.kids);
    }

    // ---- All of them ----

    // _create_region_map_dataspaces
    method CreateRegionMapDataspaces(s: StoredChild) returns (maps: seq<nat>)
      ensures AreMaps(maps, s)
    {
      maps := [];
      for i := 0 to |s.pd|
        invariant forall b :: b in maps <==> exists j :: 0 <= j < i && b in StoredMapBadges(s.pd[j].session.kids)
      {
        maps := AddMapDataspaces(maps, s.pd[i].session.kids);
      }
      ghost var pd := maps;
      for i := 0 to |s.rm|
        invariant forall b :: b in maps <==> b in pd || exists j :: 0 <= j < i && b in StoredMapBadges(s.rm[j].kids)
      {
        maps := AddMapDataspaces(maps, s.rm[i].kids);
      }
    }

    method AddMapDataspaces(before: seq<nat>, stored: seq<StoredMap>) returns (maps: seq<nat>)
      ensures forall b :: b in maps <==> b in before || b in StoredMapBadges(stored)
    {
      maps := before;
      for i := 0 to |stored|
        invariant forall b :: b in maps <==> b in before || exists j :: 0 <= j < i && b == stored[j].head.dsBadge
      {
        maps := [stored[i].head.dsBadge] + maps;
      }
    }

    // The objects of the child as they are afterwards; RAM before PD before RM sessions.
    method RestoreState(tr: seq<CkptResto>, live: Child, stored: StoredChild) returns (r: Option<Child>, ghost maps: seq<nat>)
      modifies this
      ensures AreMaps(maps, stored)
      ensures ChildCollected(tr, maps, stored, live, old(memoryToRestore), r, memoryToRestore)
    {
      ghost var jobs := memoryToRestore;
      var known := CreateRegionMapDataspaces(stored);
      maps := known;
      var ram := RestoreStateRamSessions(tr, live.ram, stored.ram);
      if !ram {
        return None, maps;
      }
      ghost var jobs1 := memoryToRestore;
      var pd := RestoreStatePdSessions(tr, live.pd, stored.pd, known);
      ghost var jobs2 := memoryToRestore;
      if pd.None? {
        PdsNotWalked(tr, maps, stored, live, jobs, jobs1, jobs2);
        return None, maps;
      }
      var rm := RestoreStateRmSessions(tr, live.rm, stored.rm, known, pd.value);
      ChildWalked(tr, maps, stored, live, jobs, jobs1, pd.value, jobs2, rm, memoryToRestore);
      r := if rm.None? then None else Some(live.(pd := pd.value, rm := rm.value));
    }
  }
}
