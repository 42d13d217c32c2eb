// What the restorer's second half meets after the first: every lookup finds the object made or identified for
// its record, and every region map of the child gets the stored attachments.
module RestoredState {
  import opened Variants
  import opened Folding
  import opened InfoList
  import opened RamIdentify
  import opened StoredState
  import opened Translation
  import opened RestoreState
  import opened MemoryPlan
  import opened RestoreRegions
  import opened RestoreSessions
  import Restorer

  // ---- RAM sessions ----

  lemma {:induction false} RamFound(next: nat, b: Bound, c: Child, s: StoredChild, r: Child, jobs: seq<Job>)
    requires BadgesFit(next, c, s) && Faithful(b.tr) && Restored(b, c, s, r)
    ensures forall i :: 0 <= i < |s.ram[0].kids| ==> Translate(b.tr, s.ram[0].kids[i].badge).Some?
    ensures WalkRams(b.tr, s.ram, r.ram, jobs, |s.ram|) == Some(RamJobs(b.tr, s.ram[0].kids, jobs, |s.ram[0].kids|))
  {
    var stored, live, own := s.ram[0], r.ram[0], c.ram[0];
    assert DistinctBy(r.ram, RamKey()) && StandsAt(b.tr, stored.head.badge, r.ram, RamKey(), 0);
    IndexOfStanding(b.tr, stored.head.badge, r.ram, RamKey(), 0);
    OpenAllFound(b, RamDsOf(stored.kids, own.kids), stored.kids, live.kids, |stored.kids|);
    forall i | 0 <= i < |stored.kids| ensures RamDsKnown(b.tr, live.kids, stored.kids[i]) {
      assert Found(b, RamDsOf(stored.kids, own.kids), live.kids, stored.kids[i]);
      var l :| l in live.kids && RamDsStands(b, stored.kids, own.kids, stored.kids[i], l);
      TranslateIs(b.tr, stored.kids[i].badge, l.badge);
    }
    var before := WalkRams(b.tr, s.ram, r.ram, jobs, 0);
    assert WalkRams(b.tr, s.ram, r.ram, jobs, 1) == WalkRam(b.tr, stored, r.ram, before);
  }

  // ---- Places of the objects ----

  ghost function Place<L(!new)>(tr: seq<CkptResto>, badge: nat, live: seq<L>, key: L -> nat): nat {
    match ChildIndex(tr, badge, live, key)
    case Some(k) => k
    case None => |live|
  }

  ghost function Places<S(!new), L(!new)>(tr: seq<CkptResto>, stored: seq<S>, live: seq<L>, skey: S -> nat, key: L -> nat): (at: seq<nat>)
    ensures |at| == |stored| && forall i :: 0 <= i < |at| ==> at[i] == Place(tr, skey(stored[i]), live, key)
  {
    seq(|stored|, i requires 0 <= i < |stored| => Place(tr, skey(stored[i]), live, key))
  }

  // The object that stands for a record is where the lookup finds it.
  lemma StandsInPlace<L(!new)>(tr: seq<CkptResto>, badge: nat, live: seq<L>, key: L -> nat, l: L)
    requires Faithful(tr) && DistinctBy(live, key) && l in live && CkptResto(badge, key(l)) in tr
    ensures var k := Place(tr, badge, live, key); StandsAt(tr, badge, live, key, k) && live[k] == l
  {
    var k :| 0 <= k < |live| && live[k] == l;
    IndexOfStanding(tr, badge, live, key, k);
  }

  // ---- Region maps ----

  lemma MapStepKeepsKey(tr: seq<CkptResto>, maps: seq<nat>, pds: seq<Pd>)
    ensures KeepsKey(MapKey(), MapStep(tr, maps, pds))
  {
  }

  lemma RmStepKeepsKey(tr: seq<CkptResto>, maps: seq<nat>, pds: seq<Pd>)
    ensures KeepsKey(RmKey(), RmStep(tr, maps, pds)) && KeepsKey(PdKey(), PdStep(tr, maps, pds))
  {
  }

  // What has become of a list of region maps: each is the stored one, restored into the one at its place.
  ghost predicate MapsRestored(tr: seq<CkptResto>, stored: seq<StoredMap>, live: seq<RegionMap>, at: seq<nat>, live': seq<RegionMap>)
    requires |at| == |stored|
  {
    && |live'| == |live|
    && forall k :: 0 <= k < |stored| ==>
         && at[k] < |live| && (stored[k].head.sigh == 0 || Translate(tr, stored[k].head.sigh).Some?)
         && live'[at[k]] == RestoredMap(tr, stored[k], live[at[k]])
  }

  ghost predicate AllMapsRestorable(tr: seq<CkptResto>, pds: seq<Pd>, stored: seq<StoredMap>, live: seq<RegionMap>, at: seq<nat>)
    requires |at| == |stored| && forall k :: 0 <= k < |stored| ==> at[k] < |live|
  {
    forall k :: 0 <= k < |stored| ==> MapRestorable(tr, pds, stored[k], live[at[k]])
  }

  // What the regions of each map want restored, into maps that had the attachments own.
  ghost function MapWants(tr: seq<CkptResto>, maps: seq<nat>, stored: seq<StoredMap>, own: seq<seq<Region>>): (r: seq<seq<Want>>)
    requires |own| == |stored|
    ensures |r| == |stored| && forall k :: 0 <= k < |r| ==> r[k] == Wants(tr, own[k], stored[k].kids, maps)
  {
    seq(|stored|, k requires 0 <= k < |stored| => Wants(tr, own[k], stored[k].kids, maps))
  }

  ghost function OwnRegions(live: seq<RegionMap>, at: seq<nat>): (r: seq<seq<Region>>)
    requires forall k :: 0 <= k < |at| ==> at[k] < |live|
    ensures |r| == |at| && forall k :: 0 <= k < |r| ==> r[k] == live[at[k]].kids
  {
    seq(|at|, k requires 0 <= k < |at| => live[at[k]].kids)
  }

  // What a step into a region map comes to.
  ghost predicate MapHandled(tr: seq<CkptResto>, maps: seq<nat>, pds: seq<Pd>, s: StoredMap, l: RegionMap, o: Option<Outcome<RegionMap>>) {
    && (o.Some? <==> MapRestorable(tr, pds, s, l))
    && (o.Some? ==> (s.head.sigh == 0 || Translate(tr, s.head.sigh).Some?) && o.value.live == RestoredMap(tr, s, l))
    && (o.Some? ==> o.value.wants == Wants(tr, l.kids, s.kids, maps))
  }

  lemma {:induction false} MapsFromSteps(tr: seq<CkptResto>, maps: seq<nat>, pds: seq<Pd>, stored: seq<StoredMap>, live: seq<RegionMap>, at: seq<nat>,
                      step: (StoredMap, RegionMap) -> Option<Outcome<RegionMap>>, o: Outcome<seq<RegionMap>>)
    requires |at| == |stored|
    requires forall k :: 0 <= k < |stored| ==> at[k] < |live| && MapHandled(tr, maps, pds, stored[k], live[at[k]], step(stored[k], live[at[k]]))
    requires WalkedTo(stored, live, MapKey(), step, at, |stored|, o)
    ensures MapsRestored(tr, stored, live, at, o.live) && o.wants == Joined(MapWants(tr, maps, stored, OwnRegions(live, at)), |stored|)
  {
    assert StepWants(stored, live, step, at) == MapWants(tr, maps, stored, OwnRegions(live, at));
  }

  lemma {:induction false} MapsDone(tr: seq<CkptResto>, maps: seq<nat>, pds: seq<Pd>, stored: seq<StoredMap>, live: seq<RegionMap>, at: seq<nat>)
    requires AllStand(tr, stored, live, StoredMapKey(), MapKey(), at)
    ensures var o := WalkMaps(tr, maps, pds, stored, live, |stored|);
      && (o.Some? <==> AllMapsRestorable(tr, pds, stored, live, at))
      && (o.Some? ==> MapsRestored(tr, stored, live, at, o.value.live))
      && (o.Some? ==> o.value.wants == Joined(MapWants(tr, maps, stored, OwnRegions(live, at)), |stored|))
  {
    var step, o := MapStep(tr, maps, pds), WalkMaps(tr, maps, pds, stored, live, |stored|);
    MapStepKeepsKey(tr, maps, pds);
    WalkDone(tr, stored, live, StoredMapKey(), MapKey(), step, at, |stored|);
    forall k | 0 <= k < |stored| ensures at[k] < |live| && MapHandled(tr, maps, pds, stored[k], live[at[k]], step(stored[k], live[at[k]])) {
      assert StandsAt(tr, stored[k].head.badge, live, MapKey(), at[k]);
    }
    if o.Some? {
      MapsFromSteps(tr, maps, pds, stored, live, at, step, o.value);
    }
  }

  // ---- RM sessions ----

  // A recreated region map starts empty, so it is restorable or not whatever the child is like.
  ghost predicate NewMapRestorable(tr: seq<CkptResto>, pds: seq<Pd>, s: StoredMap) {
    SighKnown(tr, pds, s.head.sigh) && RegionsRestorable(tr, [], s.kids, |s.kids|)
  }

  // It stands for the stored one, and has its size, its fault handler and its attachments.
  ghost predicate NewMapRestored(b: Bound, s: StoredMap, l: RegionMap) {
    && MapStands(b, s, l) && l.head.size == s.head.size
    && (s.head.sigh == 0 || Translate(b.tr, s.head.sigh) == Some(l.head.sigh))
    && l.kids == Reattached(b.tr, s.kids, |s.kids|)
  }

  ghost predicate HasMapRestored(b: Bound, s: StoredMap, live: seq<RegionMap>) {
    exists l :: l in live && NewMapRestored(b, s, l)
  }

  ghost predicate RmRestored(b: Bound, s: StoredRmSession, l: RmSession) {
    Stands(b, s.head.badge, l.head.badge) && forall k :: 0 <= k < |s.kids| ==> HasMapRestored(b, s.kids[k], l.kids)
  }

  ghost predicate HasRmRestored(b: Bound, s: StoredRmSession, live: seq<RmSession>) {
    exists l :: l in live && RmRestored(b, s, l)
  }

  ghost function MapPlaces(tr: seq<CkptResto>, s: StoredRmSession, l: RmSession): (at: seq<nat>)
    ensures |at| == |s.kids|
  {
    Places(tr, s.kids, l.kids, StoredMapKey(), MapKey())
  }

  lemma NewMapsStand(b: Bound, s: StoredRmSession, l: RmSession)
    requires Faithful(b.tr) && RmStands(b, s, l) && DistinctMaps(s.kids)
    ensures AllStand(b.tr, s.kids, l.kids, StoredMapKey(), MapKey(), MapPlaces(b.tr, s, l))
    ensures forall k :: 0 <= k < |s.kids| ==>
      MapPlaces(b.tr, s, l)[k] < |l.kids| && NewMapStands(b, s.kids[k], l.kids[MapPlaces(b.tr, s, l)[k]])
  {
    OpenAllFound(b, NewMapOf(), s.kids, l.kids, |s.kids|);
    forall i, j | 0 <= i < j < |s.kids| ensures StoredMapKey()(s.kids[i]) != StoredMapKey()(s.kids[j]) {
      assert s.kids[i].head.badge in MapParts(s.kids)[i] && s.kids[j].head.badge in MapParts(s.kids)[j];
    }
    forall k | 0 <= k < |s.kids|
      ensures var at := MapPlaces(b.tr, s, l)[k];
        StandsAt(b.tr, s.kids[k].head.badge, l.kids, MapKey(), at) && NewMapStands(b, s.kids[k], l.kids[at])
    {
      assert Found(b, NewMapOf(), l.kids, s.kids[k]);
      var m :| m in l.kids && NewMapStands(b, s.kids[k], m);
      StandsInPlace(b.tr, s.kids[k].head.badge, l.kids, MapKey(), m);
    }
  }

  // Recreated maps have no attachments yet.
  ghost function NoRegions(n: nat): (r: seq<seq<Region>>)
    ensures |r| == n && forall k :: 0 <= k < n ==> r[k] == []
  {
    seq(n, k => [])
  }

  ghost function RmWants(tr: seq<CkptResto>, maps: seq<nat>, s: StoredRmSession): seq<Want> {
    Joined(MapWants(tr, maps, s.kids, NoRegions(|s.kids|)), |s.kids|)
  }

  // The maps found for the records of a session are new ones.
  ghost predicate NewAt(b: Bound, stored: seq<StoredMap>, live: seq<RegionMap>, at: seq<nat>) {
    |at| == |stored| && forall k :: 0 <= k < |stored| ==> at[k] < |live| && NewMapStands(b, stored[k], live[at[k]])
  }

  lemma NewMapsRestored(b: Bound, s: StoredRmSession, l: RmSession, at: seq<nat>, live': seq<RegionMap>)
    requires Stands(b, s.head.badge, l.head.badge)
    requires NewAt(b, s.kids, l.kids, at) && MapsRestored(b.tr, s.kids, l.kids, at, live')
    ensures RmRestored(b, s, Node(l.head, live'))
  {
    forall k | 0 <= k < |s.kids| ensures HasMapRestored(b, s.kids[k], live') {
      assert NewMapStands(b, s.kids[k], l.kids[at[k]]) && live'[at[k]] in live';
      assert NewMapRestored(b, s.kids[k], live'[at[k]]);
    }
  }

  lemma NewMapsRestorable(b: Bound, pds: seq<Pd>, stored: seq<StoredMap>, live: seq<RegionMap>, at: seq<nat>)
    requires NewAt(b, stored, live, at)
    ensures AllMapsRestorable(b.tr, pds, stored, live, at) <==> forall k :: 0 <= k < |stored| ==> NewMapRestorable(b.tr, pds, stored[k])
  {
    forall k | 0 <= k < |stored| ensures MapRestorable(b.tr, pds, stored[k], live[at[k]]) <==> NewMapRestorable(b.tr, pds, stored[k]) {
      assert NewMapStands(b, stored[k], live[at[k]]);
    }
  }

  lemma NoneOwned(b: Bound, stored: seq<StoredMap>, live: seq<RegionMap>, at: seq<nat>)
    requires NewAt(b, stored, live, at)
    ensures OwnRegions(live, at) == NoRegions(|stored|)
  {
    forall k | 0 <= k < |stored| ensures OwnRegions(live, at)[k] == [] {
      assert NewMapStands(b, stored[k], live[at[k]]);
    }
  }

  // What a step into an RM session comes to.
  ghost predicate RmHandled(b: Bound, maps: seq<nat>, pds: seq<Pd>, s: StoredRmSession, o: Option<Outcome<RmSession>>) {
    && (o.Some? <==> RmRestorable(b.tr, pds, s))
    && (o.Some? ==> RmRestored(b, s, o.value.live))
    && (o.Some? ==> o.value.wants == RmWants(b.tr, maps, s))
  }

  lemma RmStepDone(b: Bound, maps: seq<nat>, pds: seq<Pd>, s: StoredRmSession, l: RmSession)
    requires Faithful(b.tr) && RmStands(b, s, l) && DistinctMaps(s.kids)
    ensures RmHandled(b, maps, pds, s, RmStep(b.tr, maps, pds)(s, l))
  {
    var at, o := MapPlaces(b.tr, s, l), WalkMaps(b.tr, maps, pds, s.kids, l.kids, |s.kids|);
    NewMapsStand(b, s, l);
    MapsDone(b.tr, maps, pds, s.kids, l.kids, at);
    NewMapsRestorable(b, pds, s.kids, l.kids, at);
    if o.Some? {
      NewMapsRestored(b, s, l, at, o.value.live);
      NoneOwned(b, s.kids, l.kids, at);
    }
  }

  ghost predicate RmRestorable(tr: seq<CkptResto>, pds: seq<Pd>, s: StoredRmSession) {
    forall k :: 0 <= k < |s.kids| ==> NewMapRestorable(tr, pds, s.kids[k])
  }

  lemma NewRmsStand(b: Bound, stored: seq<StoredRmSession>, live: seq<RmSession>)
    requires Faithful(b.tr) && RmListFits(stored) && AllFound(b, RmOf(), stored, live, |stored|) && DistinctBy(live, RmKey())
    ensures var at := Places(b.tr, stored, live, StoredRmKey(), RmKey());
      && AllStand(b.tr, stored, live, StoredRmKey(), RmKey(), at)
      && forall i :: 0 <= i < |stored| ==> at[i] < |live| && RmStands(b, stored[i], live[at[i]]) && DistinctMaps(stored[i].kids)
  {
    OpenRmListFits(stored);
    OpenAllFound(b, RmOf(), stored, live, |stored|);
    forall i, j | 0 <= i < j < |stored| ensures StoredRmKey()(stored[i]) != StoredRmKey()(stored[j]) {
      assert stored[i].head.badge in RmParts(stored)[i] && stored[j].head.badge in RmParts(stored)[j];
    }
    forall i | 0 <= i < |stored|
      ensures var at := Place(b.tr, stored[i].head.badge, live, RmKey());
        StandsAt(b.tr, stored[i].head.badge, live, RmKey(), at) && RmStands(b, stored[i], live[at])
    {
      assert Found(b, RmOf(), live, stored[i]);
      var l :| l in live && RmStands(b, stored[i], l);
      StandsInPlace(b.tr, stored[i].head.badge, live, RmKey(), l);
    }
  }

  ghost function RmsWants(tr: seq<CkptResto>, maps: seq<nat>, stored: seq<StoredRmSession>): (r: seq<seq<Want>>)
    ensures |r| == |stored| && forall i :: 0 <= i < |r| ==> r[i] == RmWants(tr, maps, stored[i])
  {
    seq(|stored|, i requires 0 <= i < |stored| => RmWants(tr, maps, stored[i]))
  }

  // What the loop over RM sessions comes to.
  ghost predicate RmsHandled(b: Bound, maps: seq<nat>, pds: seq<Pd>, stored: seq<StoredRmSession>, o: Option<Outcome<seq<RmSession>>>) {
    && (o.Some? <==> forall i :: 0 <= i < |stored| ==> RmRestorable(b.tr, pds, stored[i]))
    && (o.Some? ==> forall i :: 0 <= i < |stored| ==> HasRmRestored(b, stored[i], o.value.live))
    && (o.Some? ==> o.value.wants == Joined(RmsWants(b.tr, maps, stored), |stored|))
  }

  lemma {:induction false} RmWantsFromSteps(b: Bound, maps: seq<nat>, pds: seq<Pd>, stored: seq<StoredRmSession>, live: seq<RmSession>, at: seq<nat>,
                                            step: (StoredRmSession, RmSession) -> Option<Outcome<RmSession>>)
    requires |at| == |stored| && forall i :: 0 <= i < |stored| ==> at[i] < |live| && step(stored[i], live[at[i]]).Some?
    requires forall i :: 0 <= i < |stored| ==> RmHandled(b, maps, pds, stored[i], step(stored[i], live[at[i]]))
    ensures StepWants(stored, live, step, at) == RmsWants(b.tr, maps, stored)
  {
  }

  lemma {:induction false} RmsFromSteps(b: Bound, maps: seq<nat>, pds: seq<Pd>, stored: seq<StoredRmSession>, live: seq<RmSession>, at: seq<nat>,
                                        step: (StoredRmSession, RmSession) -> Option<Outcome<RmSession>>, o: Outcome<seq<RmSession>>)
    requires |at| == |stored| && forall i :: 0 <= i < |stored| ==> at[i] < |live| && RmHandled(b, maps, pds, stored[i], step(stored[i], live[at[i]]))
    requires WalkedTo(stored, live, RmKey(), step, at, |stored|, o)
    ensures RmsHandled(b, maps, pds, stored, Some(o))
  {
    forall i | 0 <= i < |stored| ensures HasRmRestored(b, stored[i], o.live) {
      assert o.live[at[i]] in o.live && RmRestored(b, stored[i], o.live[at[i]]);
    }
    RmWantsFromSteps(b, maps, pds, stored, live, at, step);
  }

  lemma RmsDone(b: Bound, maps: seq<nat>, pds: seq<Pd>, stored: seq<StoredRmSession>, live: seq<RmSession>)
    requires Faithful(b.tr) && RmListFits(stored) && AllFound(b, RmOf(), stored, live, |stored|) && DistinctBy(live, RmKey())
    ensures RmsHandled(b, maps, pds, stored, WalkRms(b.tr, maps, pds, stored, live, |stored|))
  {
    var at, step := Places(b.tr, stored, live, StoredRmKey(), RmKey()), RmStep(b.tr, maps, pds);
    NewRmsStand(b, stored, live);
    RmStepKeepsKey(b.tr, maps, pds);
    WalkDone(b.tr, stored, live, StoredRmKey(), RmKey(), step, at, |stored|);
    forall i | 0 <= i < |stored| ensures RmHandled(b, maps, pds, stored[i], step(stored[i], live[at[i]])) {
      RmStepDone(b, maps, pds, stored[i], live[at[i]]);
    }
    var o := WalkRms(b.tr, maps, pds, stored, live, |stored|);
    if o.Some? {
      RmsFromSteps(b, maps, pds, stored, live, at, step, o.value);
    }
  }

  // ---- PD sessions ----

  lemma MapsApart(next: nat, s: StoredPd, l: Pd)
    requires PdFits(next, s, l)
    ensures DistinctBy(s.session.kids, StoredMapKey()) && DistinctBy(l.session.kids, MapKey())
  {
    OpenChainable(next, PdKeys(s), PdOwn(l));
    var sk, lk := s.session.kids, l.session.kids;
    forall i, j | 0 <= i < j < 3 ensures sk[i].head.badge != sk[j].head.badge {
      assert sk[i].head.badge in PdKeys(s)[i + 3] && sk[j].head.badge in PdKeys(s)[j + 3];
    }
    forall i, j | 0 <= i < j < 3 ensures lk[i].head.badge != lk[j].head.badge {
      assert lk[i].head.badge in PdOwn(l)[i + 3] && lk[j].head.badge in PdOwn(l)[j + 3];
    }
  }

  lemma OwnMapsStand(b: Bound, stored: seq<StoredMap>, live: seq<RegionMap>)
    requires Faithful(b.tr) && |stored| == |live| == 3
    requires DistinctBy(stored, StoredMapKey()) && DistinctBy(live, MapKey()) && forall k :: 0 <= k < 3 ==> MapStands(b, stored[k], live[k])
    ensures AllStand(b.tr, stored, live, StoredMapKey(), MapKey(), [0, 1, 2])
  {
    forall k | 0 <= k < 3 ensures StandsAt(b.tr, stored[k].head.badge, live, MapKey(), [0, 1, 2][k]) {
      assert MapStands(b, stored[k], live[k]);
    }
  }

  // What the loop over PD sessions comes to; there is one, with the maps live.
  ghost predicate PdsHandled(tr: seq<CkptResto>, maps: seq<nat>, pds: seq<Pd>, stored: seq<StoredMap>, live: seq<RegionMap>,
                             o: Option<Outcome<seq<Pd>>>)
    requires |stored| == |live|
  {
    && (o.Some? <==> forall k :: 0 <= k < |stored| ==> MapRestorable(tr, pds, stored[k], live[k]))
    && (o.Some? ==> |o.value.live| == |pds| == 1 && o.value.live[0].contexts == pds[0].contexts
                    && OwnMapsRestored(tr, stored, live, o.value.live[0].session.kids))
    && (o.Some? ==> o.value.wants == OwnMapWants(tr, maps, stored, live))
  }

  ghost predicate OwnMapsRestored(tr: seq<CkptResto>, stored: seq<StoredMap>, live: seq<RegionMap>, live': seq<RegionMap>)
    requires |stored| == |live|
  {
    |live'| == |live| && forall k :: 0 <= k < |stored| ==>
      (stored[k].head.sigh == 0 || Translate(tr, stored[k].head.sigh).Some?) && live'[k] == RestoredMap(tr, stored[k], live[k])
  }

  ghost function Kids(live: seq<RegionMap>): (r: seq<seq<Region>>)
    ensures |r| == |live| && forall k :: 0 <= k < |r| ==> r[k] == live[k].kids
  {
    seq(|live|, k requires 0 <= k < |live| => live[k].kids)
  }

  ghost function OwnMapWants(tr: seq<CkptResto>, maps: seq<nat>, stored: seq<StoredMap>, live: seq<RegionMap>): seq<Want>
    requires |stored| == |live|
  {
    Joined(MapWants(tr, maps, stored, Kids(live)), |stored|)
  }

  lemma OwnMapsDone(tr: seq<CkptResto>, maps: seq<nat>, pds: seq<Pd>, stored: seq<StoredMap>, live: seq<RegionMap>)
    requires |stored| == |live| == 3 && AllStand(tr, stored, live, StoredMapKey(), MapKey(), [0, 1, 2])
    ensures var o := WalkMaps(tr, maps, pds, stored, live, |stored|);
      && (o.Some? <==> forall k :: 0 <= k < |stored| ==> MapRestorable(tr, pds, stored[k], live[k]))
      && (o.Some? ==> OwnMapsRestored(tr, stored, live, o.value.live))
      && (o.Some? ==> o.value.wants == OwnMapWants(tr, maps, stored, live))
  {
    var at, o := [0, 1, 2], WalkMaps(tr, maps, pds, stored, live, |stored|);
    MapsDone(tr, maps, pds, stored, live, at);
    assert forall k :: 0 <= k < 3 ==> at[k] == k;
    if o.Some? {
      forall k | 0 <= k < 3 ensures o.value.live[k] == RestoredMap(tr, stored[k], live[k]) {
        assert o.value.live[at[k]] == RestoredMap(tr, stored[k], live[at[k]]);
      }
      assert OwnRegions(live, at) == Kids(live);
    }
  }

  // One record and one session that stands for it.
  lemma OnePdWalked(tr: seq<CkptResto>, maps: seq<nat>, stored: StoredPd, live: Pd)
    requires Faithful(tr) && CkptResto(stored.session.head.badge, live.session.head.badge) in tr
    ensures WalkPds(tr, maps, [stored], [live], 1) == Walked(Outcome([live], []), 0, PdStep(tr, maps, [live])(stored, live))
  {
    var step := PdStep(tr, maps, [live]);
    IndexOfStanding(tr, stored.session.head.badge, [live], PdKey(), 0);
    assert Walk(tr, [stored], [live], StoredPdKey(), PdKey(), step, 1)
        == WalkOne(tr, stored, StoredPdKey(), PdKey(), step, Walk(tr, [stored], [live], StoredPdKey(), PdKey(), step, 0));
  }

  lemma PdsDone(tr: seq<CkptResto>, maps: seq<nat>, stored: StoredPd, live: Pd)
    requires Faithful(tr) && CkptResto(stored.session.head.badge, live.session.head.badge) in tr
    requires |stored.session.kids| == |live.session.kids| == 3
    requires AllStand(tr, stored.session.kids, live.session.kids, StoredMapKey(), MapKey(), [0, 1, 2])
    ensures PdsHandled(tr, maps, [live], stored.session.kids, live.session.kids, WalkPds(tr, maps, [stored], [live], 1))
  {
    OnePdWalked(tr, maps, stored, live);
    OwnMapsDone(tr, maps, [live], stored.session.kids, live.session.kids);
  }

  lemma PdFitsHere(f: Variant, next: nat, c: Child, s: StoredChild)
    requires BadgesFit(next, c, s) && Restorable(f, c, s)
    ensures PdFits(next, s.pd[0], c.pd[0])
  {
    OpenBadgesFit(next, c, s);
    assert s.pd[0] in s.pd;
    assert PdSessionRestorable(UnionTo(RamKeys(s.ram[0]), 2), s.pd[0], c.pd[0]);
  }

  lemma PdSessionsDone(f: Variant, next: nat, b: Bound, maps: seq<nat>, c: Child, s: StoredChild, r: Child)
    requires BadgesFit(next, c, s) && Restorable(f, c, s) && Faithful(b.tr) && Restored(b, c, s, r)
    ensures PdsHandled(b.tr, maps, r.pd, s.pd[0].session.kids, c.pd[0].session.kids, WalkPds(b.tr, maps, s.pd, r.pd, |s.pd|))
  {
    var stored, live := s.pd[0], r.pd[0];
    PdFitsHere(f, next, c, s);
    assert s.pd == [stored] && r.pd == [live];
    MapsApart(next, stored, c.pd[0]);
    OwnMapsStand(b, stored.session.kids, live.session.kids);
    PdsDone(b.tr, maps, stored, live);
  }

  // ---- All of them ----

  // Exactly what the second half needs to get through: every fault handler of a region map is a context of the
  // child, and every attachment can be made or found.
  ghost predicate StateRestorable(tr: seq<CkptResto>, c: Child, s: StoredChild, pds: seq<Pd>)
    requires c.pd != [] && s.pd != [] && ThreeMaps(s.pd[0], c.pd[0])
  {
    && (forall k :: 0 <= k < 3 ==> MapRestorable(tr, pds, s.pd[0].session.kids[k], c.pd[0].session.kids[k]))
    && (forall i :: 0 <= i < |s.rm| ==> RmRestorable(tr, pds, s.rm[i]))
  }

  // Every region map of the child has become the stored one: those of its own PD session and those recreated.
  ghost predicate StateRestored(b: Bound, c: Child, s: StoredChild, r: Child)
    requires c.pd != [] && s.pd != [] && ThreeMaps(s.pd[0], c.pd[0])
  {
    && |r.pd| == 1 && OwnMapsRestored(b.tr, s.pd[0].session.kids, c.pd[0].session.kids, r.pd[0].session.kids)
    && forall i :: 0 <= i < |s.rm| ==> HasRmRestored(b, s.rm[i], r.rm)
  }

  // What the regions of all stored maps want restored, in the order of the loops.
  ghost function StateWants(tr: seq<CkptResto>, maps: seq<nat>, c: Child, s: StoredChild): seq<Want>
    requires c.pd != [] && s.pd != [] && ThreeMaps(s.pd[0], c.pd[0])
  {
    OwnMapWants(tr, maps, s.pd[0].session.kids, c.pd[0].session.kids) + Joined(RmsWants(tr, maps, s.rm), |s.rm|)
  }

  ghost predicate StateHandled(b: Bound, maps: seq<nat>, c: Child, s: StoredChild, made: Child, o: Option<Outcome<Child>>)
    requires c.pd != [] && s.pd != [] && ThreeMaps(s.pd[0], c.pd[0])
  {
    && (o.Some? <==> StateRestorable(b.tr, c, s, made.pd))
    && (o.Some? ==> StateRestored(b, c, s, o.value.live) && o.value.live.ram == made.ram && o.value.wants == StateWants(b.tr, maps, c, s))
  }

  lemma RmRestorableSame(tr: seq<CkptResto>, pds: seq<Pd>, pds': seq<Pd>, s: StoredRmSession)
    requires |pds| == |pds'| == 1 && pds'[0].contexts == pds[0].contexts
    ensures RmRestorable(tr, pds, s) <==> RmRestorable(tr, pds', s)
  {
    forall k | 0 <= k < |s.kids| ensures NewMapRestorable(tr, pds, s.kids[k]) <==> NewMapRestorable(tr, pds', s.kids[k]) {
      assert pds[0] in pds && pds'[0] in pds';
    }
  }

  lemma StateFromParts(b: Bound, maps: seq<nat>, c: Child, s: StoredChild, r: Child, pd: Outcome<seq<Pd>>, rm: Option<Outcome<seq<RmSession>>>)
    requires |c.pd| == |s.pd| == 1 && ThreeMaps(s.pd[0], c.pd[0])
    requires PdsHandled(b.tr, maps, r.pd, s.pd[0].session.kids, c.pd[0].session.kids, Some(pd))
    requires RmsHandled(b, maps, pd.live, s.rm, rm)
    ensures StateHandled(b, maps, c, s, r, Together(r, pd, rm))
  {
    forall i | 0 <= i < |s.rm| ensures RmRestorable(b.tr, r.pd, s.rm[i]) <==> RmRestorable(b.tr, pd.live, s.rm[i]) {
      RmRestorableSame(b.tr, r.pd, pd.live, s.rm[i]);
    }
  }

  // After the first half, every lookup of the second half finds the object made or identified for its record.
  // The second half gets through if and only if the fault handlers and attachments can be restored, and then
  // every region map of the child has become the stored one.
  lemma AfterIdentifyRecreate(f: Variant, next: nat, b: Bound, maps: seq<nat>, c: Child, s: StoredChild, r: Child)
    requires BadgesFit(next, c, s) && Restorable(f, c, s) && Faithful(b.tr) && Restored(b, c, s, r)
    ensures StateHandled(b, maps, c, s, r, WalkChild(b.tr, maps, s, r))
  {
    var pd := WalkPds(b.tr, maps, s.pd, r.pd, |s.pd|);
    PdSessionsDone(f, next, b, maps, c, s, r);
    if pd.Some? {
      RmListFitsHere(next, c, s);
      RmsDone(b, maps, pd.value.live, s.rm, r.rm);
      StateFromParts(b, maps, c, s, r, pd.value, WalkRms(b.tr, maps, pd.value.live, s.rm, r.rm, |s.rm|));
    }
  }

  // The list of memory to restore: all RAM dataspaces, and what the regions of all maps want besides.
  ghost predicate MemoryCollected(tr: seq<CkptResto>, maps: seq<nat>, c: Child, s: StoredChild, jobs: seq<Job>)
    requires c.pd != [] && s.pd != [] && ThreeMaps(s.pd[0], c.pd[0]) && s.ram != []
  {
    && (forall i :: 0 <= i < |s.ram[0].kids| ==> Translate(tr, s.ram[0].kids[i].badge).Some?)
    && var ws := StateWants(tr, maps, c, s); jobs == RegionJobs(ws, RamJobs(tr, s.ram[0].kids, [], |s.ram[0].kids|), |ws|)
  }

  lemma SecondHalfDone(f: Variant, next: nat, b: Bound, maps: seq<nat>, c: Child, s: StoredChild, made: Child, r: Option<Child>, jobs: seq<Job>)
    requires BadgesFit(next, c, s) && Restorable(f, c, s) && Faithful(b.tr) && Restored(b, c, s, made)
    requires ChildCollected(b.tr, maps, s, made, [], r, jobs)
    ensures r.Some? <==> StateRestorable(b.tr, c, s, made.pd)
    ensures r.Some? ==> StateRestored(b, c, s, r.value) && r.value.ram == made.ram && MemoryCollected(b.tr, maps, c, s, jobs)
  {
    RamFound(next, b, c, s, made, []);
    AfterIdentifyRecreate(f, next, b, maps, c, s, made);
    MemoryFrom(b, maps, c, s, made, WalkChild(b.tr, maps, s, made), r, jobs);
  }

  lemma MemoryFrom(b: Bound, maps: seq<nat>, c: Child, s: StoredChild, made: Child, o: Option<Outcome<Child>>, r: Option<Child>, jobs: seq<Job>)
    requires c.pd != [] && s.pd != [] && ThreeMaps(s.pd[0], c.pd[0]) && s.ram != []
    requires forall i :: 0 <= i < |s.ram[0].kids| ==> Translate(b.tr, s.ram[0].kids[i].badge).Some?
    requires StateHandled(b, maps, c, s, made, o) && Collected(o, RamJobs(b.tr, s.ram[0].kids, [], |s.ram[0].kids|), r, jobs)
    ensures r.Some? <==> StateRestorable(b.tr, c, s, made.pd)
    ensures r.Some? ==> StateRestored(b, c, s, r.value) && r.value.ram == made.ram && MemoryCollected(b.tr, maps, c, s, jobs)
  {
    OpenCollected(o, RamJobs(b.tr, s.ram[0].kids, [], |s.ram[0].kids|), r, jobs);
  }

  // How restore() went: with start, whose objects have badges below next, before it, made after the first half and
  // restored after the second one.
  datatype Restoration = Restoration(variant: Variant, next: nat, start: Child, b: Bound, made: Child, maps: seq<nat>,
                                     restored: Child, jobs: seq<Job>)

  // It got through with s.  Folded like Extends.
  ghost predicate ComesTo(o: Restoration, s: StoredChild) {
    BadgesFit(o.next, o.start, s) && forall key: nat {:trigger Unfold(key)} :: Unfold(key) ==> ComesToBy(o, s)
  }

  ghost predicate ComesToBy(o: Restoration, s: StoredChild)
    requires o.start.ram != [] && o.start.pd != [] && o.start.cpu != [] && s.ram != [] && s.pd != [] && ThreeMaps(s.pd[0], o.start.pd[0])
  {
    && Restorable(o.variant, o.start, s) && Faithful(o.b.tr) && Restored(o.b, o.start, s, o.made) && o.restored.ram == o.made.ram
    && AreMaps(o.maps, s) && StateRestorable(o.b.tr, o.start, s, o.made.pd) && StateRestored(o.b, o.start, s, o.restored)
    && MemoryCollected(o.b.tr, o.maps, o.start, s, o.jobs) && Slotted(Bound([], []), o.b, StateNeeds(s))
  }

  lemma OpenComesTo(o: Restoration, s: StoredChild)
    ensures ComesTo(o, s) <==> BadgesFit(o.next, o.start, s) && ComesToBy(o, s)
  {
    assert Unfold(0);
  }

  lemma {:induction false} ComesToIf(o: Restoration, s: StoredChild)
    requires BadgesFit(o.next, o.start, s) && Restorable(o.variant, o.start, s) && Faithful(o.b.tr) && Restored(o.b, o.start, s, o.made)
    requires o.restored.ram == o.made.ram && AreMaps(o.maps, s) && StateRestorable(o.b.tr, o.start, s, o.made.pd)
    requires StateRestored(o.b, o.start, s, o.restored) && MemoryCollected(o.b.tr, o.maps, o.start, s, o.jobs)
    requires Slotted(Bound([], []), o.b, StateNeeds(s))
    ensures ComesTo(o, s)
  {
    OpenComesTo(o, s);
  }

  // Each stored RAM dataspace has its object in the restored child.
  lemma RamStandsIn(o: Restoration, s: StoredChild)
    requires ComesTo(o, s)
    ensures |s.ram| == |s.pd| == 1 && |o.start.ram| == |o.restored.ram| == 1
    ensures AllFound(o.b, RamDsOf(s.ram[0].kids, o.start.ram[0].kids), s.ram[0].kids, o.restored.ram[0].kids, |s.ram[0].kids|)
  {
    OpenComesTo(o, s);
  }

  // Both halves of restore(); made is the child in between.
  method RestoreObjects(restorer: Restorer.Restorer, collector: MemoryCollector, c: Child, s: StoredChild)
    returns (r: Option<Child>, ghost made: Option<Child>, ghost maps: seq<nat>)
    requires restorer.ckptToResto == [] && restorer.capabilityMap == [] && collector.memoryToRestore == [] && BadgesFit(restorer.next, c, s)
    modifies restorer, collector
    ensures made.Some? <==> Restorable(restorer.variant, c, s)
    ensures r.Some? <==> made.Some? && StateRestorable(restorer.ckptToResto, c, s, made.value.pd)
    ensures r.Some? ==> ComesTo(Restoration(restorer.variant, old(restorer.next), c, restorer.Bindings(), made.value, maps, r.value,
                                            collector.memoryToRestore), s)
  {
    ghost var next := restorer.next;
    var child := restorer.IdentifyRecreate(c, s);
    made, maps := child, [];
    if child.None? {
      return None, made, maps;
    }
    ghost var b := restorer.Bindings();
    r, maps := collector.RestoreState(restorer.ckptToResto, child.value, s);
    SecondHalfDone(restorer.variant, next, b, maps, c, s, child.value, r, collector.memoryToRestore);
    if r.Some? {
      ComesToIf(Restoration(restorer.variant, next, c, b, child.value, maps, r.value, collector.memoryToRestore), s);
    }
  }

  // ---- The attachments ----

  // The fresh child has the bootstrapped attachments already, and only those; recreated maps have none.
  ghost predicate FreshAttachments(all: seq<CkptResto>, c: Child, s: StoredChild)
    requires c.pd != [] && s.pd != [] && ThreeMaps(s.pd[0], c.pd[0])
  {
    && (forall k :: 0 <= k < 3 ==> OwnAttachments(all, s.pd[0].session.kids[k].kids, c.pd[0].session.kids[k].kids))
    && (forall i, k :: 0 <= i < |s.rm| && 0 <= k < |s.rm[i].kids| ==> OwnAttachments(all, s.rm[i].kids[k].kids, []))
  }

  // If the stored map has a fault handler, the map has the one that stands for it.
  ghost predicate SameMap(b: Bound, all: seq<CkptResto>, s: StoredMap, l: RegionMap) {
    MapStands(b, s, l) && SameAttachments(all, s.kids, l.kids) && (s.head.sigh != 0 ==> Stands(b, s.head.sigh, l.head.sigh))
  }

  ghost predicate HasSameMap(b: Bound, all: seq<CkptResto>, s: StoredMap, live: seq<RegionMap>) {
    exists m :: m in live && SameMap(b, all, s, m)
  }

  ghost predicate SameMaps(b: Bound, all: seq<CkptResto>, s: StoredRmSession, l: RmSession) {
    Stands(b, s.head.badge, l.head.badge) && forall k :: 0 <= k < |s.kids| ==> HasSameMap(b, all, s.kids[k], l.kids)
  }

  ghost predicate HasSameMaps(b: Bound, all: seq<CkptResto>, s: StoredRmSession, live: seq<RmSession>) {
    exists l :: l in live && SameMaps(b, all, s, l)
  }

  // Then every region map, however the maps are attached to each other, ends with the attachments of the stored
  // one: at the same addresses, with the dataspaces that stand for the stored ones, none missing and none added.
  lemma EveryMapRestored(o: Restoration, all: seq<CkptResto>, s: StoredChild)
    requires ComesTo(o, s) && Extended(o.b.tr, all) && FreshAttachments(all, o.start, s)
    ensures |o.restored.pd| == 1 && |o.restored.pd[0].session.kids| == 3
    ensures forall k :: 0 <= k < 3 ==> SameMap(o.b, all, s.pd[0].session.kids[k], o.restored.pd[0].session.kids[k])
    ensures forall i :: 0 <= i < |s.rm| ==> HasSameMaps(o.b, all, s.rm[i], o.restored.rm)
  {
    OpenComesTo(o, s);
    var b, c, made, r := o.b, o.start, o.made, o.restored;
    forall k | 0 <= k < 3 ensures SameMap(b, all, s.pd[0].session.kids[k], r.pd[0].session.kids[k]) {
      OwnMapSame(b, all, made.pd, s.pd[0].session.kids[k], c.pd[0].session.kids[k]);
    }
    forall i | 0 <= i < |s.rm| ensures HasSameMaps(b, all, s.rm[i], r.rm) {
      var stored := s.rm[i];
      assert HasRmRestored(b, stored, r.rm) && RmRestorable(b.tr, made.pd, stored);
      var l :| l in r.rm && RmRestored(b, stored, l);
      RmAttachments(b, all, made.pd, stored, l);
    }
  }

  lemma {:induction false} OwnMapSame(b: Bound, all: seq<CkptResto>, pds: seq<Pd>, s: StoredMap, l: RegionMap)
    requires Faithful(b.tr) && Extended(b.tr, all) && MapStands(b, s, l) && MapRestorable(b.tr, pds, s, l) && OwnAttachments(all, s.kids, l.kids)
    requires s.head.sigh == 0 || Translate(b.tr, s.head.sigh).Some?
    ensures SameMap(b, all, s, RestoredMap(b.tr, s, l))
    ensures s.head.sigh == 0 ==> RestoredMap(b.tr, s, l).head == l.head
  {
    AttachmentsRestored(b.tr, all, l.kids, s.kids);
    if s.head.sigh != 0 {
      TranslateIs(b.tr, s.head.sigh, Translate(b.tr, s.head.sigh).value);
    }
  }

  lemma {:induction false} RmAttachments(b: Bound, all: seq<CkptResto>, pds: seq<Pd>, s: StoredRmSession, l: RmSession)
    requires RmRestored(b, s, l) && RmRestorable(b.tr, pds, s) && Faithful(b.tr) && Extended(b.tr, all)
    requires forall k :: 0 <= k < |s.kids| ==> OwnAttachments(all, s.kids[k].kids, [])
    ensures SameMaps(b, all, s, l)
  {
    forall k | 0 <= k < |s.kids| ensures HasSameMap(b, all, s.kids[k], l.kids) {
      assert HasMapRestored(b, s.kids[k], l.kids) && NewMapRestorable(b.tr, pds, s.kids[k]);
      var m :| m in l.kids && NewMapRestored(b, s.kids[k], m);
      NewMapSame(b, all, s.kids[k], m);
    }
  }

  lemma {:induction false} NewMapSame(b: Bound, all: seq<CkptResto>, s: StoredMap, m: RegionMap)
    requires NewMapRestored(b, s, m) && RegionsRestorable(b.tr, [], s.kids, |s.kids|) && Faithful(b.tr) && Extended(b.tr, all)
    requires OwnAttachments(all, s.kids, [])
    ensures SameMap(b, all, s, m)
  {
    AttachmentsRestored(b.tr, all, [], s.kids);
    assert Reattached(b.tr, s.kids, |s.kids|) + [] == m.kids;
    if s.head.sigh != 0 {
      TranslateIs(b.tr, s.head.sigh, m.head.sigh);
    }
  }
}
