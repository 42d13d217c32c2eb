// The second half of Restorer::restore up to the copying: finding each stored object again through the
// translation, re-attaching regions and collecting the memory to restore (src/rtcr/restorer.cc).
module RestoreRegions {
  import opened Folding
  import opened InfoList
  import opened CapMap
  import opened RamIdentify
  import opened CopyTable
  import opened StoredState
  import opened Translation
  import opened RestoreState
  import opened MemoryPlan

  // _find_child_object: the outer None is the exception for a badge without a translation.
  function FindChildObject<L>(tr: seq<CkptResto>, badge: nat, live: seq<L>, key: L -> nat): Option<Option<L>> {
    match Translate(tr, badge)
    case None => None
    case Some(target) => Some(Find(live, (l: L) => key(l) == target))
  }

  // It finds exactly the object that stands for the record.
  lemma FindsWhatStands<L(!new)>(tr: seq<CkptResto>, badge: nat, live: seq<L>, key: L -> nat, l: L)
    requires Faithful(tr) && (forall i, j :: 0 <= i < j < |live| ==> key(live[i]) != key(live[j])) && l in live
    ensures FindChildObject(tr, badge, live, key) == Some(Some(l)) <==> CkptResto(badge, key(l)) in tr
  {
    TranslateIs(tr, badge, key(l));
    var found := FindChildObject(tr, badge, live, key);
    if found.Some? && found.value.Some? {
      var m := found.value.value;
      var i :| 0 <= i < |live| && live[i] == l;
      var j :| 0 <= j < |live| && live[j] == m;
      assert key(l) == key(m) ==> i == j;
    }
  }

  // ---- Attachments ----

  // The attachment restored for a region of the stored state.
  function NewRegion(tr: seq<CkptResto>, s: StoredRegion): Region
    requires Translate(tr, s.dsBadge).Some?
  {
    Region(Translate(tr, s.dsBadge).value, s.size, s.offset, s.relAddr, s.executable, false)
  }

  // The attachments made for the first n records, the last one in front.
  function Reattached(tr: seq<CkptResto>, stored: seq<StoredRegion>, n: nat): seq<Region>
    requires n <= |stored|
  {
    if n == 0 then []
    else if stored[n - 1].bootstrapped || Translate(tr, stored[n - 1].dsBadge).None? then Reattached(tr, stored, n - 1)
    else [NewRegion(tr, stored[n - 1])] + Reattached(tr, stored, n - 1)
  }

  ghost predicate InFront(list: seq<Region>, x: Region, y: Region) {
    exists a, b :: 0 <= a < b < |list| && list[a] == x && list[b] == y
  }

  // Of two records that are re-attached, the later one stands in front.
  lemma {:induction false} ReattachedInOrder(tr: seq<CkptResto>, stored: seq<StoredRegion>, i: nat, j: nat, n: nat)
    requires i < j < n <= |stored|
    requires !stored[i].bootstrapped && Translate(tr, stored[i].dsBadge).Some?
    requires !stored[j].bootstrapped && Translate(tr, stored[j].dsBadge).Some?
    ensures InFront(Reattached(tr, stored, n), NewRegion(tr, stored[j]), NewRegion(tr, stored[i]))
  {
    var now, before := Reattached(tr, stored, n), Reattached(tr, stored, n - 1);
    if j == n - 1 {
      var b := IsReattached(tr, stored, i, n - 1);
      assert now[0] == NewRegion(tr, stored[j]) && now[b + 1] == NewRegion(tr, stored[i]);
    } else {
      ReattachedInOrder(tr, stored, i, j, n - 1);
      var a, b :| 0 <= a < b < |before| && before[a] == NewRegion(tr, stored[j]) && before[b] == NewRegion(tr, stored[i]);
      var k := |now| - |before|;
      assert now[a + k] == before[a] && now[b + k] == before[b];
    }
  }

  lemma {:induction false} IsReattached(tr: seq<CkptResto>, stored: seq<StoredRegion>, i: nat, n: nat) returns (b: nat)
    requires i < n <= |stored| && !stored[i].bootstrapped && Translate(tr, stored[i].dsBadge).Some?
    ensures b < |Reattached(tr, stored, n)| && Reattached(tr, stored, n)[b] == NewRegion(tr, stored[i])
  {
    b := 0;
    if i < n - 1 {
      b := IsReattached(tr, stored, i, n - 1);
      b := b + |Reattached(tr, stored, n)| - |Reattached(tr, stored, n - 1)|;
    }
  }

  // find_by_addr of the child's list
  function RegionAt(regions: seq<Region>, addr: nat): Option<Region> {
    Find(regions, (r: Region) => Covers(r.relAddr, r.size, addr))
  }

  // A bootstrapped region must be found in the child, for any other the dataspace must be translated:
  // a dataspace of unknown origin makes the original dereference a null pointer.
  // The quantifier keeps this folded; OpenRegionRestorable unfolds it.
  ghost predicate RegionRestorable(tr: seq<CkptResto>, regions: seq<Region>, stored: seq<StoredRegion>, i: nat)
    requires i < |stored|
  {
    forall key: nat {:trigger Unfold(key)} :: Unfold(key) ==>
      if stored[i].bootstrapped then RegionAt(Reattached(tr, stored, i) + regions, stored[i].relAddr).Some?
      else Translate(tr, stored[i].dsBadge).Some?
  }

  lemma {:induction false} OpenRegionRestorable(tr: seq<CkptResto>, regions: seq<Region>, stored: seq<StoredRegion>, i: nat)
    requires i < |stored|
    ensures RegionRestorable(tr, regions, stored, i) <==>
      if stored[i].bootstrapped then RegionAt(Reattached(tr, stored, i) + regions, stored[i].relAddr).Some?
      else Translate(tr, stored[i].dsBadge).Some?
  {
    assert Unfold(0);
  }

  ghost predicate RegionsRestorable(tr: seq<CkptResto>, regions: seq<Region>, stored: seq<StoredRegion>, n: nat)
    requires n <= |stored|
  {
    n == 0 || (RegionsRestorable(tr, regions, stored, n - 1) && RegionRestorable(tr, regions, stored, n - 1))
  }

  lemma {:induction false} RegionsRestorableIff(tr: seq<CkptResto>, regions: seq<Region>, stored: seq<StoredRegion>, n: nat)
    requires n <= |stored|
    ensures RegionsRestorable(tr, regions, stored, n) <==> forall i :: 0 <= i < n ==> RegionRestorable(tr, regions, stored, i)
  {
    if n > 0 {
      RegionsRestorableIff(tr, regions, stored, n - 1);
    }
  }

  lemma {:induction false} NotRestorable(tr: seq<CkptResto>, regions: seq<Region>, stored: seq<StoredRegion>, i: nat, n: nat)
    requires i < n <= |stored| && !RegionRestorable(tr, regions, stored, i)
    ensures !RegionsRestorable(tr, regions, stored, n)
  {
    if i < n - 1 {
      NotRestorable(tr, regions, stored, i, n - 1);
    }
  }

  // ---- Memory to restore ----

  function CopyBadge(s: StoredRegion): nat {
    if s.copy.Some? then s.copy.value else 0
  }

  function HasCopy(jobs: seq<Job>, copy: nat): bool {
    exists j :: j in jobs && j.copy == copy
  }

  // The dataspace found attached for the i-th record when it has been handled.
  function AttachedDs(tr: seq<CkptResto>, regions: seq<Region>, stored: seq<StoredRegion>, i: nat): nat
    requires i < |stored|
  {
    match RegionAt(Reattached(tr, stored, i + 1) + regions, stored[i].relAddr)
    case Some(r) => r.dsBadge
    case None => 0
  }

  // What a record asks for: the content of copy back into ds, unless it shows a region map.
  datatype Want = Want(ds: nat, copy: nat, size: nat, isMap: bool)

  function Wants(tr: seq<CkptResto>, regions: seq<Region>, stored: seq<StoredRegion>, maps: seq<nat>): (ws: seq<Want>)
    ensures |ws| == |stored| && forall i :: 0 <= i < |ws| ==>
      ws[i] == Want(AttachedDs(tr, regions, stored, i), CopyBadge(stored[i]), stored[i].size, stored[i].dsBadge in maps)
  {
    seq(|stored|, i requires 0 <= i < |stored| =>
      Want(AttachedDs(tr, regions, stored, i), CopyBadge(stored[i]), stored[i].size, stored[i].dsBadge in maps))
  }

  ghost predicate AreWants(ws: seq<Want>, tr: seq<CkptResto>, regions: seq<Region>, stored: seq<StoredRegion>, maps: seq<nat>) {
    forall key: nat {:trigger Unfold(key)} :: Unfold(key) ==> ws == Wants(tr, regions, stored, maps)
  }

  // The memory to restore after the first n records: one entry for every copy.
  function RegionJobs(ws: seq<Want>, jobs: seq<Job>, n: nat): seq<Job>
    requires n <= |ws|
  {
    if n == 0 then jobs else WithMemory(ws[n - 1], RegionJobs(ws, jobs, n - 1))
  }

  function WithMemory(w: Want, jobs: seq<Job>): seq<Job> {
    if w.isMap || HasCopy(jobs, w.copy) then jobs else [Job(w.ds, w.copy, 0, w.size)] + jobs
  }

  lemma ReattachedNext(tr: seq<CkptResto>, regions: seq<Region>, stored: seq<StoredRegion>, i: nat)
    requires i < |stored| && (stored[i].bootstrapped || Translate(tr, stored[i].dsBadge).Some?)
    ensures Reattached(tr, stored, i + 1) + regions ==
      if stored[i].bootstrapped then Reattached(tr, stored, i) + regions else [NewRegion(tr, stored[i])] + (Reattached(tr, stored, i) + regions)
  {
  }

  // One entry for every RAM dataspace.
  function RamJobs(tr: seq<CkptResto>, stored: seq<StoredRamDs>, jobs: seq<Job>, n: nat): seq<Job>
    requires n <= |stored| && forall i :: 0 <= i < n ==> Translate(tr, stored[i].badge).Some?
  {
    if n == 0 then jobs
    else
      var s := stored[n - 1];
      [Job(Translate(tr, s.badge).value, s.copy, 0, s.size)] + RamJobs(tr, stored, jobs, n - 1)
  }

  // What has just been attached is what the lookup finds, whatever else ends there.
  lemma FoundInFront(r: Region, regions: seq<Region>)
    ensures RegionAt([r] + regions, r.relAddr) == Some(r)
  {
    assert Covers(r.relAddr, r.size, r.relAddr);
  }

  predicate RamDsKnown(tr: seq<CkptResto>, live: seq<RamDs>, s: StoredRamDs) {
    Translate(tr, s.badge).Some? && exists l :: l in live && l.badge == Translate(tr, s.badge).value
  }

  // ---- What the restored attachments are ----

  // The same attachment, with the dataspace renamed.
  ghost predicate Renames(tr: seq<CkptResto>, s: StoredRegion, r: Region) {
    && Translate(tr, s.dsBadge) == Some(r.dsBadge)
    && r.size == s.size && r.offset == s.offset && r.relAddr == s.relAddr && r.executable == s.executable
  }

  ghost predicate HasRenamed(tr: seq<CkptResto>, s: StoredRegion, regions: seq<Region>) {
    exists r :: r in regions && Renames(tr, s, r)
  }

  ghost predicate IsRenamed(tr: seq<CkptResto>, stored: seq<StoredRegion>, bootstrapped: bool, r: Region) {
    exists s :: s in stored && (bootstrapped ==> s.bootstrapped) && Renames(tr, s, r)
  }

  lemma {:induction false} ReattachedRename(tr: seq<CkptResto>, regions: seq<Region>, stored: seq<StoredRegion>, n: nat)
    requires n <= |stored| && RegionsRestorable(tr, regions, stored, n)
    ensures forall i :: 0 <= i < n && !stored[i].bootstrapped ==> HasRenamed(tr, stored[i], Reattached(tr, stored, n))
    ensures forall r :: r in Reattached(tr, stored, n) ==> IsRenamed(tr, stored, false, r)
  {
    if n > 0 {
      ReattachedRename(tr, regions, stored, n - 1);
      OpenRegionRestorable(tr, regions, stored, n - 1);
      var s, before := stored[n - 1], Reattached(tr, stored, n - 1);
      forall i | 0 <= i < n && !stored[i].bootstrapped ensures HasRenamed(tr, stored[i], Reattached(tr, stored, n)) {
        if i == n - 1 {
          assert Renames(tr, s, NewRegion(tr, s)) && NewRegion(tr, s) in Reattached(tr, stored, n);
        } else {
          assert HasRenamed(tr, stored[i], before);
          var r :| r in before && Renames(tr, stored[i], r);
          assert r in Reattached(tr, stored, n);
        }
      }
      forall r | r in Reattached(tr, stored, n) ensures IsRenamed(tr, stored, false, r) {
        if r !in before {
          assert s in stored && Renames(tr, s, r);
        }
      }
    }
  }

  // The translation may be extended by pairs for dataspaces of unknown origin.
  ghost predicate Extended(tr: seq<CkptResto>, all: seq<CkptResto>) {
    Faithful(all) && forall e :: e in tr ==> e in all
  }

  lemma {:induction false} ExtendedTranslates(tr: seq<CkptResto>, all: seq<CkptResto>, badge: nat)
    requires Extended(tr, all) && Translate(tr, badge).Some?
    ensures Translate(all, badge) == Translate(tr, badge)
  {
    TranslateIff(tr, badge);
    TranslateIs(all, badge, Translate(tr, badge).value);
  }

  // The child's own attachments are the bootstrapped ones, renamed.
  ghost predicate OwnAttachments(all: seq<CkptResto>, stored: seq<StoredRegion>, regions: seq<Region>) {
    && (forall s :: s in stored && s.bootstrapped ==> HasRenamed(all, s, regions))
    && (forall r :: r in regions ==> IsRenamed(all, stored, true, r))
  }

  // All attachments are the stored ones, renamed: none is missing and none is added.
  ghost predicate SameAttachments(all: seq<CkptResto>, stored: seq<StoredRegion>, regions: seq<Region>) {
    && (forall s :: s in stored ==> HasRenamed(all, s, regions))
    && (forall r :: r in regions ==> IsRenamed(all, stored, false, r))
  }

  lemma {:induction false} AttachmentsRestored(tr: seq<CkptResto>, all: seq<CkptResto>, regions: seq<Region>, stored: seq<StoredRegion>)
    requires RegionsRestorable(tr, regions, stored, |stored|) && Extended(tr, all) && OwnAttachments(all, stored, regions)
    ensures SameAttachments(all, stored, Reattached(tr, stored, |stored|) + regions)
  {
    var added := Reattached(tr, stored, |stored|);
    ReattachedRename(tr, regions, stored, |stored|);
    forall s | s in stored ensures HasRenamed(all, s, added + regions) {
      if s.bootstrapped {
        assert HasRenamed(all, s, regions);
        var r :| r in regions && Renames(all, s, r);
        assert r in added + regions;
      } else {
        var i :| 0 <= i < |stored| && stored[i] == s;
        assert HasRenamed(tr, stored[i], added);
        var r :| r in added && Renames(tr, s, r);
        ExtendedTranslates(tr, all, s.dsBadge);
        assert r in added + regions && Renames(all, s, r);
      }
    }
    forall r | r in added + regions ensures IsRenamed(all, stored, false, r) {
      if r in regions {
        assert IsRenamed(all, stored, true, r);
      } else {
        assert IsRenamed(tr, stored, false, r);
        var s :| s in stored && Renames(tr, s, r);
        ExtendedTranslates(tr, all, s.dsBadge);
        assert Renames(all, s, r);
      }
    }
  }
}
