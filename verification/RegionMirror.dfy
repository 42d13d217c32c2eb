// Region_map_component: the monitor of a region map records every attachment that it forwards to
// the real region map (src/rtcr/intercept/region_map_component.cc).
module RegionMirror {
  import opened InfoList
  import opened Tiles
  import opened CapMap
  import opened StoredState
  import opened StoredRegions
  import opened Folding

  predicate Inside(r: Region, addr: nat) {
    r.relAddr <= addr < r.relAddr + r.size
  }

  // What the real region map does: the region at the address goes, wherever in it the address lies.
  ghost function RealDetach(mapped: set<Region>, addr: nat): set<Region> {
    set r | r in mapped && !Inside(r, addr)
  }

  // find_by_addr also accepts the end of a region.
  function FindRegion(list: seq<Region>, addr: nat): nat {
    FirstIndex(list, (r: Region) => Covers(r.relAddr, r.size, addr))
  }

  function MirrorDetach(list: seq<Region>, addr: nat): seq<Region> {
    var k := FindRegion(list, addr);
    if k < |list| then RemoveAt(list, k) else list
  }

  // The records are the attachments.
  ghost predicate ListMirrors(list: seq<Region>, mapped: set<Region>) {
    Separate(list) && forall r :: r in list <==> r in mapped
  }

  // A region that ends where addr points to is in front of the one addr lies in, if there is one.
  ghost predicate EndsAhead(list: seq<Region>, addr: nat) {
    exists i :: 0 <= i < |list| && list[i].relAddr + list[i].size == addr && forall j :: 0 <= j < i ==> !Inside(list[j], addr)
  }

  lemma RemoveAtMembers(list: seq<Region>, k: nat, r: Region)
    requires Separate(list) && k < |list|
    ensures r in RemoveAt(list, k) <==> r in list && r != list[k]
  {
    var l := RemoveAt(list, k);
    if r in list && r != list[k] {
      var i :| 0 <= i < |list| && list[i] == r;
      assert l[if i < k then i else i - 1] == r;
    }
    if r in l {
      var i :| 0 <= i < |l| && l[i] == r;
      assert list[if i < k then i else i + 1] == r;
    }
  }

  lemma RemoveAtSeparate(list: seq<Region>, k: nat)
    requires Separate(list) && k < |list|
    ensures Separate(RemoveAt(list, k))
  {
    var l := RemoveAt(list, k);
    forall i | 0 <= i < |l| ensures l[i] == list[if i < k then i else i + 1] {
    }
  }

  // A detach keeps the records equal to the attachments exactly if no region that ends at the
  // address is in front of the one that contains it.
  lemma DetachMirrorsIff(list: seq<Region>, mapped: set<Region>, addr: nat)
    requires ListMirrors(list, mapped)
    ensures ListMirrors(MirrorDetach(list, addr), RealDetach(mapped, addr)) <==> !EndsAhead(list, addr)
  {
    var k := FindRegion(list, addr);
    var list', mapped' := MirrorDetach(list, addr), RealDetach(mapped, addr);
    if EndsAhead(list, addr) {
      var i :| 0 <= i < |list| && list[i].relAddr + list[i].size == addr && forall j :: 0 <= j < i ==> !Inside(list[j], addr);
      WrongOneGoes(list, mapped, addr, k, i);
    } else if k == |list| {
      assert mapped' == mapped;
    } else {
      RightOneGoes(list, addr, k);
      RemoveAtSeparate(list, k);
      forall r ensures r in list' <==> r in mapped' {
        RemoveAtMembers(list, k, r);
      }
    }
  }

  lemma WrongOneGoes(list: seq<Region>, mapped: set<Region>, addr: nat, k: nat, i: nat)
    requires ListMirrors(list, mapped) && k == FindRegion(list, addr)
    requires i < |list| && list[i].relAddr + list[i].size == addr && forall j :: 0 <= j < i ==> !Inside(list[j], addr)
    ensures k < |list| && list[k] in RealDetach(mapped, addr) && list[k] !in MirrorDetach(list, addr)
  {
    assert Covers(list[i].relAddr, list[i].size, addr);
    assert k <= i && list[k] in list;
    RemoveAtMembers(list, k, list[k]);
  }

  lemma RightOneGoes(list: seq<Region>, addr: nat, k: nat)
    requires Separate(list) && !EndsAhead(list, addr) && k == FindRegion(list, addr) < |list|
    ensures Inside(list[k], addr) && forall i :: 0 <= i < |list| && Inside(list[i], addr) ==> i == k
  {
    assert forall j :: 0 <= j < k ==> !Covers(list[j].relAddr, list[j].size, addr) && !Inside(list[j], addr);
  }

  // Of two lists of records: the first one that covers addr or ends there is missing in the second, and the others
  // stand as they did.
  ghost predicate FirstRemoved(list: seq<Region>, list': seq<Region>, addr: nat) {
    if forall i :: 0 <= i < |list| ==> !AtOrIn(list[i], addr) then list' == list
    else exists k :: RemovedAt(list, list', addr, k)
  }

  ghost predicate RemovedAt(list: seq<Region>, list': seq<Region>, addr: nat, k: int) {
    && 0 <= k < |list| && AtOrIn(list[k], addr) && (forall i :: 0 <= i < k ==> !AtOrIn(list[i], addr))
    && |list'| == |list| - 1
    && (forall i :: 0 <= i < k ==> list'[i] == list[i]) && (forall i :: k <= i < |list'| ==> list'[i] == list[i + 1])
  }

  predicate AtOrIn(r: Region, addr: nat) {
    Inside(r, addr) || addr == r.relAddr + r.size
  }

  lemma {:induction false} CoversIs(r: Region, addr: nat)
    ensures Covers(r.relAddr, r.size, addr) <==> AtOrIn(r, addr)
  {
  }

  lemma {:induction false} DetachKeepsOrder(list: seq<Region>, addr: nat)
    ensures FirstRemoved(list, MirrorDetach(list, addr), addr)
  {
    var k := FindRegion(list, addr);
    forall i | 0 <= i < |list| ensures Covers(list[i].relAddr, list[i].size, addr) <==> AtOrIn(list[i], addr) {
      CoversIs(list[i], addr);
    }
    FoundFirst(list, addr, k);
    if k < |list| {
      assert RemovedAt(list, RemoveAt(list, k), addr, k);
    }
  }

  lemma {:induction false} FoundFirst(list: seq<Region>, addr: nat, k: nat)
    requires k == FindRegion(list, addr)
    ensures k <= |list| && forall i :: 0 <= i < k ==> !Covers(list[i].relAddr, list[i].size, addr)
    ensures k < |list| ==> Covers(list[k].relAddr, list[k].size, addr)
  {
  }

  // Regions attached in ascending order: every detach of one is right.
  lemma AscendingIsSafe(list: seq<Region>, addr: nat, k: nat)
    requires Separate(list) && forall i, j :: 0 <= i < j < |list| ==> list[j].relAddr < list[i].relAddr
    requires k < |list| && Inside(list[k], addr)
    ensures !EndsAhead(list, addr)
  {
    forall i | 0 <= i < |list| && list[i].relAddr + list[i].size == addr ensures k < i {
      assert i != k && list[i].relAddr < list[k].relAddr;
    }
  }

  // ---- Whole runs ----

  datatype Change = AttachChange(r: Region) | DetachChange(addr: nat)

  ghost function RecordsNext(list: seq<Region>, step: Change): seq<Region> {
    match step
    case AttachChange(r) => [r] + list
    case DetachChange(addr) => MirrorDetach(list, addr)
  }

  ghost function MappedNext(mapped: set<Region>, step: Change): set<Region> {
    match step
    case AttachChange(r) => mapped + {r}
    case DetachChange(addr) => RealDetach(mapped, addr)
  }

  // The records and the attachments after the first n steps.
  ghost function Records(steps: seq<Change>, n: nat): seq<Region>
    requires n <= |steps|
  {
    if n == 0 then [] else RecordsNext(Records(steps, n - 1), steps[n - 1])
  }

  ghost function Mapped(steps: seq<Change>, n: nat): set<Region>
    requires n <= |steps|
  {
    if n == 0 then {} else MappedNext(Mapped(steps, n - 1), steps[n - 1])
  }

  ghost predicate Beside(r: Region, mapped: set<Region>) {
    r.size > 0 && forall o :: o in mapped ==> r.relAddr + r.size <= o.relAddr || o.relAddr + o.size <= r.relAddr
  }

  // The real region map puts a region beside everything else.
  ghost predicate RealRun(steps: seq<Change>) {
    forall n :: 0 <= n < |steps| ==> RealAt(steps, n)
  }

  ghost predicate RealAt(steps: seq<Change>, n: nat)
    requires n < |steps|
  {
    steps[n].AttachChange? ==> Beside(steps[n].r, Mapped(steps, n))
  }

  // The records are the attachments after n steps.  The quantifier keeps this folded.
  ghost predicate MirrorsAfter(steps: seq<Change>, n: nat)
    requires n <= |steps|
  {
    forall key: nat {:trigger Unfold(key)} :: Unfold(key) ==> ListMirrors(Records(steps, n), Mapped(steps, n))
  }

  lemma {:induction false} OpenMirrorsAfter(steps: seq<Change>, n: nat)
    requires n <= |steps|
    ensures MirrorsAfter(steps, n) <==> ListMirrors(Records(steps, n), Mapped(steps, n))
  {
    assert Unfold(0);
  }

  ghost predicate Misleads(list: seq<Region>, step: Change) {
    step.DetachChange? && EndsAhead(list, step.addr)
  }

  lemma {:induction false} StepMirrors(list: seq<Region>, mapped: set<Region>, step: Change)
    requires ListMirrors(list, mapped) && (step.AttachChange? ==> Beside(step.r, mapped))
    ensures ListMirrors(RecordsNext(list, step), MappedNext(mapped, step)) <==> !Misleads(list, step)
  {
    match step
    case AttachChange(r) =>
      assert forall i :: 0 <= i < |list| ==> list[i] in mapped;
    case DetachChange(addr) =>
      DetachMirrorsIff(list, mapped, addr);
  }

  lemma {:induction false} MirrorsNext(steps: seq<Change>, n: nat)
    requires RealRun(steps) && n < |steps| && MirrorsAfter(steps, n)
    ensures MirrorsAfter(steps, n + 1) <==> !MisledIn(steps, n)
  {
    OpenMirrorsAfter(steps, n);
    OpenMirrorsAfter(steps, n + 1);
    assert RealAt(steps, n);
    StepMirrors(Records(steps, n), Mapped(steps, n), steps[n]);
  }

  ghost predicate MisledIn(steps: seq<Change>, n: nat)
    requires n < |steps|
  {
    Misleads(Records(steps, n), steps[n])
  }

  ghost predicate AlwaysMirrors(steps: seq<Change>, n: nat)
    requires n <= |steps|
  {
    forall i :: 0 <= i <= n ==> MirrorsAfter(steps, i)
  }

  ghost predicate NeverMisled(steps: seq<Change>, n: nat)
    requires n <= |steps|
  {
    forall i :: 0 <= i < n ==> !MisledIn(steps, i)
  }

  lemma {:induction false} OneStepMore(steps: seq<Change>, n: nat)
    requires n < |steps|
    ensures AlwaysMirrors(steps, n + 1) <==> AlwaysMirrors(steps, n) && MirrorsAfter(steps, n + 1)
    ensures NeverMisled(steps, n + 1) <==> NeverMisled(steps, n) && !MisledIn(steps, n)
    ensures AlwaysMirrors(steps, n) ==> MirrorsAfter(steps, n)
  {
  }

  // In any run of attaches and detaches the records are the attachments all the time if and only if no detach meets
  // a region that ends at its address in front.
  lemma {:induction false} RunMirrorsIff(steps: seq<Change>, n: nat)
    requires RealRun(steps) && n <= |steps|
    ensures AlwaysMirrors(steps, n) <==> NeverMisled(steps, n)
  {
    if n == 0 {
      OpenMirrorsAfter(steps, 0);
    } else {
      RunMirrorsIff(steps, n - 1);
      OneStepMore(steps, n - 1);
      if MirrorsAfter(steps, n - 1) {
        MirrorsNext(steps, n - 1);
      }
    }
  }

  // Every attach is above everything attached, and every detach is of an address in some region.
  ghost predicate AscendingRun(steps: seq<Change>) {
    forall n :: 0 <= n < |steps| ==> AscendsAt(steps, n)
  }

  ghost predicate AscendsAt(steps: seq<Change>, n: nat)
    requires n < |steps|
  {
    Ascends(Mapped(steps, n), steps[n])
  }

  ghost predicate Ascends(mapped: set<Region>, step: Change) {
    match step
    case AttachChange(r) => r.size > 0 && forall o :: o in mapped ==> o.relAddr + o.size <= r.relAddr
    case DetachChange(addr) => exists o :: o in mapped && Inside(o, addr)
  }

  ghost predicate Descending(list: seq<Region>) {
    forall i, j :: 0 <= i < j < |list| ==> list[j].relAddr < list[i].relAddr
  }

  // Such a run is always mirrored, whatever is detached in between: the list stays in descending order.
  lemma {:induction false} AscendingRunMirrors(steps: seq<Change>, n: nat)
    requires AscendingRun(steps) && n <= |steps|
    ensures MirrorsAfter(steps, n) && Descending(Records(steps, n))
  {
    if n == 0 {
      OpenMirrorsAfter(steps, 0);
    } else {
      AscendingRunMirrors(steps, n - 1);
      AscendingNext(steps, n - 1);
    }
  }

  lemma {:induction false} AscendingNext(steps: seq<Change>, n: nat)
    requires n < |steps| && AscendsAt(steps, n) && MirrorsAfter(steps, n) && Descending(Records(steps, n))
    ensures MirrorsAfter(steps, n + 1) && Descending(Records(steps, n + 1))
  {
    OpenMirrorsAfter(steps, n);
    OpenMirrorsAfter(steps, n + 1);
    AscendingStep(Records(steps, n), Mapped(steps, n), steps[n]);
  }

  lemma {:induction false} AscendingStep(list: seq<Region>, mapped: set<Region>, step: Change)
    requires Ascends(mapped, step) && ListMirrors(list, mapped) && Descending(list)
    ensures ListMirrors(RecordsNext(list, step), MappedNext(mapped, step)) && Descending(RecordsNext(list, step))
  {
    match step
    case AttachChange(r) =>
      assert forall i :: 0 <= i < |list| ==> list[i] in mapped;
    case DetachChange(addr) =>
      var o :| o in mapped && Inside(o, addr);
      var k :| 0 <= k < |list| && list[k] == o;
      AscendingIsSafe(list, addr, k);
      DetachMirrorsIff(list, mapped, addr);
      StaysDescending(list, addr);
  }

  lemma {:induction false} StaysDescending(list: seq<Region>, addr: nat)
    requires Descending(list)
    ensures Descending(MirrorDetach(list, addr))
  {
    DetachKeepsOrder(list, addr);
    var list' := MirrorDetach(list, addr);
    if k :| RemovedAt(list, list', addr, k) {
      forall i, j | 0 <= i < j < |list'| ensures list'[j].relAddr < list'[i].relAddr {
        assert list'[i] == list[if i < k then i else i + 1] && list'[j] == list[if j < k then j else j + 1];
      }
    }
  }

  class RegionMapComponent {
    ghost var mapped: set<Region>
    var attachedRegions: seq<Region>

    ghost predicate Valid()
      reads this
    {
      ListMirrors(attachedRegions, mapped)
    }

    constructor ()
      ensures Valid() && attachedRegions == []
    {
      attachedRegions, mapped := [], {};
    }

    // The real region map has put the dataspace at addr, beside everything else.
    method Attach(ds: nat, dsSize: nat, size: nat, offset: nat, addr: nat, executable: bool, bootstrapped: bool) returns (r: Region)
      requires Valid() && (size == 0 ==> offset < dsSize)
      requires forall o :: o in mapped ==>
        addr + ActualSize(dsSize, size, offset) <= o.relAddr || o.relAddr + o.size <= addr
      modifies this
      ensures Valid() && r == Region(ds, ActualSize(dsSize, size, offset), offset, addr, executable, bootstrapped)
      ensures attachedRegions == [r] + old(attachedRegions) && mapped == old(mapped) + {r}
    {
      var actual := ActualSize(dsSize, size, offset);
      r := Region(ds, actual, offset, addr, executable, bootstrapped);
      assert forall i :: 0 <= i < |attachedRegions| ==> attachedRegions[i] in mapped;
      mapped := mapped + {r};
      attachedRegions := [r] + attachedRegions;
    }

    // The first record whose region covers the address or ends there is removed, the others stay in their order.
    // The records follow the real map if no region that ends at the address is in front.
    method Detach(addr: nat)
      requires Valid()
      modifies this
      ensures mapped == RealDetach(old(mapped), addr) && attachedRegions == MirrorDetach(old(attachedRegions), addr)
      ensures FirstRemoved(old(attachedRegions), attachedRegions, addr)
      ensures Valid() <==> !EndsAhead(old(attachedRegions), addr)
    {
      DetachMirrorsIff(attachedRegions, mapped, addr);
      DetachKeepsOrder(attachedRegions, addr);
      mapped := RealDetach(mapped, addr);
      var k := FindRegion(attachedRegions, addr);
      if k < |attachedRegions| {
        attachedRegions := RemoveAt(attachedRegions, k);
      }
    }
  }

  // A size of zero stands for the rest of the dataspace; regions consist of whole pages.
  function ActualSize(dsSize: nat, size: nat, offset: nat): (n: nat)
    requires size == 0 ==> offset < dsSize
    ensures n > 0 && n % 4096 == 0
    ensures (if size == 0 then dsSize - offset else size) <= n < (if size == 0 then dsSize - offset else size) + 4096
  {
    if size == 0 then Align(dsSize - offset) else Align(size)
  }

  // A region attached below another one later than that one: detaching the upper region removes the
  // record of the lower one.
  lemma LowerNeighbourForgotten()
    ensures var lower, upper := Region(5, 0x1000, 0, 0x1000, false, false), Region(6, 0x1000, 0, 0x2000, false, false);
      ListMirrors([lower, upper], {lower, upper}) && MirrorDetach([lower, upper], 0x2000) == [upper] && RealDetach({lower, upper}, 0x2000) == {lower}
  {
    var lower, upper := Region(5, 0x1000, 0, 0x1000, false, false), Region(6, 0x1000, 0, 0x2000, false, false);
    assert Covers(lower.relAddr, lower.size, 0x2000);
    assert FindRegion([lower, upper], 0x2000) == 0;
  }
}
