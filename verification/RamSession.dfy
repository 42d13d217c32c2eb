// Ram_session_component and its Fault_handler (src/rtcr/intercept/ram_session.cc).
module RamSession {
  import opened InfoList
  import opened Tiles
  import opened Pager
  import opened ManagedRam

  // Simple_counter: the source of creation timestamps.
  class Counter {
    var count: nat

    constructor ()
      ensures count == 0
    {
      count := 0;
    }

    method GetId() returns (id: nat)
      modifies this
      ensures id == old(count) && count == old(count) + 1
    {
      id := count;
      count := count + 1;
    }
  }

  // The RAM session of the parent: a quota, and badges that are never reused.
  class ParentRam {
    var quota: nat
    var nextBadge: nat

    constructor (quota: nat)
      ensures this.quota == quota && nextBadge == 1
    {
      this.quota, this.nextBadge := quota, 1;
    }

    method NewBadge() returns (badge: nat)
      modifies this`nextBadge
      ensures badge == old(nextBadge) && nextBadge == old(nextBadge) + 1
    {
      badge := nextBadge;
      nextBadge := nextBadge + 1;
    }

    // None is the exception Quota_exceeded.
    method Alloc(size: nat) returns (r: Option<nat>)
      modifies this
      ensures r == if size <= old(quota) then Some(old(nextBadge)) else None
      ensures quota == (if r.Some? then old(quota) - size else old(quota))
      ensures nextBadge == (if r.Some? then old(nextBadge) + 1 else old(nextBadge))
    {
      if size > quota {
        return None;
      }
      quota := quota - size;
      var badge := NewBadge();
      r := Some(badge);
    }
  }

  // Ram_dataspace_info; managed is null for an ordinary dataspace.
  class RamDataspace {
    const badge: nat
    const size: nat
    const cached: nat
    const bootstrapped: bool
    const timestamp: nat
    const managed: ManagedMap?

    constructor (badge: nat, size: nat, cached: nat, bootstrapped: bool, timestamp: nat, managed: ManagedMap?)
      ensures this.badge == badge && this.size == size && this.cached == cached
      ensures this.bootstrapped == bootstrapped && this.timestamp == timestamp && this.managed == managed
    {
      this.badge, this.size, this.cached := badge, size, cached;
      this.bootstrapped, this.timestamp, this.managed := bootstrapped, timestamp, managed;
    }
  }

  lemma HandleFaultAt(ms: seq<MapState>, i: nat, k: nat)
    requires i == FirstFaulting(ms) < |ms|
    requires k == FindByAddr(ms[i].tiles, ms[i].pending[0])
    ensures HandleFault(ms) == Some(if k < |ms[i].tiles| then ms[i := AttachTile(ms[i], k)] else ms)
  {
  }

  lemma RemovedFrom(list: seq<RamDataspace>, k: nat)
    requires k < |list|
    ensures |RemoveAt(list, k)| == |list| - 1
    ensures forall i :: 0 <= i < |list| - 1 ==> RemoveAt(list, k)[i] == list[Before(k, i)]
  {
  }

  class Session {
    const granularity: nat
    const parent: ParentRam
    const counter: Counter
    var ramDataspaces: seq<RamDataspace>
    ghost var Repr: set<object>

    // The list is ordered by creation, the youngest first; bootstrapped entries are the oldest.
    // With a granularity above zero every dataspace is managed, otherwise none is.
    ghost predicate Listed()
      reads this, counter
    {
      && (forall i :: 0 <= i < |ramDataspaces| ==> (ramDataspaces[i].managed != null <==> granularity > 0))
      && (forall i :: 0 <= i < |ramDataspaces| ==> ramDataspaces[i].timestamp < counter.count)
      && (forall i, j :: 0 <= i < j < |ramDataspaces| ==> ramDataspaces[j].timestamp < ramDataspaces[i].timestamp)
      && (forall i, j :: 0 <= i < j < |ramDataspaces| && ramDataspaces[i].bootstrapped ==> ramDataspaces[j].bootstrapped)
    }

    // No two dataspaces share an object.
    ghost predicate Separated()
      reads this, Repr
    {
      && this in Repr && parent !in Repr && counter !in Repr
      && (forall i :: 0 <= i < |ramDataspaces| && ramDataspaces[i].managed != null ==>
            ramDataspaces[i].managed in Repr && ramDataspaces[i].managed.Repr <= Repr - {this})
      && (forall i, j :: 0 <= i < j < |ramDataspaces| && ramDataspaces[i].managed != null && ramDataspaces[j].managed != null ==>
            ramDataspaces[i].managed.Repr !! ramDataspaces[j].managed.Repr)
    }

    ghost predicate Valid()
      reads this, Repr, counter
    {
      && Separated() && Listed()
      && (forall i :: 0 <= i < |ramDataspaces| && ramDataspaces[i].managed != null ==> ramDataspaces[i].managed.Valid())
    }

    // The managed dataspaces as the pager sees them.
    ghost function Maps(): (ms: seq<MapState>)
      requires Valid() && granularity > 0
      reads this, Repr, counter
      ensures |ms| == |ramDataspaces| && forall i :: 0 <= i < |ms| ==> ms[i] == ramDataspaces[i].managed.State()
    {
      seq(|ramDataspaces|, i requires 0 <= i < |ramDataspaces| && Valid() reads this, Repr, counter => ramDataspaces[i].managed.State())
    }

    constructor (granularity: nat, parent: ParentRam, counter: Counter)
      ensures Valid() && fresh(Repr) && ramDataspaces == []
      ensures this.granularity == granularity && this.parent == parent && this.counter == counter
    {
      this.granularity, this.parent, this.counter := granularity, parent, counter;
      this.ramDataspaces := [];
      this.Repr := {this};
    }

    // Fault_handler::_find_faulting_mrm_info.  All entries are managed, so the loop ends.
    method FindFaulting() returns (i: nat)
      requires Valid() && granularity > 0
      ensures i == FirstFaulting(Maps())
    {
      ghost var ms := Maps();
      i := 0;
      while i < |ramDataspaces| && ramDataspaces[i].managed.regionMap.pending == []
        invariant 0 <= i <= |ramDataspaces|
        invariant forall j :: 0 <= j < i ==> ms[j].pending == []
      {
        i := i + 1;
      }
    }

    // Fault_handler::_handle_fault.  The precondition is what keeps it from dereferencing null.
    method HandlePageFault()
      requires Valid() && granularity > 0
      requires HandleFault(Maps()).Some?
      modifies Repr
      ensures Valid() && ramDataspaces == old(ramDataspaces) && Repr == old(Repr)
      ensures Maps() == HandleFault(old(Maps())).value
    {
      var i, k := Locate();
      if k < |ramDataspaces[i].managed.ddInfos| {
        AttachTileOf(i, k);
      }
    }

    // The first faulting dataspace and its tile at the faulting address, if it has one there.
    method Locate() returns (i: nat, k: nat)
      requires Valid() && granularity > 0
      requires HandleFault(Maps()).Some?
      ensures i < |ramDataspaces|
      ensures HandleFault(Maps()) == Some(if k < |Maps()[i].tiles| then Maps()[i := AttachTile(Maps()[i], k)] else Maps())
    {
      i := FindFaulting();
      var m := ramDataspaces[i].managed;
      k := m.FindIndexByAddr(m.regionMap.pending[0]);
      HandleFaultAt(Maps(), i, k);
    }

    // dd_info->attach() on tile k of the i-th dataspace; every other dataspace stays as it is.
    method AttachTileOf(i: nat, k: nat)
      requires Valid() && granularity > 0
      requires i < |ramDataspaces| && k < |Maps()[i].tiles|
      modifies Repr
      ensures Valid() && ramDataspaces == old(ramDataspaces) && Repr == old(Repr)
      ensures Maps() == old(Maps())[i := AttachTile(old(Maps())[i], k)]
    {
      ghost var ms := Maps();
      var m := ramDataspaces[i].managed;
      m.AttachAt(k);
      forall j | 0 <= j < |ramDataspaces| && j != i
        ensures ramDataspaces[j].managed.Valid() && ramDataspaces[j].managed.State() == ms[j]
      {
        assert ramDataspaces[j].managed.Repr !! m.Repr;
      }
    }

    // The tiles of the i-th dataspace, if it is managed.
    ghost function TilesOf(i: nat): Option<seq<Tile>>
      requires Valid() && i < |ramDataspaces|
      reads this, Repr, counter
    {
      if ramDataspaces[i].managed == null then None else Some(ramDataspaces[i].managed.Tiles())
    }

    // Checkpointer::_detach_designated_dataspaces for the i-th dataspace
    method DetachTilesOf(i: nat)
      requires Valid() && i < |ramDataspaces|
      modifies Repr
      ensures Valid() && ramDataspaces == old(ramDataspaces) && Repr == old(Repr)
      ensures forall j :: 0 <= j < |ramDataspaces| && j != i ==> TilesOf(j) == old(TilesOf(j))
      ensures TilesOf(i) == if old(TilesOf(i)).Some? then Some(AllSet(old(TilesOf(i)).value, false)) else None
    {
      var m := ramDataspaces[i].managed;
      if m != null {
        m.DetachAll();
        forall j | 0 <= j < |ramDataspaces| && j != i && ramDataspaces[j].managed != null
          ensures ramDataspaces[j].managed.Valid() && ramDataspaces[j].managed.Tiles() == old(ramDataspaces[j].managed.Tiles())
        {
          assert ramDataspaces[j].managed.Repr !! m.Repr;
        }
        assert Valid();
      }
    }

    // One turn of Fault_handler::entry: a signal that stands for n faults.
    method HandleSignal(n: nat)
      requires Valid() && granularity > 0
      requires HandleFaults(Maps(), n).Some?
      modifies Repr
      ensures Valid() && ramDataspaces == old(ramDataspaces) && Repr == old(Repr)
      ensures Maps() == HandleFaults(old(Maps()), n).value
    {
      var i := 0;
      while i < n
        invariant 0 <= i <= n
        invariant Valid() && ramDataspaces == old(ramDataspaces) && Repr == old(Repr)
        invariant HandleFaults(Maps(), n - i) == HandleFaults(old(Maps()), n)
      {
        HandlePageFault();
        i := i + 1;
      }
    }

    // What the parent is asked for: whole pages if the dataspace is to be managed.
    ghost function Demand(size: nat): nat {
      if granularity > 0 then Align(size) else size
    }

    // What it is asked for before it gives up, if it does: the tiles made by then are not given back.
    ghost function Spent(size: nat, quota: nat): nat
      requires granularity > 0 ==> DsSize(granularity) > 0
    {
      if Demand(size) <= quota then Demand(size)
      else if granularity == 0 then 0
      else TilesThatFit(size, DsSize(granularity), quota) * DsSize(granularity)
    }

    // Ram_session_component::alloc.  A granularity whose tile size wraps to zero makes the original
    // divide by zero.  The bootstrap flag is the child's: once cleared it stays cleared.
    method Alloc(size: nat, cached: nat, bootstrapped: bool) returns (r: Option<nat>)
      requires Valid()
      requires granularity > 0 ==> DsSize(granularity) > 0
      requires bootstrapped ==> forall i :: 0 <= i < |ramDataspaces| ==> ramDataspaces[i].bootstrapped
      modifies this, parent, counter
      ensures Valid() && fresh(Repr - old(Repr))
      ensures r.None? ==> ramDataspaces == old(ramDataspaces)
      ensures r.Some? ==>
        && |ramDataspaces| == |old(ramDataspaces)| + 1 && ramDataspaces[1..] == old(ramDataspaces)
        && var d := ramDataspaces[0];
          && d.badge == r.value && d.size == size && d.cached == cached && d.bootstrapped == bootstrapped
          && d.timestamp == old(counter.count)
          && (granularity > 0 ==> d.managed.State() == MapState(Align(size), NewTiles(size, DsSize(granularity), r.value + 1), []))
      ensures r.Some? ==> r.value == old(parent.nextBadge) < parent.nextBadge
      ensures r.Some? <==> Demand(size) <= old(parent.quota)
      ensures parent.quota == old(parent.quota) - Spent(size, old(parent.quota))
      ensures counter.count == old(counter.count) + if r.Some? || granularity > 0 then 1 else 0
    {
      if granularity > 0 {
        r := AllocManaged(size, cached, bootstrapped);
      } else {
        r := parent.Alloc(size);
        if r.Some? {
          Register(r.value, size, cached, bootstrapped, null);
        }
      }
    }

    // Ram_session_component::free.  A badge the session does not know changes nothing.
    method Free(badge: nat)
      requires Valid()
      modifies this`ramDataspaces
      ensures Valid() && Repr == old(Repr)
      ensures var k := FirstIndex(old(ramDataspaces), (d: RamDataspace) => d.badge == badge);
        ramDataspaces == if k < |old(ramDataspaces)| then RemoveAt(old(ramDataspaces), k) else old(ramDataspaces)
    {
      var k := FindByBadge(badge);
      if k < |ramDataspaces| {
        RemoveInfo(k);
      }
    }

    // find_by_cap of the list
    method FindByBadge(badge: nat) returns (k: nat)
      ensures k == FirstIndex(ramDataspaces, (d: RamDataspace) => d.badge == badge)
    {
      k := 0;
      while k < |ramDataspaces| && ramDataspaces[k].badge != badge
        invariant 0 <= k <= |ramDataspaces| && forall j :: 0 <= j < k ==> ramDataspaces[j].badge != badge
      {
        k := k + 1;
      }
    }

    method RemoveInfo(k: nat)
      requires Valid() && k < |ramDataspaces|
      modifies this`ramDataspaces
      ensures Valid() && Repr == old(Repr) && ramDataspaces == RemoveAt(old(ramDataspaces), k)
    {
      ghost var before := ramDataspaces;
      assert forall i :: 0 <= i < |before| && before[i].managed != null ==>
        this !in before[i].managed.Repr && before[i].managed.Valid();
      ramDataspaces := RemoveAt(ramDataspaces, k);
      RemovedFrom(before, k);
    }

    // A new entry in front of the list, with the next timestamp.
    method Register(badge: nat, size: nat, cached: nat, bootstrapped: bool, managed: ManagedMap?)
      requires Valid() && (managed != null <==> granularity > 0)
      requires bootstrapped ==> forall i :: 0 <= i < |ramDataspaces| ==> ramDataspaces[i].bootstrapped
      requires managed != null ==>
        managed.Valid() && managed.Repr !! Repr && parent !in managed.Repr && counter !in managed.Repr
      modifies this, counter
      ensures Valid() && Repr == old(Repr) + if managed != null then managed.Repr else {}
      ensures |ramDataspaces| == |old(ramDataspaces)| + 1 && ramDataspaces[1..] == old(ramDataspaces)
      ensures var d := ramDataspaces[0];
        && d.badge == badge && d.size == size && d.cached == cached && d.bootstrapped == bootstrapped
        && d.timestamp == old(counter.count) && d.managed == managed
      ensures counter.count == old(counter.count) + 1
    {
      var id := NextTimestamp();
      var d := new RamDataspace(badge, size, cached, bootstrapped, id, managed);
      Insert(d);
    }

    method NextTimestamp() returns (id: nat)
      requires Valid()
      modifies counter
      ensures Valid() && id == old(counter.count) && counter.count == id + 1
    {
      id := counter.GetId();
    }

    // _parent_state.ram_dataspaces.insert
    method Insert(d: RamDataspace)
      requires Valid() && (d.managed != null <==> granularity > 0)
      requires d.timestamp < counter.count && forall i :: 0 <= i < |ramDataspaces| ==> ramDataspaces[i].timestamp < d.timestamp
      requires d.bootstrapped ==> forall i :: 0 <= i < |ramDataspaces| ==> ramDataspaces[i].bootstrapped
      requires d.managed != null ==>
        d.managed.Valid() && d.managed.Repr !! Repr && parent !in d.managed.Repr && counter !in d.managed.Repr
      modifies this
      ensures Valid() && ramDataspaces == [d] + old(ramDataspaces)
      ensures Repr == old(Repr) + if d.managed != null then d.managed.Repr else {}
    {
      assert forall i :: 0 <= i < |ramDataspaces| && ramDataspaces[i].managed != null ==>
        this !in ramDataspaces[i].managed.Repr && ramDataspaces[i].managed.Valid();
      ghost var before := ramDataspaces;
      ramDataspaces := [d] + ramDataspaces;
      if d.managed != null {
        Repr := Repr + d.managed.Repr;
      }
      assert forall i :: 0 < i < |ramDataspaces| ==> ramDataspaces[i] == before[i - 1];
    }

    method AllocManaged(size: nat, cached: nat, bootstrapped: bool) returns (r: Option<nat>)
      requires Valid() && granularity > 0 && DsSize(granularity) > 0
      requires bootstrapped ==> forall i :: 0 <= i < |ramDataspaces| ==> ramDataspaces[i].bootstrapped
      modifies this, parent, counter
      ensures Valid() && fresh(Repr - old(Repr))
      ensures r.None? ==> ramDataspaces == old(ramDataspaces)
      ensures r.Some? ==>
        && |ramDataspaces| == |old(ramDataspaces)| + 1 && ramDataspaces[1..] == old(ramDataspaces)
        && var d := ramDataspaces[0];
          && d.badge == r.value && d.size == size && d.cached == cached && d.bootstrapped == bootstrapped
          && d.timestamp == old(counter.count)
          && d.managed.State() == MapState(Align(size), NewTiles(size, DsSize(granularity), r.value + 1), [])
      ensures r.Some? ==> r.value == old(parent.nextBadge) < parent.nextBadge
      ensures r.Some? <==> Align(size) <= old(parent.quota)
      ensures parent.quota == old(parent.quota) - Spent(size, old(parent.quota))
      ensures counter.count == old(counter.count) + 1
    {
      var badge := parent.NewBadge();
      var managed := FillManaged(size, badge);
      if managed == null {
        // The record that took the next timestamp is not entered into the list.
        var unused := NextTimestamp();
        return None;
      }
      Register(badge, size, cached, bootstrapped, managed);
      r := Some(badge);
    }

    // The tiles of a new managed dataspace, or null if and only if the parent's quota does not suffice for all of them.
    method FillManaged(size: nat, badge: nat) returns (m: ManagedMap?)
      requires granularity > 0 && DsSize(granularity) > 0
      requires badge + 1 == parent.nextBadge
      modifies parent
      ensures parent.nextBadge >= old(parent.nextBadge)
      ensures m != null ==> fresh(m.Repr) && m.Valid()
      ensures m != null ==> m.State() == MapState(Align(size), NewTiles(size, DsSize(granularity), badge + 1), [])
      ensures m != null <==> Align(size) <= old(parent.quota)
      ensures parent.quota == old(parent.quota) - Spent(size, old(parent.quota))
    {
      var dsSize := DsSize(granularity);
      var regionMap := new RegionMap();
      m := new ManagedMap(regionMap, Align(size));
      assert m.Tiles() == [] && Attachments([]) == {};
      var n := WholeCount(size, dsSize);
      var rest := RestSize(size, dsSize);
      DsSizePages(granularity);
      TilesDemand(size, dsSize, parent.quota);
      var ok := AddWholeTiles(m, n, dsSize, badge + 1);
      if !ok {
        return null;
      }
      if rest != 0 {
        var cap := parent.Alloc(rest);
        if cap.None? {
          return null;
        }
        m.AddTile(cap.value, n * dsSize, rest);
      }
      assert m.Tiles() == NewTiles(size, dsSize, badge + 1);
      NewTilesCoherent(size, granularity, badge + 1, m.regionMap.mapped);
    }

    // It gives up if and only if the quota does not suffice for n tiles, and has then made those that it does suffice for.
    method AddWholeTiles(m: ManagedMap, n: nat, dsSize: nat, ghost cap: nat) returns (ok: bool)
      requires m.Owned() && m.regionMap.mapped == Attachments(m.Tiles()) && m.regionMap.pending == []
      requires parent !in m.Repr && cap == parent.nextBadge && m.Tiles() == [] && dsSize > 0
      modifies m, m.regionMap, parent
      ensures parent.nextBadge >= old(parent.nextBadge)
      ensures m.Owned() && m.regionMap.mapped == Attachments(m.Tiles()) && m.regionMap.pending == []
      ensures fresh(m.Repr - old(m.Repr))
      ensures ok <==> n * dsSize <= old(parent.quota)
      ensures ok ==> m.Tiles() == WholeTiles(n, dsSize, cap) && parent.nextBadge == cap + n
      ensures parent.quota == old(parent.quota) - (if ok then n else old(parent.quota) / dsSize) * dsSize
    {
      var i := 0;
      while i < n
        invariant 0 <= i <= n && fresh(m.Repr - old(m.Repr)) && parent !in m.Repr
        invariant parent.nextBadge == cap + i && i * dsSize + parent.quota == old(parent.quota)
        invariant m.Owned() && m.regionMap.mapped == Attachments(m.Tiles()) && m.regionMap.pending == []
        invariant m.Tiles() == WholeTiles(i, dsSize, cap)
      {
        var ds := parent.Alloc(dsSize);
        if ds.None? {
          FitsNoMore(old(parent.quota), dsSize, i, n);
          return false;
        }
        m.AddTile(ds.value, dsSize * i, dsSize);
        i := i + 1;
      }
      ok := true;
    }
  }

  // How many of the whole tiles a quota suffices for.
  ghost function TilesThatFit(size: nat, dsSize: nat, quota: nat): nat
    requires dsSize > 0
  {
    if quota / dsSize < size / dsSize then quota / dsSize else size / dsSize
  }

  lemma {:induction false} FitsNoMore(quota: nat, dsSize: nat, i: nat, n: nat)
    requires dsSize > 0 && i < n && i * dsSize <= quota < i * dsSize + dsSize
    ensures quota / dsSize == i && n * dsSize > quota
  {
    var q := quota / dsSize;
    Divides(quota, dsSize);
    NextMultiple(i, dsSize);
    if q < i {
      Grows(q + 1, i, dsSize);
    } else if i < q {
      Grows(i + 1, q, dsSize);
    }
    Grows(i + 1, n, dsSize);
  }

  lemma {:induction false} NextMultiple(i: nat, d: nat)
    ensures (i + 1) * d == i * d + d
  {
  }

  lemma {:induction false} Grows(a: nat, b: nat, d: nat)
    requires a <= b
    ensures a * d <= b * d
  {
  }

  // Whole tiles and the rest together are the whole pages of the dataspace.
  lemma {:induction false} TilesDemand(size: nat, ds: nat, quota: nat)
    requires ds > 0 && ds % PAGESIZE == 0
    ensures var n := WholeCount(size, ds);
      && n * ds + RestSize(size, ds) == Align(size)
      && (n * ds > quota ==> TilesThatFit(size, ds, quota) == quota / ds) && (n * ds <= quota ==> TilesThatFit(size, ds, quota) == n)
  {
    AlignSplit(size, ds, size / ds);
    FitsIff(size / ds, quota, ds);
  }

  lemma {:induction false} FitsIff(n: nat, quota: nat, d: nat)
    requires d > 0
    ensures n * d <= quota <==> n <= quota / d
  {
    var q := quota / d;
    Divides(quota, d);
    if n <= q {
      Grows(n, q, d);
    } else {
      Grows(q + 1, n, d);
    }
  }

  lemma {:induction false} Divides(q: nat, d: nat)
    requires d > 0
    ensures q / d * d <= q < q / d * d + d && (q / d + 1) * d == q / d * d + d
  {
  }

  lemma NewTilesCoherent(size: nat, granularity: nat, cap: nat, mapped: set<Mapping>)
    requires DsSize(granularity) > 0
    requires mapped == Attachments(NewTiles(size, DsSize(granularity), cap))
    ensures Coherent(MapState(Align(size), NewTiles(size, DsSize(granularity), cap), []), mapped)
  {
    NewTilesPartition(size, granularity, cap);
    OpenCoherent(MapState(Align(size), NewTiles(size, DsSize(granularity), cap), []), mapped);
  }
}
