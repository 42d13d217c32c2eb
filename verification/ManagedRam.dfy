// The intercepted RAM session: managed dataspaces, their designated dataspaces and the pager
// (src/rtcr/intercept/ram_session.cc, src/rtcr/online_storage/ram_dataspace_info.h).
module ManagedRam {
  import opened Folding
  import opened InfoList
  import opened Tiles
  import opened Pager

  // An attachment in a real region map.
  datatype Mapping = Mapping(cap: nat, addr: nat, size: nat)

  function MappingOf(t: Tile): Mapping {
    Mapping(t.cap, t.relAddr, t.size)
  }

  // The region map behind a managed dataspace, as its client sees it.  Attaching wakes the threads
  // that wait for an address in the attached range.
  class RegionMap {
    var mapped: set<Mapping>
    var pending: seq<nat>

    constructor ()
      ensures mapped == {} && pending == []
    {
      mapped, pending := {}, [];
    }

    method AttachAt(cap: nat, addr: nat, size: nat)
      modifies this
      ensures mapped == old(mapped) + {Mapping(cap, addr, size)}
      ensures pending == Unresolved(old(pending), addr, size)
    {
      mapped := mapped + {Mapping(cap, addr, size)};
      pending := Unresolved(pending, addr, size);
    }

    method Detach(addr: nat)
      modifies this
      ensures mapped == set m | m in old(mapped) && !(m.addr <= addr < m.addr + m.size)
      ensures pending == old(pending)
    {
      mapped := set m | m in mapped && !(m.addr <= addr < m.addr + m.size);
    }
  }

  // Designated_dataspace_info
  class DesignatedDataspace {
    const regionMap: RegionMap
    const cap: nat
    const relAddr: nat
    const size: nat
    var attached: bool

    constructor (regionMap: RegionMap, cap: nat, relAddr: nat, size: nat)
      modifies regionMap
      ensures this.regionMap == regionMap && Value() == Tile(cap, relAddr, size, true)
      ensures regionMap.mapped == old(regionMap.mapped) + {Mapping(cap, relAddr, size)}
      ensures regionMap.pending == Unresolved(old(regionMap.pending), relAddr, size)
    {
      this.regionMap, this.cap, this.relAddr, this.size, this.attached := regionMap, cap, relAddr, size, false;
      new;
      Attach();
    }

    function Value(): Tile
      reads this
    {
      Tile(cap, relAddr, size, attached)
    }

    method Attach()
      modifies this, regionMap
      ensures attached
      ensures old(attached) ==> regionMap.mapped == old(regionMap.mapped) && regionMap.pending == old(regionMap.pending)
      ensures !old(attached) ==>
        && regionMap.mapped == old(regionMap.mapped) + {Mapping(cap, relAddr, size)}
        && regionMap.pending == Unresolved(old(regionMap.pending), relAddr, size)
    {
      if !attached {
        regionMap.AttachAt(cap, relAddr, size);
        attached := true;
      }
    }

    method Detach()
      modifies this, regionMap
      ensures !attached && regionMap.pending == old(regionMap.pending)
      ensures regionMap.mapped == if old(attached)
        then set m | m in old(regionMap.mapped) && !(m.addr <= relAddr < m.addr + m.size)
        else old(regionMap.mapped)
    {
      if attached {
        regionMap.Detach(relAddr);
        attached := false;
      }
    }
  }

  // ---- Agreement between the flags and the real region map ----

  ghost function Attachments(ts: seq<Tile>): set<Mapping> {
    set i | 0 <= i < |ts| && ts[i].attached :: MappingOf(ts[i])
  }

  ghost predicate DistinctCaps(ts: seq<Tile>) {
    forall i, j :: 0 <= i < j < |ts| ==> ts[i].cap != ts[j].cap
  }

  lemma AttachmentsAttach(ts: seq<Tile>, i: nat)
    requires i < |ts|
    ensures Attachments(SetAttached(ts, i, true)) == Attachments(ts) + {MappingOf(ts[i])}
  {
    var ts' := SetAttached(ts, i, true);
    forall m ensures m in Attachments(ts') <==> m in Attachments(ts) + {MappingOf(ts[i])} {
      if m in Attachments(ts) {
        var j :| 0 <= j < |ts| && ts[j].attached && m == MappingOf(ts[j]);
        assert ts'[j].attached && MappingOf(ts'[j]) == m;
      }
      if m == MappingOf(ts[i]) {
        assert ts'[i].attached && MappingOf(ts'[i]) == m;
      }
    }
  }

  lemma AttachmentsPush(ts: seq<Tile>, t: Tile)
    requires t.attached
    ensures Attachments([t] + ts) == Attachments(ts) + {MappingOf(t)}
  {
    var ts' := [t] + ts;
    forall m ensures m in Attachments(ts') <==> m in Attachments(ts) + {MappingOf(t)} {
      if m in Attachments(ts) {
        var j :| 0 <= j < |ts| && ts[j].attached && m == MappingOf(ts[j]);
        assert ts'[j + 1] == ts[j];
      }
      if m == MappingOf(t) {
        assert ts'[0].attached && MappingOf(ts'[0]) == m;
      }
    }
  }

  lemma {:induction false} AttachmentsDetach(ts: seq<Tile>, total: nat, i: nat)
    requires i < |ts| && Tiled(ts, total) && DistinctCaps(ts) && ts[i].attached
    ensures Attachments(SetAttached(ts, i, false))
            == set m | m in Attachments(ts) && !(m.addr <= ts[i].relAddr < m.addr + m.size)
  {
    var ts' := SetAttached(ts, i, false);
    forall m ensures m in Attachments(ts') <==> m in Attachments(ts) && !(m.addr <= ts[i].relAddr < m.addr + m.size) {
      TilesBelow(ts, total, i);
      if m in Attachments(ts) {
        var j :| 0 <= j < |ts| && ts[j].attached && m == MappingOf(ts[j]);
        TilesBelow(ts, total, j);
        if j != i {
          assert ts'[j].attached && MappingOf(ts'[j]) == m;
        }
      }
      if m in Attachments(ts') {
        var j :| 0 <= j < |ts| && ts'[j].attached && m == MappingOf(ts'[j]);
        TilesBelow(ts, total, j);
        assert ts[j].attached && MappingOf(ts[j]) == m;
      }
    }
  }

  // The flags of the tiles agree with what is attached, and only unattached tiles are waited for.
  // The quantifier keeps this folded: it is seen where Unfold is mentioned, by OpenCoherent.
  ghost predicate Coherent(m: MapState, mapped: set<Mapping>) {
    forall key: nat {:trigger Unfold(key)} :: Unfold(key) ==>
      Sound(m) && DistinctCaps(m.tiles) && mapped == Attachments(m.tiles)
  }

  lemma OpenCoherent(m: MapState, mapped: set<Mapping>)
    ensures Coherent(m, mapped) <==> Sound(m) && DistinctCaps(m.tiles) && mapped == Attachments(m.tiles)
  {
    assert Unfold(0);
  }

  // Attaching or detaching one tile keeps the agreement.
  lemma CoherentAttach(m: MapState, mapped: set<Mapping>, i: nat)
    requires Coherent(m, mapped) && i < |m.tiles|
    ensures Coherent(AttachTile(m, i), if m.tiles[i].attached then mapped else mapped + {MappingOf(m.tiles[i])})
  {
    var m' := AttachTile(m, i);
    OpenCoherent(m, mapped);
    FlagsKeepTiling(m.tiles, m'.tiles, m.size);
    AttachmentsAttach(m.tiles, i);
    OpenCoherent(m', if m.tiles[i].attached then mapped else mapped + {MappingOf(m.tiles[i])});
  }

  lemma CoherentDetach(m: MapState, mapped: set<Mapping>, i: nat)
    requires Coherent(m, mapped) && i < |m.tiles|
    ensures var t := m.tiles[i];
      Coherent(m.(tiles := SetAttached(m.tiles, i, false)),
               if t.attached then set a | a in mapped && !(a.addr <= t.relAddr < a.addr + a.size) else mapped)
  {
    var t, m' := m.tiles[i], m.(tiles := SetAttached(m.tiles, i, false));
    OpenCoherent(m, mapped);
    FlagsKeepTiling(m.tiles, m'.tiles, m.size);
    if t.attached {
      AttachmentsDetach(m.tiles, m.size, i);
      OpenCoherent(m', set a | a in mapped && !(a.addr <= t.relAddr < a.addr + a.size));
    } else {
      assert m' == m;
    }
  }

  // ---- What the loops over a managed dataspace compute ----

  function AllSet(ts: seq<Tile>, attached: bool): (r: seq<Tile>)
    ensures |r| == |ts| && forall i :: 0 <= i < |ts| ==> r[i] == ts[i].(attached := attached)
  {
    seq(|ts|, i requires 0 <= i < |ts| => ts[i].(attached := attached))
  }

  // Badges of the detached tiles among the first n, the last one in front.
  function DetachedCaps(ts: seq<Tile>, n: nat): seq<nat>
    requires n <= |ts|
  {
    if n == 0 then []
    else if ts[n - 1].attached then DetachedCaps(ts, n - 1)
    else [ts[n - 1].cap] + DetachedCaps(ts, n - 1)
  }

  lemma {:induction false} MarkedIffDetached(ts: seq<Tile>, n: nat, c: nat)
    requires n <= |ts|
    ensures c in DetachedCaps(ts, n) <==> exists i :: 0 <= i < n && !ts[i].attached && ts[i].cap == c
  {
    if n > 0 {
      MarkedIffDetached(ts, n - 1, c);
    }
  }

  function DetachMarked(ts: seq<Tile>, marks: seq<nat>): (r: seq<Tile>)
    ensures |r| == |ts| && forall i :: 0 <= i < |ts| ==> r[i] == if ts[i].cap in marks then ts[i].(attached := false) else ts[i]
  {
    seq(|ts|, i requires 0 <= i < |ts| => if ts[i].cap in marks then ts[i].(attached := false) else ts[i])
  }

  // Marking and attaching the detached tiles and then detaching the marked ones restores every
  // flag; in between all tiles are attached, so the checkpointer's own reads cannot fault.
  lemma {:induction false} MarkUnmarkNeutral(ts: seq<Tile>)
    requires DistinctCaps(ts)
    ensures DetachMarked(AllSet(ts, true), DetachedCaps(ts, |ts|)) == ts
    ensures forall i :: 0 <= i < |ts| ==> AllSet(ts, true)[i].attached
  {
    var marks := DetachedCaps(ts, |ts|);
    forall i | 0 <= i < |ts| ensures ts[i].cap in marks <==> !ts[i].attached {
      OwnMark(ts, i);
    }
    RestoresFlags(ts, marks);
  }

  lemma {:induction false} OwnMark(ts: seq<Tile>, i: nat)
    requires DistinctCaps(ts) && i < |ts|
    ensures ts[i].cap in DetachedCaps(ts, |ts|) <==> !ts[i].attached
  {
    MarkedIffDetached(ts, |ts|, ts[i].cap);
  }

  lemma RestoresFlags(ts: seq<Tile>, marks: seq<nat>)
    requires forall i :: 0 <= i < |ts| ==> (ts[i].cap in marks <==> !ts[i].attached)
    ensures DetachMarked(AllSet(ts, true), marks) == ts
  {
    var all := AllSet(ts, true);
    var r := DetachMarked(all, marks);
    forall i | 0 <= i < |ts| ensures r[i] == ts[i] {
      assert all[i] == ts[i].(attached := true);
    }
  }

  // Managed_region_map_info
  class ManagedMap {
    const regionMap: RegionMap
    ghost const size: nat
    var ddInfos: seq<DesignatedDataspace>

    ghost var Repr: set<object>

    ghost predicate Owned()
      reads this, Repr
    {
      && this in Repr && regionMap in Repr
      && (forall i :: 0 <= i < |ddInfos| ==> ddInfos[i] in Repr && ddInfos[i].regionMap == regionMap)
      && (forall i, j :: 0 <= i < j < |ddInfos| ==> ddInfos[i] != ddInfos[j])
    }

    ghost function Tiles(): (ts: seq<Tile>)
      requires Owned()
      reads this, Repr
      ensures |ts| == |ddInfos| && forall i :: 0 <= i < |ts| ==> ts[i] == ddInfos[i].Value()
    {
      seq(|ddInfos|, i requires 0 <= i < |ddInfos| && Owned() reads this, Repr => ddInfos[i].Value())
    }

    ghost function State(): MapState
      requires Owned()
      reads this, Repr
    {
      MapState(size, Tiles(), regionMap.pending)
    }

    // Every attached flag agrees with the real region map.
    ghost predicate Valid()
      reads this, Repr
    {
      Owned() && Coherent(State(), regionMap.mapped)
    }

    constructor (regionMap: RegionMap, ghost size: nat)
      ensures this.regionMap == regionMap && this.size == size && ddInfos == [] && Repr == {this, regionMap}
    {
      this.regionMap, this.size, this.ddInfos := regionMap, size, [];
      this.Repr := {this, regionMap};
    }

    // A new, attached tile in front of the list.
    method AddTile(cap: nat, relAddr: nat, size: nat)
      requires Owned() && regionMap.mapped == Attachments(Tiles()) && regionMap.pending == []
      modifies this, regionMap
      ensures Owned() && regionMap.mapped == Attachments(Tiles()) && regionMap.pending == []
      ensures Tiles() == [Tile(cap, relAddr, size, true)] + old(Tiles())
      ensures fresh(Repr - old(Repr))
    {
      ghost var ts := Tiles();
      var dd := new DesignatedDataspace(regionMap, cap, relAddr, size);
      assert Tiles() == ts && dd !in ddInfos;
      ddInfos := [dd] + ddInfos;
      Repr := Repr + {dd};
      forall j | 0 <= j < |ddInfos| ensures ddInfos[j].Value() == ([dd.Value()] + ts)[j] {
        assert j > 0 ==> ddInfos[j] == old(ddInfos)[j - 1];
      }
      AttachmentsPush(ts, dd.Value());
    }

    // The element that find_by_addr stops at.
    method FindIndexByAddr(addr: nat) returns (k: nat)
      requires Owned()
      ensures k == FindByAddr(Tiles(), addr)
    {
      k := 0;
      ghost var ts := Tiles();
      while k < |ddInfos| && !(ddInfos[k].relAddr <= addr <= ddInfos[k].relAddr + ddInfos[k].size)
        invariant 0 <= k <= |ddInfos|
        invariant forall j :: 0 <= j < k ==> !(ts[j].relAddr <= addr <= ts[j].relAddr + ts[j].size)
      {
        k := k + 1;
      }
    }

    // dd_info->attach() on the i-th element
    method AttachAt(i: nat)
      requires Valid() && i < |ddInfos|
      modifies regionMap, ddInfos[i]
      ensures Valid() && ddInfos[i].attached
      ensures State() == AttachTile(old(State()), i)
    {
      ghost var m := State();
      CoherentAttach(m, regionMap.mapped, i);
      ddInfos[i].Attach();
      assert Tiles() == AttachTile(m, i).tiles;
    }

    // dd_info->detach() on the i-th element
    method DetachAt(i: nat)
      requires Valid() && i < |ddInfos|
      modifies regionMap, ddInfos[i]
      ensures Valid() && !ddInfos[i].attached
      ensures State() == old(State()).(tiles := SetAttached(old(Tiles()), i, false))
    {
      ghost var m := State();
      CoherentDetach(m, regionMap.mapped, i);
      ddInfos[i].Detach();
      assert Tiles() == SetAttached(m.tiles, i, false);
    }

    // Checkpointer::_mark_attach_designated_dataspaces
    method MarkAttach() returns (marks: seq<nat>)
      requires Valid()
      modifies Repr - {this}
      ensures Valid() && Tiles() == AllSet(old(Tiles()), true)
      ensures marks == DetachedCaps(old(Tiles()), |ddInfos|)
    {
      ghost var ts := Tiles();
      marks := [];
      var i := 0;
      while i < |ddInfos|
        invariant 0 <= i <= |ddInfos| && Valid()
        invariant forall j :: 0 <= j < |ddInfos| ==> ddInfos[j].attached == (j < i || ts[j].attached)
        invariant marks == DetachedCaps(ts, i)
      {
        if !ddInfos[i].attached {
          AttachAt(i);
          marks := [ddInfos[i].cap] + marks;
        }
        i := i + 1;
      }
    }

    // Checkpointer::_detach_unmark_designated_dataspaces
    method DetachUnmark(marks: seq<nat>)
      requires Valid()
      modifies Repr - {this}
      ensures Valid() && Tiles() == DetachMarked(old(Tiles()), marks)
      ensures regionMap.pending == old(regionMap.pending)
    {
      ghost var ts := Tiles();
      if marks != [] {
        var i := 0;
        while i < |ddInfos|
          invariant 0 <= i <= |ddInfos| && Valid()
          invariant regionMap.pending == old(regionMap.pending)
          invariant forall j :: 0 <= j < |ddInfos| ==>
            ddInfos[j].attached == (ts[j].attached && !(j < i && ts[j].cap in marks))
        {
          if ddInfos[i].cap in marks {
            DetachAt(i);
          }
          i := i + 1;
        }
      }
    }

    // The inner loop of Checkpointer::_detach_designated_dataspaces
    method DetachAll()
      requires Valid()
      modifies Repr - {this}
      ensures Valid() && Tiles() == AllSet(old(Tiles()), false)
      ensures regionMap.pending == old(regionMap.pending)
    {
      ghost var ts := Tiles();
      var i := 0;
      while i < |ddInfos|
        invariant 0 <= i <= |ddInfos| && Valid()
        invariant regionMap.pending == old(regionMap.pending)
        invariant forall j :: 0 <= j < |ddInfos| ==> ddInfos[j].attached == (j >= i && ts[j].attached)
      {
        if ddInfos[i].attached {
          DetachAt(i);
        }
        i := i + 1;
      }
    }
  }
}
