// Resolving page faults of managed dataspaces (Fault_handler), on values.
module Pager {
  import opened InfoList
  import opened Tiles

  // One managed dataspace: its tiles and the addresses at which threads of the child wait.  The
  // region map reports the oldest of them; it is ready if there is none.
  datatype MapState = MapState(size: nat, tiles: seq<Tile>, pending: seq<nat>)

  // Threads wait only at addresses of the map that no attached tile covers.
  ghost predicate Sound(m: MapState) {
    && Tiled(m.tiles, m.size)
    && (forall f :: f in m.pending ==> f < m.size)
    && (forall f, i :: f in m.pending && 0 <= i < |m.tiles| && Contains(m.tiles[i], f) ==> !m.tiles[i].attached)
  }

  // The waiting addresses outside of an attached range.
  function Unresolved(pending: seq<nat>, addr: nat, size: nat): (r: seq<nat>)
    ensures forall f :: f in r <==> f in pending && !(addr <= f < addr + size)
  {
    if pending == [] then []
    else if addr <= pending[0] < addr + size then Unresolved(pending[1..], addr, size)
    else [pending[0]] + Unresolved(pending[1..], addr, size)
  }

  function SetAttached(ts: seq<Tile>, i: nat, attached: bool): seq<Tile>
    requires i < |ts|
  {
    ts[i := ts[i].(attached := attached)]
  }

  // Designated_dataspace_info::attach; a tile that is attached already is left alone.
  function AttachTile(m: MapState, i: nat): MapState
    requires i < |m.tiles|
  {
    if m.tiles[i].attached then m
    else m.(tiles := SetAttached(m.tiles, i, true), pending := Unresolved(m.pending, m.tiles[i].relAddr, m.tiles[i].size))
  }

  function FirstFaulting(ms: seq<MapState>): nat {
    FirstIndex(ms, (m: MapState) => m.pending != [])
  }

  // One call of _handle_fault.  None is the null pointer dereference that happens if no map faults.
  function HandleFault(ms: seq<MapState>): Option<seq<MapState>> {
    var i := FirstFaulting(ms);
    if i == |ms| then None
    else
      var k := FindByAddr(ms[i].tiles, ms[i].pending[0]);
      if k == |ms[i].tiles| then Some(ms) else Some(ms[i := AttachTile(ms[i], k)])
  }

  // The pager's reaction to a signal that stands for n faults.
  function HandleFaults(ms: seq<MapState>, n: nat): Option<seq<MapState>>
    decreases n
  {
    if n == 0 then Some(ms)
    else match HandleFault(ms)
      case None => None
      case Some(ms') => HandleFaults(ms', n - 1)
  }

  // ---- Counting the tiles that are waited for ----

  ghost predicate Awaited(t: Tile, pending: seq<nat>) {
    exists f :: f in pending && Contains(t, f)
  }

  ghost function AwaitedTiles(ts: seq<Tile>, pending: seq<nat>): nat {
    if ts == [] then 0 else (if Awaited(ts[0], pending) then 1 else 0) + AwaitedTiles(ts[1..], pending)
  }

  ghost function AwaitedIn(ms: seq<MapState>): nat {
    if ms == [] then 0 else AwaitedTiles(ms[0].tiles, ms[0].pending) + AwaitedIn(ms[1..])
  }

  lemma {:induction false} OneLessAwaited(ts: seq<Tile>, ts': seq<Tile>, pending: seq<nat>, pending': seq<nat>, k: nat)
    requires |ts'| == |ts|
    requires forall i :: 0 <= i < |ts| && i != k ==> (Awaited(ts[i], pending) <==> Awaited(ts'[i], pending'))
    requires k < |ts| ==> Awaited(ts[k], pending) && !Awaited(ts'[k], pending')
    ensures AwaitedTiles(ts, pending) == AwaitedTiles(ts', pending') + if k < |ts| then 1 else 0
  {
    if ts != [] {
      assert forall i :: 0 <= i < |ts[1..]| ==> ts[1..][i] == ts[i + 1] && ts'[1..][i] == ts'[i + 1];
      OneLessAwaited(ts[1..], ts'[1..], pending, pending', if k == 0 then |ts| else k - 1);
    }
  }

  // Attaching the tile at the oldest waiting address resolves that tile and no other.
  lemma ResolvesOneTile(m: MapState, k: nat)
    requires Sound(m) && m.pending != [] && k < |m.tiles| && Contains(m.tiles[k], m.pending[0])
    ensures !m.tiles[k].attached
    ensures Sound(AttachTile(m, k))
    ensures AwaitedTiles(m.tiles, m.pending) == AwaitedTiles(AttachTile(m, k).tiles, AttachTile(m, k).pending) + 1
  {
    var m' := AttachTile(m, k);
    assert m.pending[0] in m.pending;
    forall i, f | 0 <= i < |m.tiles| && i != k && f in m.pending && Contains(m.tiles[i], f) ensures f in m'.pending {
      ExactlyOneTile(m.tiles, m.size, f);
    }
    forall i | 0 <= i < |m.tiles| && i != k ensures Awaited(m.tiles[i], m.pending) <==> Awaited(m'.tiles[i], m'.pending) {
    }
    OneLessAwaited(m.tiles, m'.tiles, m.pending, m'.pending, k);
    FlagsKeepTiling(m.tiles, m'.tiles, m.size);
  }

  // Only addresses and sizes matter for the tiling.
  lemma {:induction false} FlagsKeepTiling(ts: seq<Tile>, ts': seq<Tile>, total: nat)
    requires Tiled(ts, total) && |ts'| == |ts|
    requires forall i :: 0 <= i < |ts| ==> ts'[i].relAddr == ts[i].relAddr && ts'[i].size == ts[i].size
    ensures Tiled(ts', total)
    decreases ts
  {
    if ts != [] {
      FlagsKeepTiling(ts[1..], ts'[1..], ts[0].relAddr);
    }
  }

  ghost predicate AllSound(ms: seq<MapState>) {
    forall i :: 0 <= i < |ms| ==> Sound(ms[i])
  }

  lemma {:induction false} NoneAwaited(ts: seq<Tile>)
    ensures AwaitedTiles(ts, []) == 0
  {
    if ts != [] {
      NoneAwaited(ts[1..]);
    }
  }

  lemma {:induction false} AwaitedFrom(ms: seq<MapState>, i: nat)
    requires i <= |ms| && forall j :: 0 <= j < i ==> ms[j].pending == []
    ensures AwaitedIn(ms) == AwaitedIn(ms[i..])
  {
    if i > 0 {
      NoneAwaited(ms[0].tiles);
      AwaitedFrom(ms[1..], i - 1);
      assert ms[1..][i - 1..] == ms[i..];
    } else {
      assert ms[0..] == ms;
    }
  }

  // The tile to which a call of _handle_fault leads: that of the oldest waiting address of the
  // first faulting map.
  ghost predicate HandlesTile(ms: seq<MapState>, i: nat, k: nat) {
    && i < |ms| && k < |ms[i].tiles|
    && ms[i].pending != [] && (forall j :: 0 <= j < i ==> ms[j].pending == [])
    && Contains(ms[i].tiles[k], ms[i].pending[0])
  }

  // With a fault to handle, a call attaches exactly the tile the child waits for, and one tile less
  // is awaited; without one, the pager dereferences null.
  lemma HandleFaultResolves(ms: seq<MapState>) returns (i: nat, k: nat)
    requires AllSound(ms)
    ensures HandleFault(ms).Some? <==> AwaitedIn(ms) > 0
    ensures HandleFault(ms).Some? ==>
      && HandlesTile(ms, i, k) && !ms[i].tiles[k].attached
      && HandleFault(ms) == Some(ms[i := AttachTile(ms[i], k)])
      && AllSound(HandleFault(ms).value)
      && AwaitedIn(HandleFault(ms).value) == AwaitedIn(ms) - 1
  {
    i, k := FirstFaulting(ms), 0;
    AwaitedFrom(ms, i);
    if i < |ms| {
      var m := ms[i];
      assert m.pending[0] in m.pending;
      ClosedSearchFindsTile(m.tiles, m.size, m.pending[0]);
      k := FindByAddr(m.tiles, m.pending[0]);
      ResolvesOneTile(m, k);
      var ms' := ms[i := AttachTile(m, k)];
      AwaitedFrom(ms', i);
      assert ms'[i..][1..] == ms[i..][1..];
    }
  }

  // A batch of n signals is handled exactly if at least n tiles are awaited.  Two faults in one tile
  // raise two signals but are resolved together, so n may exceed what is left to handle.
  lemma {:induction false} SignalsHandledIff(ms: seq<MapState>, n: nat)
    requires AllSound(ms)
    ensures HandleFaults(ms, n).Some? <==> n <= AwaitedIn(ms)
    ensures HandleFaults(ms, n).Some? ==>
      AllSound(HandleFaults(ms, n).value) && AwaitedIn(HandleFaults(ms, n).value) == AwaitedIn(ms) - n
    decreases n
  {
    if n > 0 {
      var i, k := HandleFaultResolves(ms);
      if HandleFault(ms).Some? {
        SignalsHandledIff(HandleFault(ms).value, n - 1);
      }
    }
  }

  // Two threads fault in the same tile: the second signal finds nothing to handle.
  lemma TwoFaultsOneTile()
    ensures var m := MapState(4096, [Tile(1, 0, 4096, false)], [0, 8]);
      Sound(m) && HandleFaults([m], 2).None?
  {
    var m := MapState(4096, [Tile(1, 0, 4096, false)], [0, 8]);
    assert Tiled(m.tiles[1..], 0);
    SignalsHandledIff([m], 2);
    assert AwaitedTiles(m.tiles[1..], m.pending) == 0;
    assert AwaitedIn([m][1..]) == 0;
  }

  // ---- The search for the faulting map ----

  // An entry of the session's dataspace list as the search sees it.
  datatype Candidate = Candidate(managed: bool, faulting: bool)

  // Where the search stands after n turns of its loop.  On an unmanaged entry the loop continues
  // without advancing.
  ghost function SearchPos(list: seq<Candidate>, n: nat): (pos: nat)
    ensures pos <= |list|
  {
    if n == 0 then 0
    else
      var pos := SearchPos(list, n - 1);
      if pos == |list| || !list[pos].managed || list[pos].faulting then pos else pos + 1
  }

  ghost predicate SearchEnds(list: seq<Candidate>) {
    exists n :: SearchDone(list, SearchPos(list, n))
  }

  ghost predicate SearchDone(list: seq<Candidate>, pos: nat) {
    pos == |list| || (pos < |list| && list[pos].managed && list[pos].faulting)
  }

  ghost predicate BlockedAt(list: seq<Candidate>, i: nat) {
    i < |list| && !list[i].managed && forall j :: 0 <= j < i ==> list[j].managed && !list[j].faulting
  }

  // The search ends exactly if no unmanaged entry comes before the first faulting one; in a session
  // with a granularity above zero there are no unmanaged entries at all.
  lemma SearchEndsIff(list: seq<Candidate>)
    ensures SearchEnds(list) <==> !exists i :: BlockedAt(list, i)
  {
    var stop := FirstIndex(list, (c: Candidate) => !c.managed || c.faulting);
    SearchReaches(list, stop);
    if stop < |list| && !list[stop].managed {
      assert BlockedAt(list, stop);
      forall n ensures !SearchDone(list, SearchPos(list, n)) {
        SearchStuck(list, stop, n);
      }
    } else {
      assert SearchDone(list, SearchPos(list, stop));
      forall i ensures !BlockedAt(list, i) {
      }
    }
  }

  lemma {:induction false} SearchReaches(list: seq<Candidate>, n: nat)
    requires n <= |list| && forall j :: 0 <= j < n ==> list[j].managed && !list[j].faulting
    ensures SearchPos(list, n) == n
  {
    if n > 0 {
      SearchReaches(list, n - 1);
    }
  }

  lemma {:induction false} SearchStuck(list: seq<Candidate>, i: nat, n: nat)
    requires BlockedAt(list, i)
    ensures SearchPos(list, n) <= i
  {
    if n > 0 {
      SearchStuck(list, i, n - 1);
    }
  }
}
