// Designated dataspaces: the tiles that fill a managed dataspace.  A tile that is not attached has
// not been touched since the last checkpoint.
module Tiles {
  import opened InfoList

  const PAGESIZE := 4096
  const WORD := 0x1_0000_0000

  datatype Tile = Tile(cap: nat, relAddr: nat, size: nat, attached: bool)

  // The tiles from the last address down to 0 without gap or overlap.
  ghost predicate Tiled(ts: seq<Tile>, total: nat) {
    if ts == [] then total == 0
    else 0 < ts[0].size && ts[0].relAddr + ts[0].size == total && Tiled(ts[1..], ts[0].relAddr)
  }

  predicate Contains(t: Tile, addr: nat) {
    t.relAddr <= addr < t.relAddr + t.size
  }

  // Designated_dataspace_info::find_by_addr, whose interval includes the end of the tile.
  function FindByAddr(ts: seq<Tile>, addr: nat): nat {
    FirstIndex(ts, (t: Tile) => t.relAddr <= addr <= t.relAddr + t.size)
  }

  lemma {:induction false} TilesBelow(ts: seq<Tile>, total: nat, i: nat)
    requires Tiled(ts, total) && i < |ts|
    ensures 0 < ts[i].size && ts[i].relAddr + ts[i].size <= total
    ensures forall j :: i < j < |ts| ==> ts[j].relAddr + ts[j].size <= ts[i].relAddr
    decreases ts
  {
    if i == 0 {
      forall j | 0 < j < |ts| ensures ts[j].relAddr + ts[j].size <= ts[0].relAddr {
        TilesBelow(ts[1..], ts[0].relAddr, j - 1);
      }
    } else {
      TilesBelow(ts[1..], ts[0].relAddr, i - 1);
      assert forall j :: i < j < |ts| ==> ts[j] == ts[1..][j - 1];
    }
  }

  // Every address below the total lies in exactly one tile.
  lemma {:induction false} ExactlyOneTile(ts: seq<Tile>, total: nat, addr: nat)
    requires Tiled(ts, total)
    ensures addr < total ==> exists i :: 0 <= i < |ts| && Contains(ts[i], addr)
    ensures addr >= total ==> forall i :: 0 <= i < |ts| ==> !Contains(ts[i], addr)
    ensures forall i, j :: 0 <= i < j < |ts| ==> !(Contains(ts[i], addr) && Contains(ts[j], addr))
    decreases ts
  {
    forall i | 0 <= i < |ts| ensures ts[i].relAddr + ts[i].size <= total {
      TilesBelow(ts, total, i);
    }
    forall i, j | 0 <= i < j < |ts| ensures !(Contains(ts[i], addr) && Contains(ts[j], addr)) {
      TilesBelow(ts, total, i);
    }
    if ts != [] && addr < ts[0].relAddr {
      ExactlyOneTile(ts[1..], ts[0].relAddr, addr);
      var i :| 0 <= i < |ts[1..]| && Contains(ts[1..][i], addr);
      assert Contains(ts[i + 1], addr);
    } else if ts != [] && addr < total {
      assert Contains(ts[0], addr);
    }
  }

  // The closed interval of find_by_addr is harmless: the list runs downwards, so at a boundary the
  // upper tile, which really contains the address, is met first.
  lemma {:induction false} ClosedSearchFindsTile(ts: seq<Tile>, total: nat, addr: nat)
    requires Tiled(ts, total)
    ensures addr < total ==> FindByAddr(ts, addr) < |ts| && Contains(ts[FindByAddr(ts, addr)], addr)
    ensures addr == total && ts != [] ==> FindByAddr(ts, addr) == 0
    ensures addr > total ==> FindByAddr(ts, addr) == |ts|
    decreases ts
  {
    var p := (t: Tile) => t.relAddr <= addr <= t.relAddr + t.size;
    if ts != [] && !p(ts[0]) {
      ClosedSearchFindsTile(ts[1..], ts[0].relAddr, addr);
    }
  }

  // ---- Laying out the tiles of a new managed dataspace ----

  function Align(x: nat): (r: nat)
    ensures r % PAGESIZE == 0 && x <= r < x + PAGESIZE
  {
    (x + 4095) / PAGESIZE * PAGESIZE
  }

  // Size of a designated dataspace, computed in the 32-bit size_t of the original.
  function DsSize(granularity: nat): nat {
    PAGESIZE * granularity % WORD
  }

  // The first n whole tiles, the highest in front, all attached; their capabilities are consecutive.
  ghost function WholeTiles(n: nat, dsSize: nat, cap: nat): (ts: seq<Tile>)
    ensures |ts| == n
  {
    if n == 0 then [] else [Tile(cap + n - 1, dsSize * (n - 1), dsSize, true)] + WholeTiles(n - 1, dsSize, cap)
  }

  // The tiles of n whole dataspaces and a rest, with the multiplication already done.
  ghost function TilesOf(n: nat, dsSize: nat, whole: nat, rest: nat, cap: nat): seq<Tile> {
    if rest == 0 then WholeTiles(n, dsSize, cap)
    else [Tile(cap + n, whole, rest, true)] + WholeTiles(n, dsSize, cap)
  }

  function WholeCount(size: nat, dsSize: nat): nat
    requires dsSize > 0
  {
    size / dsSize
  }

  // What the last, smaller dataspace has to hold, in whole pages.
  function RestSize(size: nat, dsSize: nat): nat
    requires dsSize > 0
  {
    Align(size % dsSize)
  }

  ghost function NewTiles(size: nat, dsSize: nat, cap: nat): seq<Tile>
    requires dsSize > 0
  {
    TilesOf(WholeCount(size, dsSize), dsSize, WholeCount(size, dsSize) * dsSize, RestSize(size, dsSize), cap)
  }

  lemma {:induction false} WholeTilesTiled(n: nat, dsSize: nat, cap: nat)
    requires dsSize > 0
    ensures Tiled(WholeTiles(n, dsSize, cap), n * dsSize)
    ensures forall i :: 0 <= i < n ==> var t := WholeTiles(n, dsSize, cap)[i];
      t.attached && t.size == dsSize && t.cap == cap + n - 1 - i
  {
    if n > 0 {
      WholeTilesTiled(n - 1, dsSize, cap);
      assert dsSize * (n - 1) + dsSize == n * dsSize;
      assert WholeTiles(n, dsSize, cap)[1..] == WholeTiles(n - 1, dsSize, cap);
    }
  }

  lemma {:induction false} TilesOfTiled(n: nat, dsSize: nat, whole: nat, rest: nat, cap: nat)
    requires dsSize > 0 && whole == n * dsSize && rest <= dsSize
    ensures var ts := TilesOf(n, dsSize, whole, rest, cap);
      && Tiled(ts, whole + rest)
      && (forall i :: 0 <= i < |ts| ==> ts[i].attached && ts[i].size <= dsSize && ts[i].cap == cap + |ts| - 1 - i)
  {
    WholeTilesTiled(n, dsSize, cap);
    if rest > 0 {
      RestTiled(WholeTiles(n, dsSize, cap), whole, Tile(cap + n, whole, rest, true));
    }
  }

  // For every size and granularity the tiles partition the page-rounded dataspace, are attached,
  // distinct and no larger than 4096 * granularity.
  lemma NewTilesPartition(size: nat, granularity: nat, cap: nat)
    requires DsSize(granularity) > 0
    ensures var ts := NewTiles(size, DsSize(granularity), cap);
      && Tiled(ts, Align(size))
      && (forall i :: 0 <= i < |ts| ==> ts[i].attached && ts[i].size <= PAGESIZE * granularity && ts[i].cap == cap + |ts| - 1 - i)
  {
    DsSizePages(granularity);
    NewTilesTiled(size, DsSize(granularity), cap);
  }

  // The k-th tile from below starts at k times the granularity and is that large, but the last one ends with the
  // dataspace; granularities are counted in pages of 4096 bytes.
  lemma {:induction false} TileIs(size: nat, granularity: nat, cap: nat, k: nat)
    requires 0 < granularity < 0x10_0000
    ensures DsSize(granularity) == 4096 * granularity
    ensures var ts := NewTiles(size, DsSize(granularity), cap); k < |ts| ==>
      var t := ts[|ts| - 1 - k];
      && t.relAddr == 4096 * granularity * k && t.cap == cap + k && t.attached
      && t.size == if t.relAddr + 4096 * granularity <= Align(size) then 4096 * granularity else Align(size) - t.relAddr
  {
    var ds, n := DsSize(granularity), WholeCount(size, DsSize(granularity));
    DsSizePages(granularity);
    AlignSplit(size, ds, n);
    TileOf(n, ds, RestSize(size, ds), cap, k);
    if k < n {
      Below(k + 1, n, ds);
    }
  }

  lemma {:induction false} Below(a: nat, b: nat, d: nat)
    requires a <= b
    ensures a * d <= b * d && (a > 0 ==> a * d == d * (a - 1) + d)
  {
  }

  lemma {:induction false} TileOf(n: nat, ds: nat, rest: nat, cap: nat, k: nat)
    ensures var ts := TilesOf(n, ds, n * ds, rest, cap);
      |ts| == (if rest == 0 then n else n + 1)
      && (k < n ==> ts[|ts| - 1 - k] == Tile(cap + k, ds * k, ds, true)) && (k == n && rest > 0 ==> ts[0] == Tile(cap + n, n * ds, rest, true))
  {
    if k < n {
      WholeTileAt(n, ds, cap, k);
    }
  }

  lemma {:induction false} WholeTileAt(n: nat, ds: nat, cap: nat, k: nat)
    requires k < n
    ensures WholeTiles(n, ds, cap)[n - 1 - k] == Tile(cap + k, ds * k, ds, true)
  {
    if k < n - 1 {
      WholeTileAt(n - 1, ds, cap, k);
    }
  }

  // The size asked for the region map of the tiles, in 32 bits.
  function MapSize(size: nat, dsSize: nat): nat
    requires dsSize > 0
  {
    (WholeCount(size, dsSize) * dsSize % WORD + RestSize(size, dsSize) % WORD) % WORD
  }

  // It is the extent of the tiles unless the last page of a 32-bit address space is touched; then it is 0.
  lemma MapSizeIff(size: nat, granularity: nat)
    requires size < WORD && DsSize(granularity) > 0
    ensures MapSize(size, DsSize(granularity)) == Align(size) <==> size <= WORD - PAGESIZE
    ensures size > WORD - PAGESIZE ==> MapSize(size, DsSize(granularity)) == 0
  {
    var ds, n := DsSize(granularity), WholeCount(size, DsSize(granularity));
    DsSizePages(granularity);
    AlignSplit(size, ds, n);
    WholeBelow(size, ds);
    AlignLast(size);
    WordSum(n * ds, RestSize(size, ds), Align(size));
  }

  lemma WholeBelow(size: nat, ds: nat)
    requires ds > 0
    ensures size / ds * ds <= size
  {
  }

  lemma WordSum(a: nat, b: nat, sum: nat)
    requires a < WORD && b < WORD && sum == a + b <= WORD
    ensures (a % WORD + b % WORD) % WORD == if sum == WORD then 0 else sum
  {
  }

  lemma AlignLast(size: nat)
    requires size < WORD
    ensures if size <= WORD - PAGESIZE then Align(size) < WORD else Align(size) == WORD
  {
  }

  lemma NewTilesTiled(size: nat, ds: nat, cap: nat)
    requires ds > 0 && ds % PAGESIZE == 0
    ensures var ts := NewTiles(size, ds, cap);
      && Tiled(ts, Align(size))
      && (forall i :: 0 <= i < |ts| ==> ts[i].attached && ts[i].size <= ds && ts[i].cap == cap + |ts| - 1 - i)
  {
    var n := WholeCount(size, ds);
    AlignSplit(size, ds, n);
    TilesOfTiled(n, ds, n * ds, RestSize(size, ds), cap);
  }

  lemma RestTiled(ts: seq<Tile>, total: nat, t: Tile)
    requires Tiled(ts, total) && t.relAddr == total && 0 < t.size
    ensures Tiled([t] + ts, total + t.size)
    ensures forall i :: 0 < i <= |ts| ==> ([t] + ts)[i] == ts[i - 1]
  {
    assert ([t] + ts)[1..] == ts;
  }

  lemma DsSizePages(granularity: nat)
    ensures DsSize(granularity) % PAGESIZE == 0 && DsSize(granularity) <= PAGESIZE * granularity
    ensures DsSize(granularity) == 0 <==> granularity % 0x10_0000 == 0
  {
    var q, r := granularity / 0x10_0000, granularity % 0x10_0000;
    assert granularity == 0x10_0000 * q + r;
    assert PAGESIZE * granularity == WORD * q + 4096 * r;
    WordRest(q, 4096 * r);
    PageRest(r);
  }

  lemma WordRest(q: nat, s: nat)
    requires s < WORD
    ensures (WORD * q + s) % WORD == s
  {
  }

  lemma PageRest(r: nat)
    ensures 4096 * r % PAGESIZE == 0
  {
  }

  lemma AlignSplit(size: nat, ds: nat, n: nat)
    requires ds > 0 && ds % PAGESIZE == 0 && n == size / ds
    ensures n * ds + Align(size % ds) == Align(size)
    ensures Align(size % ds) <= ds
  {
    var r, k := size % ds, ds / PAGESIZE;
    assert ds == PAGESIZE * k && size == n * ds + r;
    assert n * ds == PAGESIZE * (n * k);
    var a := (r + 4095) / PAGESIZE;
    assert size + 4095 == PAGESIZE * (n * k) + (r + 4095);
    assert (size + 4095) / PAGESIZE == n * k + a;
    assert PAGESIZE * a <= r + 4095 < PAGESIZE * k + 4095;
    assert a <= k;
  }
}
