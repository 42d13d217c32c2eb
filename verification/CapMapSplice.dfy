// Restorer::_restore_cap_map: the capabilities of recreated objects are written into the child's
// Cap_index array and spliced into its list, from outside, with pointers only the child can use.
module CapMapSplice {
  import opened InfoList
  import opened Memory
  import opened CapMap

  // ---- The list as the child reads it ----

  // Address, in the child, of the Cap_index at idx of the array that starts at base.
  function Address(base: nat, idx: nat): nat {
    base + idx * SLOT_SIZE
  }

  // Following the pointers from path[0] visits path and then reaches null.
  ghost predicate Chain(slots: seq<CapIndex>, base: nat, path: seq<nat>) {
    && 0 < base && 0 < |path|
    && (forall k :: 0 <= k < |path| ==> path[k] < |slots|)
    && (forall k, l :: 0 <= k < l < |path| ==> path[k] != path[l])
    && (forall k :: 0 <= k < |path| - 1 ==> slots[path[k]].next == Address(base, path[k + 1]))
    && slots[path[|path| - 1]].next == 0
  }

  // Cap_index::find_by_id, started at the element idx.  It terminates because the list ends.
  function FindById(slots: seq<CapIndex>, base: nat, idx: nat, id: nat, ghost path: seq<nat>): (r: Option<nat>)
    requires Chain(slots, base, path) && path[0] == idx
    decreases |path|
  {
    if slots[idx].badge == id then Some(idx)
    else if slots[idx].next == 0 then None
    else
      assert |path| > 1 && slots[idx].next == Address(base, path[1]);
      assert Chain(slots, base, path[1..]);
      FindById(slots, base, (slots[idx].next - base) / SLOT_SIZE, id, path[1..])
  }

  ghost predicate Has(slots: seq<CapIndex>, path: seq<nat>, id: nat) {
    exists k :: 0 <= k < |path| && path[k] < |slots| && slots[path[k]].badge == id
  }

  // find_by_id returns the first element of the list with that id.
  lemma {:induction false} FindsFirst(slots: seq<CapIndex>, base: nat, id: nat, path: seq<nat>, k: nat)
    requires Chain(slots, base, path) && k <= |path|
    requires forall j :: 0 <= j < k ==> slots[path[j]].badge != id
    requires k < |path| ==> slots[path[k]].badge == id
    ensures FindById(slots, base, path[0], id, path) == if k < |path| then Some(path[k]) else None
    decreases |path|
  {
    if k > 0 && |path| > 1 {
      assert Chain(slots, base, path[1..]);
      assert forall j :: 0 <= j < k - 1 ==> path[1..][j] == path[j + 1];
      FindsFirst(slots, base, id, path[1..], k - 1);
    }
  }

  // With distinct ids along the list, every id is found where it is.
  lemma {:induction false} FindsEach(slots: seq<CapIndex>, base: nat, path: seq<nat>, k: nat)
    requires Chain(slots, base, path) && k < |path|
    requires forall i, j :: 0 <= i < j < |path| ==> slots[path[i]].badge != slots[path[j]].badge
    ensures FindById(slots, base, path[0], slots[path[k]].badge, path) == Some(path[k])
  {
    FindsFirst(slots, base, slots[path[k]].badge, path, k);
  }

  // ---- The splice ----

  // The first element in the window that points to a successor, or 0.
  ghost function PreviousFrom(slots: seq<CapIndex>, i: nat): nat
    requires |slots| == SLOTS && 0x200 <= i <= 0x280
    decreases 0x280 - i
  {
    if i == 0x280 then 0 else if slots[i].next != 0 then i else PreviousFrom(slots, i + 1)
  }

  ghost function Previous(slots: seq<CapIndex>): nat
    requires |slots| == SLOTS
  {
    PreviousFrom(slots, 0x200)
  }

  lemma {:induction false} PreviousFromIs(slots: seq<CapIndex>, i: nat)
    requires |slots| == SLOTS && 0x200 <= i <= 0x280
    ensures var p := PreviousFrom(slots, i);
      if exists j :: i <= j < 0x280 && slots[j].next != 0
      then i <= p < 0x280 && slots[p].next != 0 && forall j :: i <= j < p ==> slots[j].next == 0
      else p == 0
    decreases 0x280 - i
  {
    if i < 0x280 && slots[i].next == 0 {
      PreviousFromIs(slots, i + 1);
      assert forall j :: i <= j < 0x280 && slots[j].next != 0 ==> i + 1 <= j;
    }
  }

  // previous -> next becomes previous -> idx -> next.
  ghost function SpliceOne(slots: seq<CapIndex>, prev: nat, idx: nat, badge: nat, base: nat): (r: seq<CapIndex>)
    requires prev < |slots| && idx < |slots|
    ensures |r| == |slots|
  {
    var s := slots[idx := slots[idx].(next := slots[prev].next, refCnt := 2, badge := badge % 0x1_0000)];
    s[prev := s[prev].(next := Address(base, idx))]
  }

  // All capabilities in turn; kcap 0 is skipped and a selector outside the array stops the restore.
  ghost function SpliceAll(slots: seq<CapIndex>, prev: nat, infos: seq<CapKcap>, base: nat): (r: (seq<CapIndex>, bool))
    requires |slots| == SLOTS && prev < SLOTS
    ensures |r.0| == SLOTS
    decreases infos
  {
    if infos == [] then (slots, true)
    else if infos[0].kcap == 0 then SpliceAll(slots, prev, infos[1..], base)
    else
      var idx := infos[0].kcap / 0x1000;
      if idx >= SLOTS then (slots, false)
      else SpliceAll(SpliceOne(slots, prev, idx, infos[0].badge, base), idx, infos[1..], base)
  }

  ghost function Splice(slots: seq<CapIndex>, infos: seq<CapKcap>, base: nat): (r: (seq<CapIndex>, bool))
    requires |slots| == SLOTS
    ensures |r.0| == SLOTS
  {
    PreviousFromIs(slots, 0x200);
    SpliceAll(slots, Previous(slots), infos, base)
  }

  // ---- The same on bytes ----

  // Only the array that starts at off has changed.
  ghost predicate SameOutside(m: seq<byte>, m': seq<byte>, off: nat) {
    |m'| == |m| && forall k :: 0 <= k < |m| && !(off <= k < off + ARRAY_SIZE) ==> m'[k] == m[k]
  }

  ghost function PutCapIndex(m: seq<byte>, off: nat, prev: nat, idx: nat, badge: nat, base: nat): (r: seq<byte>)
    requires Fits(m, off) && prev < SLOTS && idx < SLOTS && base + ARRAY_SIZE <= 0x1_0000_0000
    ensures SameOutside(m, r, off) && Slots(r, off) == SpliceOne(Slots(m, off), prev, idx, badge, base)
  {
    var m1 := PutNext(m, off, idx, SlotAt(m, off, prev).next);
    var m2 := PutRefCount(m1, off, idx, 2);
    var m3 := PutBadge(m2, off, idx, badge);
    var r := PutNext(m3, off, prev, Address(base, idx));
    SlotInside(m, m1, off, idx);
    SlotInside(m1, m2, off, idx);
    SlotInside(m2, m3, off, idx);
    SlotInside(m3, r, off, prev);
    r
  }

  lemma SlotInside(m: seq<byte>, m': seq<byte>, off: nat, i: nat)
    requires Fits(m, off) && i < SLOTS && SameButSlot(m, m', off, i)
    ensures SameOutside(m, m', off)
  {
    assert 0 <= i * SLOT_SIZE && i * SLOT_SIZE + SLOT_SIZE <= ARRAY_SIZE;
  }

  ghost function PutAll(m: seq<byte>, off: nat, prev: nat, infos: seq<CapKcap>, base: nat): (r: (seq<byte>, bool))
    requires Fits(m, off) && prev < SLOTS && base + ARRAY_SIZE <= 0x1_0000_0000
    ensures SameOutside(m, r.0, off) && (Slots(r.0, off), r.1) == SpliceAll(Slots(m, off), prev, infos, base)
    decreases infos
  {
    if infos == [] then (m, true)
    else if infos[0].kcap == 0 then PutAll(m, off, prev, infos[1..], base)
    else
      var idx := infos[0].kcap / 0x1000;
      if idx >= SLOTS then (m, false)
      else PutAll(PutCapIndex(m, off, prev, idx, infos[0].badge, base), off, idx, infos[1..], base)
  }

  // The child's array put into m at off, and spliced there.
  ghost function Patched(m: seq<byte>, off: nat, child: seq<byte>, childOff: nat, base: nat, infos: seq<CapKcap>): (r: (seq<byte>, bool))
    requires Fits(m, off) && Fits(child, childOff) && base + ARRAY_SIZE <= 0x1_0000_0000
    ensures SameOutside(m, r.0, off) && (Slots(r.0, off), r.1) == Splice(Slots(child, childOff), infos, base)
  {
    BlitSlots(m, off, child, childOff);
    PreviousFromIs(Slots(child, childOff), 0x200);
    PutAll(Blit(m, off, child[childOff..], ARRAY_SIZE), off, Previous(Slots(child, childOff)), infos, base)
  }

  lemma BlitSlots(m: seq<byte>, off: nat, child: seq<byte>, childOff: nat)
    requires Fits(m, off) && Fits(child, childOff)
    ensures Slots(Blit(m, off, child[childOff..], ARRAY_SIZE), off) == Slots(child, childOff)
  {
    var r := Blit(m, off, child[childOff..], ARRAY_SIZE);
    forall k | off <= k < off + ARRAY_SIZE ensures r[k] == child[childOff + (k - off)] {
      assert r[off + (k - off)] == child[childOff..][k - off];
    }
    SameSlots(r, off, child, childOff);
  }

  // state and child are the stored copy and the child's dataspace; the array starts at stateOff and
  // childOff.  base is the array's address in the child.  ok is false where the original throws.
  method RestoreCapMap(state: array<byte>, stateOff: nat, child: array<byte>, childOff: nat, base: nat, infos: seq<CapKcap>)
    returns (ok: bool)
    requires state != child && Fits(state[..], stateOff) && Fits(child[..], childOff)
    requires base + ARRAY_SIZE <= 0x1_0000_0000
    modifies state
    ensures (state[..], ok) == Patched(old(state[..]), stateOff, child[..], childOff, base, infos)
  {
    BlitSlots(state[..], stateOff, child[..], childOff);
    CopyArray(state, stateOff, child, childOff);
    PreviousFromIs(Slots(state[..], stateOff), 0x200);
    var prev: nat := FindPrevious(state, stateOff);
    ok := SpliceInfos(state, stateOff, prev, infos, base);
  }

  // The loop over the capabilities.
  method SpliceInfos(a: array<byte>, off: nat, first: nat, infos: seq<CapKcap>, base: nat) returns (ok: bool)
    requires Fits(a[..], off) && first < SLOTS && base + ARRAY_SIZE <= 0x1_0000_0000
    modifies a
    ensures (a[..], ok) == PutAll(old(a[..]), off, first, infos, base)
  {
    ghost var all := PutAll(a[..], off, first, infos, base);
    var prev: nat, n := first, 0;
    ok := true;
    while n < |infos|
      invariant 0 <= n <= |infos| && prev < SLOTS && ok
      invariant PutAll(a[..], off, prev, infos[n..], base) == all
    {
      assert infos[n..][1..] == infos[n + 1..];
      if infos[n].kcap != 0 {
        var idx := infos[n].kcap / 0x1000;
        if idx >= SLOTS {
          ok := false;
          return;
        }
        WriteCapIndex(a, off, prev, idx, infos[n].badge, base);
        prev := idx;
      }
      n := n + 1;
    }
  }

  // The element that the pointer p names in a dataspace attached at start: the eight bytes there.
  ghost function ElementAt(m: seq<byte>, start: nat, p: nat): CapIndex
    requires start <= p && p - start + 8 <= |m|
  {
    var k := p - start;
    var b0: nat, b1: nat, b2: nat, b3: nat := m[k], m[k + 1], m[k + 2], m[k + 3];
    var lo: nat, hi: nat := m[k + 6], m[k + 7];
    CapIndex(b0 + 0x100 * b1 + 0x1_0000 * b2 + 0x100_0000 * b3, m[k + 4], m[k + 5], lo + 0x100 * hi)
  }

  // The whole array when its first element lies at address base.
  ghost function ElementsAt(m: seq<byte>, start: nat, base: nat): (s: seq<CapIndex>)
    requires start <= base && base - start + ARRAY_SIZE <= |m|
    ensures |s| == SLOTS && forall i :: 0 <= i < SLOTS ==> s[i] == ElementAt(m, start, base + 8 * i)
  {
    seq(SLOTS, i requires 0 <= i < SLOTS => ElementAt(m, start, base + 8 * i))
  }

  lemma {:induction false} ElementsAreSlots(m: seq<byte>, start: nat, base: nat)
    requires start <= base && base - start + ARRAY_SIZE <= |m|
    ensures ElementsAt(m, start, base) == Slots(m, base - start)
  {
    forall i | 0 <= i < SLOTS ensures ElementAt(m, start, base + 8 * i) == SlotAt(m, base - start, i) {
    }
  }

  // Where the patch goes.  The array starts eight bytes into the allocator, at structAddr + 8 of the child.  The stored
  // copy was attached at some other start, but its offset is computed from childStart, the start of the fresh child's
  // region.
  method RestoreCapMapAt(state: array<byte>, stateAddr: nat, child: array<byte>, childAddr: nat, childStart: nat, infos: seq<CapKcap>)
    returns (ok: bool)
    requires state != child && PatchFitsAt(state.Length, stateAddr, child.Length, childAddr, childStart)
    modifies state
    ensures (state[..], ok) == PatchedAt(old(state[..]), stateAddr, child[..], childAddr, childStart, infos)
    ensures (ElementsAt(state[..], childStart, stateAddr + 8), ok) == Splice(ElementsAt(child[..], childStart, childAddr + 8), infos, childAddr + 8)
    ensures SameBeside(old(state[..]), state[..], childStart, stateAddr + 8)
  {
    ghost var was, from := state[..], child[..];
    ok := RestoreCapMap(state, stateAddr - childStart + 8, child, childAddr - childStart + 8, childAddr + 8, infos);
    ghost var now := state[..];
    assert child[..] == from && (now, ok) == PatchedAt(was, stateAddr, from, childAddr, childStart, infos);
    PatchedElements(was, stateAddr, from, childAddr, childStart, infos);
  }

  // Only the elements of the array at base have changed, seen from the child.
  ghost predicate SameBeside(m: seq<byte>, m': seq<byte>, start: nat, base: nat) {
    |m'| == |m| && forall k :: 0 <= k < |m| && !(base <= start + k < base + 8 * 4096) ==> m'[k] == m[k]
  }

  // Both arrays are inside the dataspaces when these are attached at childStart.
  ghost predicate PatchFitsAt(n: nat, stateAddr: nat, m: nat, childAddr: nat, childStart: nat) {
    && childStart <= childAddr && childStart <= stateAddr
    && childAddr + 8 + ARRAY_SIZE <= childStart + m && stateAddr + 8 + ARRAY_SIZE <= childStart + n
    && childAddr + 8 + ARRAY_SIZE <= 0x1_0000_0000
  }

  ghost function PatchedAt(m: seq<byte>, stateAddr: nat, child: seq<byte>, childAddr: nat, childStart: nat, infos: seq<CapKcap>)
    : (r: (seq<byte>, bool))
    requires PatchFitsAt(|m|, stateAddr, |child|, childAddr, childStart)
    ensures SameOutside(m, r.0, stateAddr - childStart + 8)
  {
    Patched(m, stateAddr - childStart + 8, child, childAddr - childStart + 8, childAddr + 8, infos)
  }

  // Seen through addresses: the array of the fresh child, spliced, stands where the allocator of the stored state lay.
  lemma {:induction false} PatchedElements(m: seq<byte>, stateAddr: nat, child: seq<byte>, childAddr: nat, childStart: nat, infos: seq<CapKcap>)
    requires PatchFitsAt(|m|, stateAddr, |child|, childAddr, childStart)
    ensures var (r, ok) := PatchedAt(m, stateAddr, child, childAddr, childStart, infos);
      && (ElementsAt(r, childStart, stateAddr + 8), ok) == Splice(ElementsAt(child, childStart, childAddr + 8), infos, childAddr + 8)
      && SameBeside(m, r, childStart, stateAddr + 8)
  {
    var r := PatchedAt(m, stateAddr, child, childAddr, childStart, infos).0;
    ElementsAreSlots(child, childStart, childAddr + 8);
    ElementsAreSlots(r, childStart, stateAddr + 8);
  }

  // ---- What the pointers name ----

  // The pointers of a list of the array at base lead from element to element in the memory of the child.
  lemma {:induction false} PointersLead(m: seq<byte>, start: nat, base: nat, path: seq<nat>, k: nat)
    requires start <= base && base - start + ARRAY_SIZE <= |m| && Chain(ElementsAt(m, start, base), base, path) && k < |path|
    ensures var next := ElementAt(m, start, base + 8 * path[k]).next;
      if k + 1 < |path| then next == base + 8 * path[k + 1] && ElementAt(m, start, next) == ElementsAt(m, start, base)[path[k + 1]] else next == 0
  {
  }

  // The dataspace that has been patched, attached at childStart again: what the pointers of the splice are to name.
  ghost predicate PointersHit(m: seq<byte>, stateAddr: nat, child: seq<byte>, childAddr: nat, childStart: nat, infos: seq<CapKcap>)
    requires PatchFitsAt(|m|, stateAddr, |child|, childAddr, childStart) && childAddr + 8 + ARRAY_SIZE <= childStart + |m|
  {
    ElementsAt(PatchedAt(m, stateAddr, child, childAddr, childStart, infos).0, childStart, childAddr + 8)
      == Splice(ElementsAt(child, childStart, childAddr + 8), infos, childAddr + 8).0
  }

  // They name the elements of the splice, for every stored content, if and only if the allocator lies at the same
  // address in the fresh child as in the stored state.
  lemma {:induction false} PointersHitIff(n: nat, stateAddr: nat, child: seq<byte>, childAddr: nat, childStart: nat, infos: seq<CapKcap>)
    requires PatchFitsAt(n, stateAddr, |child|, childAddr, childStart) && childAddr + 8 + ARRAY_SIZE <= childStart + n
    ensures (forall m :: |m| == n ==> PointersHit(m, stateAddr, child, childAddr, childStart, infos)) <==> childAddr == stateAddr
  {
    if childAddr == stateAddr {
      forall m | |m| == n ensures PointersHit(m, stateAddr, child, childAddr, childStart, infos) {
        PatchedElements(m, stateAddr, child, childAddr, childStart, infos);
      }
    } else {
      var slots := Splice(ElementsAt(child, childStart, childAddr + 8), infos, childAddr + 8).0;
      var m := Missed(n, childAddr < stateAddr, slots);
      var r := PatchedAt(m, stateAddr, child, childAddr, childStart, infos).0;
      ElsewhereKept(m, r, stateAddr - childStart + 8, slots, childStart, childAddr + 8);
      assert !PointersHit(m, stateAddr, child, childAddr, childStart, infos);
    }
  }

  // An array that starts at another place than the patch is not the splice, if the content is the one Missed gives.
  lemma {:induction false} ElsewhereKept(m: seq<byte>, r: seq<byte>, at: nat, slots: seq<CapIndex>, start: nat, base: nat)
    requires |slots| == SLOTS && Fits(m, at) && SameOutside(m, r, at)
    requires start <= base && base - start + ARRAY_SIZE <= |m| && base - start != at && m == Missed(|m|, base - start < at, slots)
    ensures ElementsAt(r, start, base) != slots
  {
    ElementsAreSlots(r, start, base);
    EndKept(m, r, at, base - start, slots);
  }

  // ---- Where the stored array was ----

  // The array of the stored state, which was attached at storedStart, becomes the splice of the child's array.
  ghost predicate PatchHits(m: seq<byte>, stateAddr: nat, storedStart: nat, child: seq<byte>, childAddr: nat, childStart: nat, infos: seq<CapKcap>)
    requires PatchFits(|m|, stateAddr, storedStart, child, childAddr, childStart)
  {
    ElementsAt(PatchedAt(m, stateAddr, child, childAddr, childStart, infos).0, storedStart, stateAddr + 8)
      == Splice(ElementsAt(child, childStart, childAddr + 8), infos, childAddr + 8).0
  }

  ghost predicate PatchFits(n: nat, stateAddr: nat, storedStart: nat, child: seq<byte>, childAddr: nat, childStart: nat) {
    && PatchFitsAt(n, stateAddr, |child|, childAddr, childStart)
    && storedStart <= stateAddr && stateAddr + 8 + ARRAY_SIZE <= storedStart + n
  }

  // Whatever the child's array and the capabilities are, this holds for every stored content if and only if the
  // region starts at the same address in both.
  lemma {:induction false} PatchHitsIff(n: nat, stateAddr: nat, storedStart: nat, child: seq<byte>, childAddr: nat, childStart: nat, infos: seq<CapKcap>)
    requires PatchFits(n, stateAddr, storedStart, child, childAddr, childStart)
    ensures (forall m :: |m| == n ==> PatchHits(m, stateAddr, storedStart, child, childAddr, childStart, infos)) <==> childStart == storedStart
  {
    if childStart == storedStart {
      forall m | |m| == n ensures PatchHits(m, stateAddr, storedStart, child, childAddr, childStart, infos) {
        PatchedElements(m, stateAddr, child, childAddr, childStart, infos);
      }
    } else {
      PatchMisses(n, stateAddr, storedStart, child, childAddr, childStart, infos);
    }
  }

  // A stored content for which it does not hold: all bytes are alike, and differ from the byte of the splice at
  // the end of the array that the patch does not reach.
  ghost function Missed(n: nat, low: bool, slots: seq<CapIndex>): (m: seq<byte>)
    requires |slots| == SLOTS
    ensures |m| == n
  {
    var b := if low then slots[0].next % 0x100 else slots[SLOTS - 1].badge / 0x100;
    seq(n, k => if b == 0 then 1 else 0)
  }

  lemma {:induction false} PatchMisses(n: nat, stateAddr: nat, storedStart: nat, child: seq<byte>, childAddr: nat, childStart: nat, infos: seq<CapKcap>)
    requires PatchFits(n, stateAddr, storedStart, child, childAddr, childStart) && childStart != storedStart
    ensures var slots := Splice(ElementsAt(child, childStart, childAddr + 8), infos, childAddr + 8).0;
      !PatchHits(Missed(n, childStart < storedStart, slots), stateAddr, storedStart, child, childAddr, childStart, infos)
  {
    var slots := Splice(ElementsAt(child, childStart, childAddr + 8), infos, childAddr + 8).0;
    var m := Missed(n, childStart < storedStart, slots);
    var r := PatchedAt(m, stateAddr, child, childAddr, childStart, infos).0;
    ElsewhereKept(m, r, stateAddr - childStart + 8, slots, storedStart, stateAddr + 8);
  }

  lemma EndKept(m: seq<byte>, r: seq<byte>, at: nat, off: nat, slots: seq<CapIndex>)
    requires |slots| == SLOTS && Fits(m, at) && Fits(m, off) && SameOutside(m, r, at) && at != off && m == Missed(|m|, off < at, slots)
    ensures Slots(r, off) != slots
  {
    if off < at {
      assert r[off] == m[off];
      FirstByte(r, off);
    } else {
      assert r[off + ARRAY_SIZE - 1] == m[off + ARRAY_SIZE - 1];
      LastByte(r, off);
    }
  }

  lemma FirstByte(m: seq<byte>, off: nat)
    requires Fits(m, off)
    ensures SlotAt(m, off, 0).next % 0x100 == m[off]
  {
    assert Get32(m, off) == m[off] + 0x100 * (m[off + 1] + 0x100 * Get16(m, off + 2));
  }

  lemma LastByte(m: seq<byte>, off: nat)
    requires Fits(m, off)
    ensures SlotAt(m, off, SLOTS - 1).badge / 0x100 == m[off + ARRAY_SIZE - 1]
  {
  }

  // A region that started a page lower when the state was stored.
  lemma ShiftedRegionMissed(child: seq<byte>, infos: seq<CapKcap>)
    requires |child| == 0xb000
    ensures exists m :: |m| == 0xb000 && !PatchHits(m, 0x3000, 0x1000, child, 0x3000, 0x2000, infos)
  {
    PatchMisses(0xb000, 0x3000, 0x1000, child, 0x3000, 0x2000, infos);
  }

  method CopyArray(state: array<byte>, stateOff: nat, child: array<byte>, childOff: nat)
    requires state != child && Fits(state[..], stateOff) && Fits(child[..], childOff)
    modifies state
    ensures state[..] == Blit(old(state[..]), stateOff, child[childOff..], ARRAY_SIZE)
  {
    ghost var m := state[..];
    var i := 0;
    while i < ARRAY_SIZE
      invariant 0 <= i <= ARRAY_SIZE
      invariant forall k :: stateOff <= k < stateOff + i ==> state[k] == child[childOff + (k - stateOff)]
      invariant forall k :: 0 <= k < state.Length && !(stateOff <= k < stateOff + i) ==> state[k] == old(state[k])
    {
      state[stateOff + i] := child[childOff + i];
      i := i + 1;
    }
    ghost var r := Blit(m, stateOff, child[childOff..], ARRAY_SIZE);
    forall k | 0 <= k < |r| ensures state[..][k] == r[k] {
      if stateOff <= k < stateOff + ARRAY_SIZE {
        assert r[stateOff + (k - stateOff)] == child[childOff..][k - stateOff];
      }
    }
  }

  lemma SameSlots(m: seq<byte>, off: nat, m': seq<byte>, off': nat)
    requires Fits(m, off) && Fits(m', off')
    requires forall k :: off <= k < off + ARRAY_SIZE ==> m[k] == m'[off' + (k - off)]
    ensures Slots(m, off) == Slots(m', off')
  {
    forall j | 0 <= j < SLOTS ensures SlotAt(m, off, j) == SlotAt(m', off', j) {
      var p, p' := off + j * SLOT_SIZE, off' + j * SLOT_SIZE;
      assert m[p] == m'[p'] && m[p + 1] == m'[p' + 1] && m[p + 2] == m'[p' + 2] && m[p + 3] == m'[p' + 3];
      assert m[p + 4] == m'[p' + 4] && m[p + 5] == m'[p' + 5] && m[p + 6] == m'[p' + 6] && m[p + 7] == m'[p' + 7];
    }
  }

  method FindPrevious(a: array<byte>, off: nat) returns (prev: nat)
    requires Fits(a[..], off)
    ensures prev == Previous(Slots(a[..], off))
  {
    ghost var slots := Slots(a[..], off);
    prev := 0;
    var i := 0x200;
    while i < 0x280
      invariant 0x200 <= i <= 0x280 && prev == 0
      invariant PreviousFrom(slots, i) == Previous(slots)
    {
      var next := Read32(a, off + i * SLOT_SIZE);
      assert slots[i].next == next;
      if next != 0 {
        prev := i;
        return;
      }
      i := i + 1;
    }
  }

  // The four field writes of one splice.
  method WriteCapIndex(a: array<byte>, off: nat, prev: nat, idx: nat, badge: nat, base: nat)
    requires Fits(a[..], off) && prev < SLOTS && idx < SLOTS && base + ARRAY_SIZE <= 0x1_0000_0000
    modifies a
    ensures a[..] == PutCapIndex(old(a[..]), off, prev, idx, badge, base)
  {
    var next := Read32(a, off + prev * SLOT_SIZE);
    WriteNext(a, off, idx, next);
    WriteRefCount(a, off, idx, 2);
    WriteBadge(a, off, idx, badge);
    WriteNext(a, off, prev, Address(base, idx));
  }

  // What one insertion writes, seen byte by byte: the element at idx takes over the pointer of the previous one, with
  // two references and the badge, its padding stays; the previous one's pointer becomes the address of that element.
  lemma {:induction false} InsertedBytes(m: seq<byte>, off: nat, prev: nat, idx: nat, badge: nat, base: nat, m': seq<byte>)
    requires Fits(m, off) && prev < SLOTS && idx < SLOTS && prev != idx && base + ARRAY_SIZE <= 0x1_0000_0000
    requires m' == PutCapIndex(m, off, prev, idx, badge, base)
    ensures var was, r := ElementsAt(m, 0, off), ElementsAt(m', 0, off);
      && r[idx] == CapIndex(was[prev].next, 2, was[idx].pad, badge % 0x1_0000)
      && r[prev] == was[prev].(next := base + 8 * idx)
      && forall i :: 0 <= i < SLOTS && i != idx && i != prev ==> r[i] == was[i]
  {
    BothElements(m, m', off);
    SplicedOne(Slots(m, off), prev, idx, badge, base);
  }

  lemma {:induction false} BothElements(m: seq<byte>, m': seq<byte>, off: nat)
    requires Fits(m, off) && Fits(m', off)
    ensures ElementsAt(m, 0, off) == Slots(m, off) && ElementsAt(m', 0, off) == Slots(m', off)
  {
    ElementsAreSlots(m, 0, off);
    ElementsAreSlots(m', 0, off);
  }

  lemma {:induction false} SplicedOne(was: seq<CapIndex>, prev: nat, idx: nat, badge: nat, base: nat)
    requires prev < |was| && idx < |was| && prev != idx
    ensures var r := SpliceOne(was, prev, idx, badge, base);
      && r[idx] == CapIndex(was[prev].next, 2, was[idx].pad, badge % 0x1_0000)
      && r[prev] == was[prev].(next := base + 8 * idx)
      && forall i :: 0 <= i < |was| && i != idx && i != prev ==> r[i] == was[i]
  {
  }

  // ---- What the splice does to the list ----

  // The elements written, in order.
  ghost function Targets(infos: seq<CapKcap>): (t: seq<nat>)
    ensures |t| <= |infos|
  {
    if infos == [] then []
    else if infos[0].kcap == 0 then Targets(infos[1..])
    else [infos[0].kcap / 0x1000] + Targets(infos[1..])
  }

  // The elements written are those that the selectors name; selector 0 names none.
  lemma {:induction false} TargetsHas(infos: seq<CapKcap>, i: nat)
    ensures i in Targets(infos) <==> exists e :: e in infos && e.kcap != 0 && e.kcap / 0x1000 == i
  {
    if infos != [] {
      TargetsHas(infos[1..], i);
      assert infos == [infos[0]] + infos[1..];
    }
  }

  // The restore is given up if and only if a selector is beyond the 4096 elements.
  lemma {:induction false} SplicedIff(slots: seq<CapIndex>, prev: nat, infos: seq<CapKcap>, base: nat)
    requires |slots| == SLOTS && prev < SLOTS
    ensures SpliceAll(slots, prev, infos, base).1 <==> forall e :: e in infos ==> e.kcap / 0x1000 < 4096
    decreases infos
  {
    if infos != [] {
      var rest := infos[1..];
      assert infos == [infos[0]] + rest;
      var idx := infos[0].kcap / 0x1000;
      if infos[0].kcap == 0 {
        SplicedIff(slots, prev, rest, base);
      } else if idx < SLOTS {
        SplicedIff(SpliceOne(slots, prev, idx, infos[0].badge, base), idx, rest, base);
      } else {
        assert infos[0] in infos;
      }
    }
  }

  ghost predicate AllDifferent(s: seq<nat>) {
    forall i, j :: 0 <= i < j < |s| ==> s[i] != s[j]
  }

  // Every selector is inside the array and names an element that is not yet in the list, and no
  // two name the same element.
  ghost predicate Placeable(infos: seq<CapKcap>, path: seq<nat>) {
    && AllDifferent(Targets(infos))
    && (forall t :: t in Targets(infos) ==> t < SLOTS && t !in path)
  }

  ghost function Inserted(path: seq<nat>, k: nat, news: seq<nat>): seq<nat>
    requires k < |path|
  {
    path[..k + 1] + news + path[k + 1..]
  }

  lemma SpliceOneChain(slots: seq<CapIndex>, base: nat, path: seq<nat>, k: nat, idx: nat, badge: nat)
    requires Chain(slots, base, path) && k < |path|
    requires idx < |slots| && idx !in path
    ensures Chain(SpliceOne(slots, path[k], idx, badge, base), base, Inserted(path, k, [idx]))
  {
    var r := SpliceOne(slots, path[k], idx, badge, base);
    var p := Inserted(path, k, [idx]);
    assert |p| == |path| + 1;
    forall j | 0 <= j < |p| ensures p[j] == if j <= k then path[j] else if j == k + 1 then idx else path[j - 1] {
    }
    forall j | 0 <= j < |path| && j != k ensures r[path[j]] == slots[path[j]] {
    }
    assert r[path[k]].next == Address(base, idx) && r[idx].next == slots[path[k]].next;
    forall j | 0 <= j < |p| - 1 ensures r[p[j]].next == Address(base, p[j + 1]) {
      if j > k + 1 {
        assert slots[path[j - 1]].next == Address(base, path[j]);
      }
    }
    assert r[p[|p| - 1]].next == 0;
    forall i, j | 0 <= i < j < |p| ensures p[i] != p[j] {
    }
  }

  lemma InsertedTwice(path: seq<nat>, k: nat, idx: nat, t: seq<nat>)
    requires k < |path|
    ensures Inserted(path, k, [idx])[k + 1] == idx
    ensures Inserted(Inserted(path, k, [idx]), k + 1, t) == Inserted(path, k, [idx] + t)
  {
    var p := Inserted(path, k, [idx]);
    assert p[..k + 2] == path[..k + 1] + [idx];
    assert p[k + 2..] == path[k + 1..];
  }

  lemma PlaceableRest(infos: seq<CapKcap>, path: seq<nat>, k: nat)
    requires infos != [] && infos[0].kcap != 0 && Placeable(infos, path) && k < |path|
    ensures infos[0].kcap / 0x1000 < SLOTS && infos[0].kcap / 0x1000 !in path
    ensures Placeable(infos[1..], Inserted(path, k, [infos[0].kcap / 0x1000]))
  {
    var idx, t, all := infos[0].kcap / 0x1000, Targets(infos[1..]), Targets(infos);
    assert all == [idx] + t;
    assert all[0] in all;
    forall x | x in t ensures x < SLOTS && x !in Inserted(path, k, [idx]) {
      var j :| 0 <= j < |t| && t[j] == x;
      assert all[j + 1] == x && all[j + 1] in all && all[0] != all[j + 1];
      InsertedMembers(path, k, idx, x);
    }
    DistinctTail(idx, t);
  }

  lemma DistinctTail(x: nat, t: seq<nat>)
    requires AllDifferent([x] + t)
    ensures x !in t && AllDifferent(t)
  {
    var all := [x] + t;
    forall j | 0 <= j < |t| ensures t[j] != x && t[j] == all[j + 1] {
      assert all[0] != all[j + 1];
    }
    forall i, j | 0 <= i < j < |t| ensures t[i] != t[j] {
      assert all[i + 1] != all[j + 1];
    }
  }

  lemma InsertedMembers(path: seq<nat>, k: nat, idx: nat, x: nat)
    requires k < |path|
    ensures x in Inserted(path, k, [idx]) <==> x == idx || x in path
  {
    assert path == path[..k + 1] + path[k + 1..];
  }

  // Splicing any number of capabilities keeps the list acyclic and null-terminated; the new
  // elements follow the splice point in the order given and the old ones keep theirs.
  lemma {:induction false} SpliceAllChain(slots: seq<CapIndex>, base: nat, path: seq<nat>, k: nat, infos: seq<CapKcap>)
    requires |slots| == SLOTS && Chain(slots, base, path) && k < |path| && Placeable(infos, path)
    ensures SpliceAll(slots, path[k], infos, base).1
    ensures Chain(SpliceAll(slots, path[k], infos, base).0, base, Inserted(path, k, Targets(infos)))
    decreases infos
  {
    if infos == [] {
      assert Inserted(path, k, []) == path;
    } else if infos[0].kcap == 0 {
      SpliceAllChain(slots, base, path, k, infos[1..]);
    } else {
      var idx, rest := infos[0].kcap / 0x1000, infos[1..];
      PlaceableRest(infos, path, k);
      InsertedTwice(path, k, idx, Targets(rest));
      SpliceOneChain(slots, base, path, k, idx, infos[0].badge);
      SpliceAllChain(SpliceOne(slots, path[k], idx, infos[0].badge, base), base, Inserted(path, k, [idx]), k + 1, rest);
    }
  }

  // ---- What the splice does to the elements ----

  ghost predicate SameFields(a: CapIndex, b: CapIndex) {
    a.refCnt == b.refCnt && a.pad == b.pad && a.badge == b.badge
  }

  function Id(info: CapKcap): nat {
    info.badge % 0x1_0000
  }

  // Only the splice point and the elements written change at all, and the splice point keeps
  // everything but its pointer.
  lemma {:induction false} OthersKeep(slots: seq<CapIndex>, prev: nat, infos: seq<CapKcap>, base: nat, i: nat)
    requires |slots| == SLOTS && prev < SLOTS && i < SLOTS && i !in Targets(infos)
    ensures SameFields(SpliceAll(slots, prev, infos, base).0[i], slots[i])
    ensures i != prev ==> SpliceAll(slots, prev, infos, base).0[i] == slots[i]
    decreases infos
  {
    if infos != [] && infos[0].kcap == 0 {
      OthersKeep(slots, prev, infos[1..], base, i);
    } else if infos != [] {
      var idx := infos[0].kcap / 0x1000;
      assert Targets(infos)[0] == idx && Targets(infos)[1..] == Targets(infos[1..]);
      if idx < SLOTS {
        OthersKeep(SpliceOne(slots, prev, idx, infos[0].badge, base), idx, infos[1..], base, i);
      }
    }
  }

  // Every capability is written into the element its selector names.
  lemma {:induction false} EachWritten(slots: seq<CapIndex>, prev: nat, infos: seq<CapKcap>, base: nat, e: CapKcap)
    requires |slots| == SLOTS && prev < SLOTS && e in infos && e.kcap != 0
    requires AllDifferent(Targets(infos)) && forall t :: t in Targets(infos) ==> t < SLOTS
    ensures e.kcap / 0x1000 in Targets(infos)
    ensures var r := SpliceAll(slots, prev, infos, base).0[e.kcap / 0x1000];
      r.badge == Id(e) && r.refCnt == 2
    decreases infos
  {
    var rest, all := infos[1..], Targets(infos);
    assert infos == [infos[0]] + rest;
    if infos[0].kcap == 0 {
      EachWritten(slots, prev, rest, base, e);
    } else {
      var idx, t := infos[0].kcap / 0x1000, Targets(rest);
      assert all == [idx] + t;
      assert all[0] in all;
      DistinctTail(idx, t);
      var s := SpliceOne(slots, prev, idx, infos[0].badge, base);
      if e == infos[0] {
        OthersKeep(s, idx, rest, base, idx);
      } else {
        assert forall x :: x in t ==> x in all;
        EachWritten(s, idx, rest, base, e);
      }
    }
  }

  lemma {:induction false} TargetHasInfo(infos: seq<CapKcap>, t: nat) returns (e: CapKcap)
    requires t in Targets(infos)
    ensures e in infos && e.kcap != 0 && e.kcap / 0x1000 == t
  {
    if infos[0].kcap != 0 && infos[0].kcap / 0x1000 == t {
      e := infos[0];
    } else {
      e := TargetHasInfo(infos[1..], t);
    }
  }

  // Rescanning the array after the splice yields the old pairs that were not overwritten and
  // the new ones, and nothing else.
  lemma {:induction false} ScanAfterSplice(slots: seq<CapIndex>, infos: seq<CapKcap>, base: nat, e: CapKcap)
    requires |slots| == SLOTS
    requires AllDifferent(Targets(infos)) && forall t :: t in Targets(infos) ==> t < SLOTS
    ensures e in Scan(Splice(slots, infos, base).0) <==>
      || (e in Scan(slots) && e.kcap / 0x1000 !in Targets(infos))
      || (exists n :: n in infos && n.kcap != 0 && Id(n) != UNUSED && Id(n) != INVALID_ID
            && e == CapKcap(n.kcap / 0x1000 * 0x1000, Id(n)))
  {
    PreviousFromIs(slots, 0x200);
    var r := Splice(slots, infos, base).0;
    ScanHas(slots, e);
    ScanHas(r, e);
    var i := e.kcap / 0x1000;
    if i in Targets(infos) {
      var n := TargetHasInfo(infos, i);
      EachWritten(slots, Previous(slots), infos, base, n);
      assert r[i].badge == Id(n);
      assert e.kcap % 0x1000 == 0 ==> e.kcap == i * 0x1000;
      forall m | m in infos && m.kcap != 0 && m.kcap / 0x1000 == i ensures Id(m) == Id(n) {
        EachWritten(slots, Previous(slots), infos, base, m);
      }
    } else if i < SLOTS {
      OthersKeep(slots, Previous(slots), infos, base, i);
      forall n | n in infos && n.kcap != 0 ensures n.kcap / 0x1000 != i {
        EachWritten(slots, Previous(slots), infos, base, n);
      }
    } else {
      forall n | n in infos && n.kcap != 0 ensures n.kcap / 0x1000 < SLOTS {
        EachWritten(slots, Previous(slots), infos, base, n);
      }
    }
  }

  // ---- What the child finds ----

  ghost predicate IdsDistinct(slots: seq<CapIndex>, path: seq<nat>) {
    forall i, j :: 0 <= i < j < |path| && path[i] < |slots| && path[j] < |slots| ==> slots[path[i]].badge != slots[path[j]].badge
  }

  // The ids to be installed are new to the list and differ from each other.
  ghost predicate FreshIds(slots: seq<CapIndex>, path: seq<nat>, infos: seq<CapKcap>) {
    && (forall e :: e in infos && e.kcap != 0 ==> !Has(slots, path, Id(e)))
    && (forall e, e' :: e in infos && e' in infos && e.kcap != 0 && e'.kcap != 0 && Id(e) == Id(e') ==> e == e')
  }

  // The state of a child's list that the splice relies on: within the searched window, only
  // linked elements point anywhere.
  ghost predicate WindowLinked(slots: seq<CapIndex>, path: seq<nat>)
    requires |slots| == SLOTS
  {
    forall i :: 0x200 <= i < 0x280 && slots[i].next != 0 ==> i in path
  }

  ghost predicate HasSplicePoint(slots: seq<CapIndex>)
    requires |slots| == SLOTS
  {
    exists i :: 0x200 <= i < 0x280 && slots[i].next != 0
  }

  // With a splice point, the child's find_by_id finds every new capability at the selector it had
  // before, and still finds every capability the fresh child already had.
  lemma CapabilitiesFound(slots: seq<CapIndex>, base: nat, path: seq<nat>, infos: seq<CapKcap>) returns (path': seq<nat>)
    requires |slots| == SLOTS && Chain(slots, base, path) && IdsDistinct(slots, path)
    requires WindowLinked(slots, path) && HasSplicePoint(slots)
    requires Placeable(infos, path) && FreshIds(slots, path, infos)
    ensures Splice(slots, infos, base).1
    ensures var r := Splice(slots, infos, base).0;
      && Chain(r, base, path') && path'[0] == path[0]
      && (forall e :: e in infos && e.kcap != 0 ==> FindById(r, base, path[0], Id(e), path') == Some(e.kcap / 0x1000))
      && (forall k :: 0 <= k < |path| ==> FindById(r, base, path[0], slots[path[k]].badge, path') == Some(path[k]))
    ensures exists k :: 0 <= k < |path| && path' == Inserted(path, k, Targets(infos))
  {
    PreviousFromIs(slots, 0x200);
    var prev := Previous(slots);
    var k :| 0 <= k < |path| && path[k] == prev;
    SpliceAllChain(slots, base, path, k, infos);
    path' := Inserted(path, k, Targets(infos));
    IdsStayDistinct(slots, base, path, k, infos);
    forall e | e in infos && e.kcap != 0
      ensures FindById(Splice(slots, infos, base).0, base, path[0], Id(e), path') == Some(e.kcap / 0x1000)
    {
      NewFound(slots, base, path, k, infos, e);
    }
    forall l | 0 <= l < |path|
      ensures FindById(Splice(slots, infos, base).0, base, path[0], slots[path[l]].badge, path') == Some(path[l])
    {
      OldFound(slots, base, path, k, infos, l);
    }
  }

  lemma {:induction false} NewFound(slots: seq<CapIndex>, base: nat, path: seq<nat>, k: nat, infos: seq<CapKcap>, e: CapKcap)
    requires |slots| == SLOTS && 0 < |path| && k < |path| && path[k] < SLOTS
    requires Placeable(infos, path) && e in infos && e.kcap != 0
    requires var r, path' := SpliceAll(slots, path[k], infos, base).0, Inserted(path, k, Targets(infos));
      Chain(r, base, path') && IdsDistinct(r, path')
    ensures FindById(SpliceAll(slots, path[k], infos, base).0, base, path[0], Id(e), Inserted(path, k, Targets(infos)))
            == Some(e.kcap / 0x1000)
  {
    EachWritten(slots, path[k], infos, base, e);
    var t := Targets(infos);
    var j :| 0 <= j < |t| && t[j] == e.kcap / 0x1000;
    assert Inserted(path, k, t)[k + 1 + j] == t[j];
    FindsEach(SpliceAll(slots, path[k], infos, base).0, base, Inserted(path, k, t), k + 1 + j);
  }

  lemma {:induction false} OldFound(slots: seq<CapIndex>, base: nat, path: seq<nat>, k: nat, infos: seq<CapKcap>, l: nat)
    requires |slots| == SLOTS && l < |path| && k < |path| && path[k] < SLOTS && path[l] < SLOTS
    requires Placeable(infos, path)
    requires var r, path' := SpliceAll(slots, path[k], infos, base).0, Inserted(path, k, Targets(infos));
      Chain(r, base, path') && IdsDistinct(r, path')
    ensures FindById(SpliceAll(slots, path[k], infos, base).0, base, path[0], slots[path[l]].badge, Inserted(path, k, Targets(infos)))
            == Some(path[l])
  {
    OthersKeep(slots, path[k], infos, base, path[l]);
    var m := if l <= k then l else l + |Targets(infos)|;
    assert Inserted(path, k, Targets(infos))[m] == path[l];
    FindsEach(SpliceAll(slots, path[k], infos, base).0, base, Inserted(path, k, Targets(infos)), m);
  }

  lemma {:induction false} IdsStayDistinct(slots: seq<CapIndex>, base: nat, path: seq<nat>, k: nat, infos: seq<CapKcap>)
    requires |slots| == SLOTS && Chain(slots, base, path) && IdsDistinct(slots, path)
    requires Placeable(infos, path) && FreshIds(slots, path, infos) && k < |path|
    ensures IdsDistinct(SpliceAll(slots, path[k], infos, base).0, Inserted(path, k, Targets(infos)))
  {
    var r, t := SpliceAll(slots, path[k], infos, base).0, Targets(infos);
    var p := Inserted(path, k, t);
    forall i, j | 0 <= i < j < |p| && p[i] < |r| && p[j] < |r| ensures r[p[i]].badge != r[p[j]].badge {
      var oi, oj := i <= k || i > k + |t|, j <= k || j > k + |t|;
      if oi { OthersKeep(slots, path[k], infos, base, p[i]); }
      if oj { OthersKeep(slots, path[k], infos, base, p[j]); }
      if !oi {
        assert p[i] == t[i - k - 1];
        var e := TargetHasInfo(infos, p[i]);
        EachWritten(slots, path[k], infos, base, e);
        if oj {
          assert p[j] == path[j - |t|];
          assert !Has(slots, path, Id(e));
        } else {
          assert p[j] == t[j - k - 1];
          var e' := TargetHasInfo(infos, p[j]);
          EachWritten(slots, path[k], infos, base, e');
        }
      } else if !oj {
        assert p[j] == t[j - k - 1];
        var e := TargetHasInfo(infos, p[j]);
        EachWritten(slots, path[k], infos, base, e);
        assert p[i] == path[i];
        assert !Has(slots, path, Id(e));
      } else {
        var i', j' := if i <= k then i else i - |t|, if j <= k then j else j - |t|;
        assert p[i] == path[i'] && p[j] == path[j'];
      }
    }
  }

  lemma {:induction false} ChainUnique(slots: seq<CapIndex>, base: nat, p: seq<nat>, q: seq<nat>, n: nat)
    requires Chain(slots, base, p) && Chain(slots, base, q) && p[0] == q[0]
    requires n <= |p| && n <= |q|
    ensures forall k :: 0 <= k < n ==> p[k] == q[k]
  {
    if n > 1 {
      ChainUnique(slots, base, p, q, n - 1);
      assert slots[p[n - 2]].next == Address(base, p[n - 1]);
      assert slots[q[n - 2]].next == Address(base, q[n - 1]);
    }
  }

  // The new elements become reachable exactly when the window holds a linked element with a
  // successor; otherwise they are hung on element 0, which nobody reaches.
  lemma {:induction false} ReachableIffSplicePoint(slots: seq<CapIndex>, base: nat, path: seq<nat>, infos: seq<CapKcap>)
    requires |slots| == SLOTS && Chain(slots, base, path) && WindowLinked(slots, path) && 0 !in path
    requires Placeable(infos, path) && Targets(infos) != []
    ensures (forall t :: t in Targets(infos) ==>
               exists p :: Chain(Splice(slots, infos, base).0, base, p) && p[0] == path[0] && t in p)
            <==> HasSplicePoint(slots)
  {
    PreviousFromIs(slots, 0x200);
    var prev, r := Previous(slots), Splice(slots, infos, base).0;
    if HasSplicePoint(slots) {
      var k :| 0 <= k < |path| && path[k] == prev;
      SpliceAllChain(slots, base, path, k, infos);
      var p := Inserted(path, k, Targets(infos));
      assert p[0] == path[0] && forall t :: t in Targets(infos) ==> t in p;
    } else {
      forall k | 0 <= k < |path| ensures r[path[k]] == slots[path[k]] {
        OthersKeep(slots, prev, infos, base, path[k]);
      }
      assert Chain(r, base, path);
      var t := Targets(infos)[0];
      assert t in Targets(infos);
      forall p | Chain(r, base, p) && p[0] == path[0] ensures t !in p {
        var n := if |p| < |path| then |p| else |path|;
        ChainUnique(r, base, p, path, n);
        NotLonger(r, base, p, path);
        NotLonger(r, base, path, p);
        assert p == path;
      }
    }
  }

  lemma NotLonger(slots: seq<CapIndex>, base: nat, p: seq<nat>, q: seq<nat>)
    requires Chain(slots, base, p) && Chain(slots, base, q)
    requires forall k :: 0 <= k < |p| && k < |q| ==> p[k] == q[k]
    ensures |p| <= |q|
  {
    forall k | 0 <= k < |p| - 1 ensures slots[p[k]].next > 0 {
      assert slots[p[k]].next == Address(base, p[k + 1]);
    }
    assert slots[q[|q| - 1]].next == 0;
  }
}
