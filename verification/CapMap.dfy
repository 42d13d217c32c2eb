// The capability map of a Fiasco.OC component as the monitor sees it: an array of 4096 eight-byte
// Cap_index elements in one of the child's dataspaces, chained into a singly linked list by
// pointers that are addresses of the child.
module CapMap {
  import opened InfoList
  import opened Memory

  const SLOTS := 4096
  const SLOT_SIZE := 8
  const ARRAY_SIZE := 32768
  const UNUSED := 0
  const INVALID_ID := 0xffff

  // 32-bit list pointer, 8-bit reference count, 8-bit padding, 16-bit badge.
  datatype CapIndex = CapIndex(next: nat, refCnt: nat, pad: nat, badge: nat)

  // Kernel selector and the capability to be found there.
  datatype CapKcap = CapKcap(kcap: nat, badge: nat)

  // ---- Bytes ----

  function Get16(m: seq<byte>, pos: nat): (v: nat)
    requires pos + 2 <= |m|
    ensures v < 0x1_0000
  {
    var lo: nat, hi: nat := m[pos], m[pos + 1];
    lo + 0x100 * hi
  }

  function Get32(m: seq<byte>, pos: nat): (v: nat)
    requires pos + 4 <= |m|
    ensures v < 0x1_0000_0000
  {
    Get16(m, pos) + 0x1_0000 * Get16(m, pos + 2)
  }

  lemma LowHigh(v: nat)
    ensures v % 0x100 + 0x100 * (v / 0x100 % 0x100) == v % 0x1_0000
  {
    var a := v / 0x100;
    var lo, mid, hi := v % 0x100, a % 0x100, a / 0x100;
    assert v == 0x100 * a + lo && a == 0x100 * hi + mid;
    assert v == 0x1_0000 * hi + (0x100 * mid + lo);
  }

  ghost function Put16(m: seq<byte>, pos: nat, v: nat): (r: seq<byte>)
    requires pos + 2 <= |m|
    ensures |r| == |m| && Get16(r, pos) == v % 0x1_0000
    ensures forall k :: 0 <= k < |m| && !(pos <= k < pos + 2) ==> r[k] == m[k]
  {
    LowHigh(v);
    m[pos := v % 0x100][pos + 1 := v / 0x100 % 0x100]
  }

  ghost function Put32(m: seq<byte>, pos: nat, v: nat): (r: seq<byte>)
    requires pos + 4 <= |m|
    ensures |r| == |m| && Get32(r, pos) == v % 0x1_0000_0000
    ensures forall k :: 0 <= k < |m| && !(pos <= k < pos + 4) ==> r[k] == m[k]
  {
    Put16(Put16(m, pos, v), pos + 2, v / 0x1_0000)
  }

  method Read16(a: array<byte>, pos: nat) returns (v: nat)
    requires pos + 2 <= a.Length
    ensures v == Get16(a[..], pos)
  {
    var lo: nat, hi: nat := a[pos], a[pos + 1];
    v := lo + 0x100 * hi;
  }

  method Read32(a: array<byte>, pos: nat) returns (v: nat)
    requires pos + 4 <= a.Length
    ensures v == Get32(a[..], pos)
  {
    var lo := Read16(a, pos);
    var hi := Read16(a, pos + 2);
    v := lo + 0x1_0000 * hi;
  }

  method Write16(a: array<byte>, pos: nat, v: nat)
    requires pos + 2 <= a.Length
    modifies a
    ensures a[..] == Put16(old(a[..]), pos, v)
  {
    a[pos] := v % 0x100;
    a[pos + 1] := v / 0x100 % 0x100;
  }

  method Write32(a: array<byte>, pos: nat, v: nat)
    requires pos + 4 <= a.Length
    modifies a
    ensures a[..] == Put32(old(a[..]), pos, v)
  {
    Write16(a, pos, v);
    Write16(a, pos + 2, v / 0x1_0000);
  }

  // ---- Slots ----

  // The array of Cap_index elements that starts at off.
  ghost predicate Fits(m: seq<byte>, off: nat) {
    off + ARRAY_SIZE <= |m|
  }

  function SlotAt(m: seq<byte>, off: nat, i: nat): CapIndex
    requires i < SLOTS && off + ARRAY_SIZE <= |m|
  {
    var pos := off + i * SLOT_SIZE;
    CapIndex(Get32(m, pos), m[pos + 4], m[pos + 5], Get16(m, pos + 6))
  }

  ghost function Slots(m: seq<byte>, off: nat): (s: seq<CapIndex>)
    requires Fits(m, off)
    ensures |s| == SLOTS
    ensures forall i :: 0 <= i < SLOTS ==> s[i] == SlotAt(m, off, i)
  {
    seq(SLOTS, i requires 0 <= i < SLOTS => SlotAt(m, off, i))
  }

  // Outside of slot i the two byte strings agree.
  ghost predicate SameButSlot(m: seq<byte>, m': seq<byte>, off: nat, i: nat) {
    |m'| == |m| && forall k :: 0 <= k < |m| && !(off + i * SLOT_SIZE <= k < off + i * SLOT_SIZE + SLOT_SIZE) ==> m'[k] == m[k]
  }

  // A write inside one slot disturbs no other slot.
  lemma OneSlotChanged(m: seq<byte>, m': seq<byte>, off: nat, i: nat)
    requires Fits(m, off) && i < SLOTS && SameButSlot(m, m', off, i)
    ensures Slots(m', off) == Slots(m, off)[i := SlotAt(m', off, i)]
  {
    forall j | 0 <= j < SLOTS && j != i ensures SlotAt(m', off, j) == SlotAt(m, off, j) {
      assert j * SLOT_SIZE + SLOT_SIZE <= i * SLOT_SIZE || i * SLOT_SIZE + SLOT_SIZE <= j * SLOT_SIZE;
    }
  }

  // The bytes after a write to one field of slot i.
  ghost function PutNext(m: seq<byte>, off: nat, i: nat, next: nat): (r: seq<byte>)
    requires Fits(m, off) && i < SLOTS && next < 0x1_0000_0000
    ensures SameButSlot(m, r, off, i) && Slots(r, off) == Slots(m, off)[i := Slots(m, off)[i].(next := next)]
  {
    var r := Put32(m, off + i * SLOT_SIZE, next);
    OneSlotChanged(m, r, off, i);
    r
  }

  ghost function PutRefCount(m: seq<byte>, off: nat, i: nat, count: byte): (r: seq<byte>)
    requires Fits(m, off) && i < SLOTS
    ensures SameButSlot(m, r, off, i) && Slots(r, off) == Slots(m, off)[i := Slots(m, off)[i].(refCnt := count)]
  {
    var r := m[off + i * SLOT_SIZE + 4 := count];
    OneSlotChanged(m, r, off, i);
    r
  }

  ghost function PutBadge(m: seq<byte>, off: nat, i: nat, badge: nat): (r: seq<byte>)
    requires Fits(m, off) && i < SLOTS
    ensures SameButSlot(m, r, off, i) && Slots(r, off) == Slots(m, off)[i := Slots(m, off)[i].(badge := badge % 0x1_0000)]
  {
    var r := Put16(m, off + i * SLOT_SIZE + 6, badge);
    OneSlotChanged(m, r, off, i);
    r
  }

  method WriteNext(a: array<byte>, off: nat, i: nat, next: nat)
    requires Fits(a[..], off) && i < SLOTS && next < 0x1_0000_0000
    modifies a
    ensures a[..] == PutNext(old(a[..]), off, i, next)
  {
    Write32(a, off + i * SLOT_SIZE, next);
  }

  method WriteRefCount(a: array<byte>, off: nat, i: nat, count: byte)
    requires Fits(a[..], off) && i < SLOTS
    modifies a
    ensures a[..] == PutRefCount(old(a[..]), off, i, count)
  {
    a[off + i * SLOT_SIZE + 4] := count;
  }

  method WriteBadge(a: array<byte>, off: nat, i: nat, badge: nat)
    requires Fits(a[..], off) && i < SLOTS
    modifies a
    ensures a[..] == PutBadge(old(a[..]), off, i, badge)
  {
    Write16(a, off + i * SLOT_SIZE + 6, badge);
  }

  // ---- Scanning ----

  predicate Used(slot: CapIndex) {
    slot.badge != UNUSED && slot.badge != INVALID_ID
  }

  // Entries of the first n slots, the last one in front.
  ghost function ScanUpTo(slots: seq<CapIndex>, n: nat): seq<CapKcap>
    requires n <= |slots|
  {
    if n == 0 then []
    else if Used(slots[n - 1]) then [CapKcap((n - 1) * 0x1000, slots[n - 1].badge)] + ScanUpTo(slots, n - 1)
    else ScanUpTo(slots, n - 1)
  }

  ghost function Scan(slots: seq<CapIndex>): seq<CapKcap> {
    ScanUpTo(slots, |slots|)
  }

  // The scan of Checkpointer::_create_cap_map_infos.
  method CreateCapMapInfos(a: array<byte>, off: nat) returns (result: seq<CapKcap>)
    requires Fits(a[..], off)
    ensures result == Scan(Slots(a[..], off))
  {
    result := [];
    ghost var slots := Slots(a[..], off);
    var curr := off;
    ghost var n := 0;
    while curr < off + ARRAY_SIZE
      invariant 0 <= n <= SLOTS && curr == off + n * SLOT_SIZE
      invariant result == ScanUpTo(slots, n)
    {
      var badge := Read16(a, curr + 6);
      assert slots[n] == SlotAt(a[..], off, n) && slots[n].badge == badge;
      var kcap := (curr - off) / SLOT_SIZE * 0x1000;
      if badge != UNUSED && badge != INVALID_ID {
        result := [CapKcap(kcap, badge)] + result;
      }
      curr := curr + SLOT_SIZE;
      n := n + 1;
    }
  }

  lemma {:induction false} ScanUpToHas(slots: seq<CapIndex>, n: nat, e: CapKcap)
    requires n <= |slots|
    ensures e in ScanUpTo(slots, n) <==>
      exists i :: 0 <= i < n && Used(slots[i]) && e == CapKcap(i * 0x1000, slots[i].badge)
  {
    if n > 0 {
      ScanUpToHas(slots, n - 1, e);
    }
  }

  // A pair is scanned exactly if the slot its selector names is in use and holds its badge; the badges 0 and 0xffff
  // stand for slots that are not.
  lemma ScanHas(slots: seq<CapIndex>, e: CapKcap)
    ensures e in Scan(slots) <==>
      var i := e.kcap / 0x1000;
      e.kcap % 0x1000 == 0 && i < |slots| && slots[i].badge == e.badge && e.badge != 0 && e.badge != 0xffff
  {
    ScanUpToHas(slots, |slots|, e);
    if e.kcap % 0x1000 == 0 && e.kcap / 0x1000 < |slots| {
      assert e.kcap == e.kcap / 0x1000 * 0x1000;
    }
  }

  // Selectors stand in descending order, so each occurs once.
  lemma {:induction false} ScanDescends(slots: seq<CapIndex>, n: nat)
    requires n <= |slots|
    ensures forall i, j :: 0 <= i < j < |ScanUpTo(slots, n)| ==> ScanUpTo(slots, n)[j].kcap < ScanUpTo(slots, n)[i].kcap
    ensures forall e :: e in ScanUpTo(slots, n) ==> e.kcap < n * 0x1000
  {
    if n > 0 {
      ScanDescends(slots, n - 1);
      var rest := ScanUpTo(slots, n - 1);
      assert forall i :: 0 <= i < |rest| ==> rest[i] in rest;
    }
  }
}
