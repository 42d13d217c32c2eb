// Two regions of one dataspace of unknown origin: a checkpoint saves what the first one shows, a restore brings back
// what the last one shows.
module TwoRegions {
  import opened InfoList
  import opened CapMap
  import opened CopyTable
  import opened Reconcile
  import opened StoredState
  import opened RestoreState
  import opened RestoreSessions
  import opened SavedRecords
  import opened RestoreList
  import opened RoundTrip

  ghost predicate TwoOfOne(r1: Region, r2: Region, maps: set<nat>) {
    && r1.dsBadge == r2.dsBadge && r1.dsBadge !in maps
    && !Covers(r1.relAddr, r1.size, r2.relAddr) && !Covers(r2.relAddr, r2.size, r1.relAddr)
  }

  ghost function RecordFor(caps: seq<CapKcap>, r: Region, copy: nat): StoredRegion {
    StoredRegion(KcapOf(caps, r.dsBadge), r.bootstrapped, r.dsBadge, Some(copy), r.size, r.offset, r.relAddr, r.executable)
  }

  // Seen for the first time, they get one copy, of the size of the first one; its record comes last.
  lemma TwoRecorded(caps: seq<CapKcap>, maps: set<nat>, r1: Region, r2: Region)
    requires TwoOfOne(r1, r2, maps)
    ensures Prepare(RegionKind(caps, maps), [], [r1, r2], Copies([], 1))
         == ([RecordFor(caps, r2, 1), RecordFor(caps, r1, 1)], Copies([CopyEntry(r1.dsBadge, 1, r1.size, 2)], 2))
  {
    var kind, live := RegionKind(caps, maps), [r1, r2];
    var s1, s2 := RecordFor(caps, r1, 1), RecordFor(caps, r2, 1);
    var c1, c2 := Copies([CopyEntry(r1.dsBadge, 1, r1.size, 1)], 2), Copies([CopyEntry(r1.dsBadge, 1, r1.size, 2)], 2);
    var none: seq<CopyEntry> := [];
    assert [CopyEntry(r1.dsBadge, 1, r1.size, 1)] + none == c1.table;
    assert AddRef(Copies([], 1), r1.dsBadge, r1.size) == c1;
    assert kind.create(r1, Copies([], 1)) == (s1, c1);
    FoundStored(kind, [], r1, 0);
    assert [s1] + [] == [s1] && Upsert(kind, [], r1, Copies([], 1)) == ([s1], c1);
    OneMoreRef(r1.dsBadge, r1.size, r2.size);
    assert kind.create(r2, c1) == (s2, c2);
    FoundStored(kind, [s1], r2, 1);
    assert Upsert(kind, [s1], r2, c1) == ([s2] + [s1], c2) && [s2] + [s1] == [s2, s1];
    assert live[1..] == [r2] && live[1..][1..] == [];
    assert Pass1(kind, [s2, s1], [], c2) == ([s2, s1], c2);
    assert Pass1(kind, [s1], [r2], c1) == Pass1(kind, [s2, s1], [], c2);
    BothAlive(kind, r1, r2, s1, s2, live, c2);
  }

  lemma OneMoreRef(b: nat, size: nat, size': nat)
    ensures AddRef(Copies([CopyEntry(b, 1, size, 1)], 2), b, size') == Copies([CopyEntry(b, 1, size, 2)], 2)
  {
    var t := [CopyEntry(b, 1, size, 1)];
    assert t[1..] == [] && Lookup(t, b) == Some(t[0]);
  }

  // The stored state of a child with these two attachments.
  ghost function StoredTwo(caps: seq<CapKcap>, r1: Region, r2: Region): StoredChild {
    var head := StoredMapHead(0, 1, true, 0, 2, 0);
    StoredChild([], [StoredPd(Node(StoredSessionHead(0, 3, true, "", ""),
                                   [Node(head, [RecordFor(caps, r2, 1), RecordFor(caps, r1, 1)]), Node(head, []), Node(head, [])]), [], [])], [], [])
  }

  lemma StoredTwoRegions(caps: seq<CapKcap>, r1: Region, r2: Region)
    ensures AllRegions(StoredTwo(caps, r1, r2)) == [RecordFor(caps, r2, 1), RecordFor(caps, r1, 1)]
  {
    var s := StoredTwo(caps, r1, r2);
    var parts := MapRegions(s.pd[0].session.kids);
    assert parts[0] == [RecordFor(caps, r2, 1), RecordFor(caps, r1, 1)] && parts[1] == [] && parts[2] == [];
    assert Joined(parts, 1) == Joined(parts, 0) + parts[0];
    assert Joined(parts, 2) == Joined(parts, 1) + parts[1];
    assert Joined(parts, 3) == Joined(parts, 2) + parts[2];
    assert Joined(RmRegions(s.rm), 0) == [];
  }

  // So what both regions show is reproduced if and only if each ends within the size of either.
  lemma TwoRegionsFitIff(caps: seq<CapKcap>, maps: set<nat>, r1: Region, r2: Region)
    requires TwoOfOne(r1, r2, maps) && r1.dsBadge != 2
    ensures var (stored, c) := Prepare(RegionKind(caps, maps), [], [r1, r2], Copies([], 1));
      var s := StoredTwo(caps, r1, r2);
      && s.pd[0].session.kids[0].kids == stored
      && (WithinCopies(s, c.table) <==>
          (r1.size > 0 ==> r1.offset + r1.size <= r1.size && r1.offset + r1.size <= r2.size)
          && (r2.size > 0 ==> r2.offset + r2.size <= r1.size && r2.offset + r2.size <= r2.size))
  {
    var s, table := StoredTwo(caps, r1, r2), [CopyEntry(r1.dsBadge, 1, r1.size, 2)];
    var s1, s2 := RecordFor(caps, r1, 1), RecordFor(caps, r2, 1);
    TwoRecorded(caps, maps, r1, r2);
    StoredTwoRegions(caps, r1, r2);
    assert AllRegions(s)[0] == s2 && FirstSize(s, r1.dsBadge) == r2.size;
    assert Lookup(table, r1.dsBadge) == Some(table[0]) && SizeOf(table, r1.dsBadge) == r1.size;
    forall q ensures UnknownStored(s, q) <==> q == s1 || q == s2 {
      AllRegionsHas(s, q);
      OnlyShown(caps, r1, r2);
    }
  }

  lemma OnlyShown(caps: seq<CapKcap>, r1: Region, r2: Region)
    requires r1.dsBadge != 2
    ensures var s := StoredTwo(caps, r1, r2); !ShowsMap(s, r1.dsBadge) && forall b :: !RamRecorded(s, b)
  {
    var s := StoredTwo(caps, r1, r2);
    assert forall m :: m in s.pd[0].session.kids ==> m.head.dsBadge == 2;
    assert forall p :: p in s.pd ==> p == s.pd[0];
  }

  // A region of one page in front of one of two pages: the restore would run past the copy.  The other way round the
  // second page is saved and never restored.
  lemma LargerRegionLost(caps: seq<CapKcap>)
    ensures var small, large := Region(6, 0x1000, 0, 0x10000, false, false), Region(6, 0x2000, 0, 0x20000, false, false);
      && !WithinCopies(StoredTwo(caps, small, large), Prepare(RegionKind(caps, {}), [], [small, large], Copies([], 1)).1.table)
      && !WithinCopies(StoredTwo(caps, large, small), Prepare(RegionKind(caps, {}), [], [large, small], Copies([], 1)).1.table)
  {
    var small, large := Region(6, 0x1000, 0, 0x10000, false, false), Region(6, 0x2000, 0, 0x20000, false, false);
    TwoRegionsFitIff(caps, {}, small, large);
    TwoRegionsFitIff(caps, {}, large, small);
  }
}
