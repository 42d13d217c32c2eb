// That a restore can get through: a fresh child and a stored state that meet everything asked of them.
module RestoreExample {
  import opened Variants
  import opened InfoList
  import opened RamIdentify
  import opened StoredState
  import opened Translation
  import opened RestoreState

  // A child that has just been bootstrapped, with one dataspace, one signal source and one thread; attached is also
  // a dataspace that it does not own.
  function FreshChild(): Child {
    Child([Node(SessionHead(1, "", "", true), [RamDs(2, 4096, 0, true, true, 0)])],
          [Pd(Node(SessionHead(3, "", "", true),
                   [Node(MapHead(4, 5, 4096, 0, true), [Region(13, 4096, 0, 0x10000, true, true)]),
                    Node(MapHead(6, 7, 4096, 0, true), []), Node(MapHead(8, 9, 4096, 0, true), [])]),
              [10], [])],
          [Node(SessionHead(11, "", "", true), [Thread(12, "main", 3)])],
          [])
  }

  function StoredMaps(): seq<StoredMap> {
    [Node(StoredMapHead(0, 34, true, 4096, 35, 0), [StoredRegion(0, true, 43, Some(91), 4096, 0, 0x10000, true)]),
     Node(StoredMapHead(0, 36, true, 4096, 37, 0), []), Node(StoredMapHead(0, 38, true, 4096, 39, 0), [])]
  }

  // Its predecessor, stored after it had created two threads of the same name, a signal context and a region map.
  function StoredPredecessor(): StoredChild {
    StoredChild([Node(StoredSessionHead(0, 31, true, "", ""), [StoredRamDs(0, 32, true, 90, 4096, 0, true, 5)])],
                [StoredPd(Node(StoredSessionHead(0, 33, true, "", ""), StoredMaps()),
                          [StoredSource(0, 40, true)], [StoredContext(0x5000, 44, 40, 1)])],
                [Node(StoredSessionHead(0, 41, true, "", ""),
                      [StoredThread(0x6000, 45, false, "worker", 33), StoredThread(0x6800, 46, false, "worker", 33),
                       StoredThread(0, 42, true, "main", 33)])],
                [Node(StoredSessionHead(0x7000, 47, false, "", ""), [Node(StoredMapHead(0x8000, 48, false, 4096, 49, 0), [])])])
  }

  // ---- Badges ----

  lemma {:induction false} OnePart(parts: seq<set<nat>>)
    requires |parts| >= 1
    ensures UnionTo(parts, 1) == parts[0]
  {
    assert UnionTo(parts, 1) == UnionTo(parts, 0) + parts[0];
  }

  lemma {:induction false} TwoParts(parts: seq<set<nat>>)
    requires |parts| >= 2
    ensures UnionTo(parts, 2) == parts[0] + parts[1]
  {
    OnePart(parts);
    assert UnionTo(parts, 2) == UnionTo(parts, 1) + parts[1];
  }

  lemma {:induction false} SixParts(parts: seq<set<nat>>)
    requires |parts| == 6
    ensures UnionTo(parts, 6) == parts[0] + parts[1] + parts[2] + parts[3] + parts[4] + parts[5]
  {
    TwoParts(parts);
    assert UnionTo(parts, 3) == UnionTo(parts, 2) + parts[2];
    assert UnionTo(parts, 4) == UnionTo(parts, 3) + parts[3];
    assert UnionTo(parts, 5) == UnionTo(parts, 4) + parts[4];
    assert UnionTo(parts, 6) == UnionTo(parts, 5) + parts[5];
  }

  lemma OneKey<S(!new)>(s: S, key: S -> nat)
    ensures KeysTo([s], key, 1) == {key(s)}
  {
    assert key([s][0]) in KeysTo([s], key, 1);
  }

  lemma ThreeKeys<S(!new)>(a: S, b: S, c: S, key: S -> nat)
    ensures KeysTo([a, b, c], key, 3) == {key(a), key(b), key(c)}
  {
    var s := [a, b, c];
    assert key(s[0]) in KeysTo(s, key, 3) && key(s[1]) in KeysTo(s, key, 3) && key(s[2]) in KeysTo(s, key, 3);
  }

  lemma RamBadges()
    ensures var s, c := StoredPredecessor(), FreshChild();
      RamKeys(s.ram[0]) == [{31}, {32}] && RamOwn(c.ram[0]) == [{1}, {2}]
  {
    var s, c := StoredPredecessor(), FreshChild();
    OneKey(s.ram[0].kids[0], RamDsKey());
    assert c.ram[0].kids[0] in c.ram[0].kids && 2 in DsBadges(c.ram[0].kids);
    assert DsBadges(c.ram[0].kids) == {2};
  }

  lemma PdBadgesAre()
    ensures var s, c := StoredPredecessor(), FreshChild();
      PdKeys(s.pd[0]) == [{33}, {40}, {44}, {34, 35}, {36, 37}, {38, 39}] && PdOwn(c.pd[0]) == [{3}, {10}, {}, {4, 5}, {6, 7}, {8, 9}]
  {
    var s := StoredPredecessor();
    OneKey(s.pd[0].sources[0], SourceKey());
    OneKey(s.pd[0].contexts[0], ContextKey());
  }

  lemma CpuBadges()
    ensures var s, c := StoredPredecessor(), FreshChild();
      CpuParts(s.cpu) == [{41, 45, 46, 42}] && CpuOwnParts(c.cpu, s.cpu) == [{11, 12}]
  {
    var s, c := StoredPredecessor(), FreshChild();
    ThreeKeys(s.cpu[0].kids[0], s.cpu[0].kids[1], s.cpu[0].kids[2], ThreadKey());
    assert CpuKeys(s.cpu[0]) == {41, 45, 46, 42};
    assert c.cpu[0].kids[0] in c.cpu[0].kids && 12 in ThreadBadges(c.cpu[0].kids);
    assert CpuOwn(c.cpu, s.cpu[0]) == {11, 12};
  }

  lemma RmBadges()
    ensures RmParts(StoredPredecessor().rm) == [{47, 48, 49}] && RmListFits(StoredPredecessor().rm)
  {
    var s := StoredPredecessor();
    OnePart(MapParts(s.rm[0].kids));
    assert RmKeys(s.rm[0]) == {47, 48, 49};
    OpenRmListFits(s.rm);
  }

  // ---- Sessions ----

  lemma RamExampleFits(v: Variant)
    ensures var s, c := StoredPredecessor(), FreshChild(); RamListFits(14, s.ram, c.ram) && RamRestorable(v, s.ram, c.ram)
  {
    var s, c := StoredPredecessor(), FreshChild();
    RamBadges();
    assert s.ram[0].kids[0].bootstrapped;
    var es, el := Entries(s.ram[0].kids), LiveEntries(c.ram[0].kids);
    assert es == [Entry(32, 5, true)] && el == [Entry(2, 0, true)];
    assert es[1..] == [] && el[1..] == [] && Stamps(es) == [5] && Stamps(el) == [0];
    OpenChainable(14, RamKeys(s.ram[0]), RamOwn(c.ram[0]));
  }

  lemma PdExampleFits()
    ensures var s, c := StoredPredecessor(), FreshChild(); PdListFits(14, s.pd, c.pd) && PdRestorable({31, 32}, s.pd, c.pd)
  {
    var s, c := StoredPredecessor(), FreshChild();
    PdBadgesAre();
    PartsApart(PdKeys(s.pd[0]), PdOwn(c.pd[0]));
    assert PdFits(14, s.pd[0], c.pd[0]);
    OneKey(s.pd[0].sources[0], SourceKey());
  }

  lemma PartsApart(keys: seq<set<nat>>, own: seq<set<nat>>)
    requires keys == [{33}, {40}, {44}, {34, 35}, {36, 37}, {38, 39}] && own == [{3}, {10}, {}, {4, 5}, {6, 7}, {8, 9}]
    ensures Chainable(14, keys, own)
  {
    OpenChainable(14, keys, own);
  }

  lemma CpuExampleFits()
    ensures var s, c := StoredPredecessor(), FreshChild(); CpuListFits(14, {}, s.cpu, c.cpu, PdBadges(c.pd))
  {
    var s, c := StoredPredecessor(), FreshChild();
    CpuBadges();
    OnePart(CpuParts(s.cpu));
    OpenChainable(14, CpuParts(s.cpu), CpuOwnParts(c.cpu, s.cpu));
    OpenCpuListFits(14, {}, s.cpu, c.cpu, PdBadges(c.pd));
    assert PdBadges(c.pd) == [3] && ThreadBadges(c.cpu[0].kids) == {12};
  }

  lemma Unions()
    ensures var s, c := StoredPredecessor(), FreshChild();
      && UnionTo(RamKeys(s.ram[0]), 2) == {31, 32} && UnionTo(RamOwn(c.ram[0]), 2) == {1, 2}
      && UnionTo(CpuParts(s.cpu), 1) == {41, 45, 46, 42} && UnionTo(CpuOwnParts(c.cpu, s.cpu), 1) == {11, 12}
      && UnionTo(RmParts(s.rm), 1) == {47, 48, 49}
  {
    var s, c := StoredPredecessor(), FreshChild();
    RamBadges();
    CpuBadges();
    RmBadges();
    TwoParts(RamKeys(s.ram[0]));
    TwoParts(RamOwn(c.ram[0]));
    OnePart(CpuParts(s.cpu));
    OnePart(CpuOwnParts(c.cpu, s.cpu));
    OnePart(RmParts(s.rm));
  }

  lemma PdUnions()
    ensures var s, c := StoredPredecessor(), FreshChild();
      && UnionTo(PdKeys(s.pd[0]), 6) == {33, 40, 44, 34, 35, 36, 37, 38, 39} && UnionTo(PdOwn(c.pd[0]), 6) == {3, 10, 4, 5, 6, 7, 8, 9}
  {
    var s, c := StoredPredecessor(), FreshChild();
    PdBadgesAre();
    SixParts(PdKeys(s.pd[0]));
    SixParts(PdOwn(c.pd[0]));
  }

  lemma PhasesFit()
    ensures var s, c := StoredPredecessor(), FreshChild(); Chainable(14, PhaseKeys(s), PhaseOwn(c, s))
  {
    var s, c := StoredPredecessor(), FreshChild();
    Unions();
    PdUnions();
    PhasesApart(PhaseKeys(s), PhaseOwn(c, s));
  }

  lemma PhasesApart(keys: seq<set<nat>>, own: seq<set<nat>>)
    requires keys == [{31, 32}, {33, 40, 44, 34, 35, 36, 37, 38, 39}, {41, 45, 46, 42}, {47, 48, 49}]
    requires own == [{1, 2}, {3, 10, 4, 5, 6, 7, 8, 9}, {11, 12}, {}]
    ensures Chainable(14, keys, own)
  {
    OpenChainable(14, keys, own);
  }

  lemma AllFit(next: nat, c: Child, s: StoredChild)
    requires |c.ram| == |c.pd| == |c.cpu| == 1 && s.ram != [] && s.pd != [] && ThreeMaps(s.pd[0], c.pd[0])
    requires RamListFits(next, s.ram, c.ram) && PdListFits(next, s.pd, c.pd) && CpuListFits(next, {}, s.cpu, c.cpu, PdBadges(c.pd))
    requires RmListFits(s.rm) && Chainable(next, PhaseKeys(s), PhaseOwn(c, s))
    ensures BadgesFit(next, c, s)
  {
  }

  lemma ThreadsFound()
    ensures var s, c := StoredPredecessor(), FreshChild();
      forall k :: 0 <= k < 3 ==> var t := s.cpu[0].kids[k]; if t.bootstrapped then NamedThread(c.cpu[0].kids, t.name) else t.pd == 33
  {
    var c := FreshChild();
    assert c.cpu[0].kids[0] in c.cpu[0].kids && c.cpu[0].kids[0].name == "main";
  }

  // They are well-formed and can be restored.
  lemma PredecessorRestorable(v: Variant)
    ensures BadgesFit(14, FreshChild(), StoredPredecessor()) && Restorable(v, FreshChild(), StoredPredecessor())
  {
    var s, c := StoredPredecessor(), FreshChild();
    RamExampleFits(v);
    PdExampleFits();
    CpuExampleFits();
    RmBadges();
    PhasesFit();
    AllFit(14, c, s);
    Unions();
    ThreadsFound();
    forall i, k | 0 <= i < |s.cpu| && 0 <= k < |s.cpu[i].kids|
      ensures var t := s.cpu[i].kids[k]; if t.bootstrapped then NamedThread(ThreadsFor(c.cpu, s.cpu[i]), t.name) else t.pd == s.pd[0].session.head.badge
    {
      assert i == 0 && ThreadsFor(c.cpu, s.cpu[0]) == c.cpu[0].kids;
    }
  }
}
