// Which stored states the restorer's matcher can handle: with the shipped fill only those in which bootstrapped
// dataspaces come first, with the intended one those of any checkpoint.
module AnyCheckpoint {
  import opened Variants
  import opened InfoList
  import opened CopyTable
  import opened Reconcile
  import opened ReconcileKeys
  import opened RamIdentify
  import opened StoredState
  import opened StoredStateMirror
  import opened StoredStateRefs
  import opened StoredStateRuns
  import opened RestoreState

  ghost function Elements(s: seq<nat>): set<nat> {
    set x | x in s
  }

  lemma {:induction false} DistinctCount(s: seq<nat>)
    requires forall i, j :: 0 <= i < j < |s| ==> s[i] != s[j]
    ensures |Elements(s)| == |s|
  {
    if s != [] {
      DistinctCount(s[1..]);
      assert s == [s[0]] + s[1..];
      assert Elements(s) == {s[0]} + Elements(s[1..]) && s[0] !in Elements(s[1..]);
    }
  }

  lemma {:induction false} StampCount(list: seq<Entry>)
    requires Distinct(list)
    ensures |Stamps(list)| == |Elements(Stamps(list))|
  {
    StampsDistinct(list);
    DistinctCount(Stamps(list));
  }

  // The live dataspace of a record.
  lemma LiveOf(stored: seq<StoredRamDs>, live: seq<RamDs>, i: nat) returns (k: nat)
    requires Reconciled(RamDsView(), stored, live) && i < |stored|
    ensures k < |live| && DescribesRamDs(stored[i], live[k])
  {
    assert stored[i] in stored && HasKey(RamDsView(), stored, stored[i].badge);
    var l :| l in live && l.badge == stored[i].badge;
    RecordIsCurrent(RamDsView(), stored, live, stored[i], l);
    k :| 0 <= k < |live| && live[k] == l;
  }

  lemma RecordOfLive(stored: seq<StoredRamDs>, live: seq<RamDs>, k: nat) returns (i: nat)
    requires Reconciled(RamDsView(), stored, live) && k < |live|
    ensures i < |stored| && DescribesRamDs(stored[i], live[k])
  {
    assert HasCurrent(RamDsView(), stored, live[k]);
    var s :| s in stored && DescribesRamDs(s, live[k]);
    i :| 0 <= i < |stored| && stored[i] == s;
  }

  // Records that describe a child's dataspaces are as distinct as those, and as many of them are bootstrapped.
  lemma MirrorIsDistinct(stored: seq<StoredRamDs>, live: seq<RamDs>)
    requires Reconciled(RamDsView(), stored, live) && Distinct(LiveEntries(live))
    ensures Distinct(Entries(stored)) && |Stamps(Entries(stored))| == |Stamps(LiveEntries(live))|
  {
    var es, el := Entries(stored), LiveEntries(live);
    forall i, j | 0 <= i < j < |es| ensures es[i].badge != es[j].badge && es[i].timestamp != es[j].timestamp {
      assert RamDsView().key(stored[i]) != RamDsView().key(stored[j]);
      var k := LiveOf(stored, live, i);
      var m := LiveOf(stored, live, j);
      assert el[k].timestamp == es[i].timestamp && el[m].timestamp == es[j].timestamp;
    }
    forall t ensures t in Elements(Stamps(es)) <==> t in Elements(Stamps(el)) {
      StampsHas(es, t);
      StampsHas(el, t);
      SameStamp(stored, live, t);
    }
    assert Elements(Stamps(es)) == Elements(Stamps(el));
    StampCount(es);
    StampCount(el);
  }

  lemma SameStamp(stored: seq<StoredRamDs>, live: seq<RamDs>, t: nat)
    requires Reconciled(RamDsView(), stored, live)
    ensures (exists e :: e in Entries(stored) && e.bootstrapped && e.timestamp == t)
            <==> (exists e :: e in LiveEntries(live) && e.bootstrapped && e.timestamp == t)
  {
    var es, el := Entries(stored), LiveEntries(live);
    if e :| e in es && e.bootstrapped && e.timestamp == t {
      var i :| 0 <= i < |es| && es[i] == e;
      var k := LiveOf(stored, live, i);
      assert el[k] in el && el[k].bootstrapped && el[k].timestamp == t;
    }
    if e :| e in el && e.bootstrapped && e.timestamp == t {
      var k :| 0 <= k < |el| && el[k] == e;
      var i := RecordOfLive(stored, live, k);
      assert es[i] in es && es[i].bootstrapped && es[i].timestamp == t;
    }
  }

  // ---- The intended fill ----

  lemma NoSecond(stored: seq<StoredRamSession>, badge: nat, i: nat)
    requires DistinctKeys(RamView(), stored) && (forall k :: 0 <= k < |stored| ==> stored[k].head.badge == badge) && i < |stored|
    ensures i == 0
  {
    assert RamView().key(stored[0]) == RamView().key(stored[i]);
  }

  lemma OneRecord(stored: seq<StoredRamSession>, live: seq<RamSession>)
    requires Reconciled(RamView(), stored, live) && |live| == 1
    ensures |stored| == 1 && Reconciled(RamDsView(), stored[0].kids, live[0].kids)
  {
    var v := RamView();
    assert live[0] in live && HasCurrent(v, stored, live[0]);
    forall i | 0 <= i < |stored| ensures v.key(stored[i]) == live[0].head.badge {
      assert HasKey(v, stored, v.key(stored[i]));
    }
    NoSecond(stored, live[0].head.badge, |stored| - 1);
    RecordIsCurrent(v, stored, live, stored[0], live[0]);
    assert RamMirrors(stored[0].kids, live[0].kids);
  }

  // After any sequence of checkpoints, whatever the child allocated and freed in between, the matcher with the
  // intended fill succeeds in a fresh child if and only if that has at least as many bootstrapped dataspaces as
  // its predecessor had at the last checkpoint, and there was one.
  lemma {:induction false} AnyCheckpointRestorable(worlds: seq<World>, facts: nat -> RamDs, child: seq<RamDs>)
    requires GoodRun(worlds, facts) && |LastRam(worlds)| == 1 && Distinct(LiveEntries(LastRam(worlds)[0].kids))
    ensures var ram, live := After(worlds).0.ram, LastRam(worlds)[0].kids;
      && |ram| == 1 && Distinct(Entries(ram[0].kids))
      && (RamDsRestorable(Intended, ram[0].kids, child) <==> 0 < |Stamps(LiveEntries(live))| <= |Stamps(LiveEntries(child))|)
  {
    var ram, live := After(worlds).0.ram, LastRam(worlds)[0].kids;
    RamAlwaysMirrors(worlds, facts);
    OneRecord(ram, LastRam(worlds));
    MirrorIsDistinct(ram[0].kids, live);
    BootstrappedIffStamps(ram[0].kids);
  }

  // ---- The shipped fill ----

  // After one allocation between two checkpoints it never does.
  lemma LaterStateNotRestorable(w1: World, w2: World, d: RamDs, child: seq<RamDs>)
    requires |w1.ram| == |w2.ram| == 1 && w2.ram[0].head.badge == w1.ram[0].head.badge && w2.ram[0].kids == [d] + w1.ram[0].kids
    requires YoungestFirst(w2.ram[0].kids) && !d.bootstrapped
    ensures var ram := After([w1, w2]).0.ram; |ram| == 1 && !RamDsRestorable(Shipped, ram[0].kids, child)
  {
    LaterAllocationOverruns(w1, w2, d);
  }
}
