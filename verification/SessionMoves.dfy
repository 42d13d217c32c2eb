// Dataspaces that move between region maps of different sessions: when a whole checkpoint keeps their copy, told
// from the stored state and the live child.
module SessionMoves {
  import opened InfoList
  import opened CapMap
  import opened CopyTable
  import opened Reconcile
  import opened ReconcileKeys
  import opened StoredState
  import opened StoredStateMirror
  import opened StoredStateRefs
  import opened StoredBadges
  import opened CopyMoves
  import opened MapMoves

  // ---- The tables met, turn by turn ----

  // The table and the records after i turns of the first loop.
  ghost function AfterTurn<S, L>(kind: Kind<S, L>, stored: seq<S>, live: seq<L>, c: Copies, i: nat): (seq<S>, Copies)
    requires i <= |live|
  {
    Pass1(kind, stored, live[..i], c)
  }

  ghost predicate EntryInTurn<S, L>(kind: Kind<S, L>, met: (S, L, Copies) -> seq<Copies>, stored: seq<S>, live: seq<L>, c: Copies, i: nat, b: nat)
    requires i < |live|
  {
    && InAll(TurnMoments(kind, met, AfterTurn(kind, stored, live, c, i).0, live[i], AfterTurn(kind, stored, live, c, i).1), b)
    && Known(AfterTurn(kind, stored, live, c, i + 1).1, b)
  }

  lemma {:induction false} MomentsByTurn<S, L>(kind: Kind<S, L>, met: (S, L, Copies) -> seq<Copies>, stored: seq<S>, live: seq<L>, c: Copies, b: nat)
    ensures InAll(Moments(kind, met, stored, live, c), b) <==> forall i :: 0 <= i < |live| ==> EntryInTurn(kind, met, stored, live, c, i, b)
    decreases |live|
  {
    if live != [] {
      var (stored', c') := Upsert(kind, stored, live[0], c);
      var rest := live[1..];
      MomentsByTurn(kind, met, stored', rest, c', b);
      InAllParts(TurnMoments(kind, met, stored, live[0], c), c', Moments(kind, met, stored', rest, c'), b);
      assert live[..0] == [] && live[..1] == [live[0]];
      FirstTurn(kind, met, stored, live, c, b);
      forall i | 0 <= i < |rest| ensures EntryInTurn(kind, met, stored', rest, c', i, b) <==> EntryInTurn(kind, met, stored, live, c, i + 1, b) {
        assert live[..i + 1][1..] == rest[..i] && live[..i + 2][1..] == rest[..i + 1];
      }
      if forall i :: 0 <= i < |live| ==> EntryInTurn(kind, met, stored, live, c, i, b) {
        assert EntryInTurn(kind, met, stored, live, c, 0, b);
        forall i | 0 <= i < |rest| ensures EntryInTurn(kind, met, stored', rest, c', i, b) {
          assert EntryInTurn(kind, met, stored, live, c, i + 1, b);
        }
      }
      if InAll(Moments(kind, met, stored, live, c), b) {
        forall i | 0 <= i < |live| ensures EntryInTurn(kind, met, stored, live, c, i, b) {
          if i > 0 {
            assert EntryInTurn(kind, met, stored', rest, c', i - 1, b);
          }
        }
      }
    }
  }

  lemma FirstTurn<S, L>(kind: Kind<S, L>, met: (S, L, Copies) -> seq<Copies>, stored: seq<S>, live: seq<L>, c: Copies, b: nat)
    requires live != []
    ensures var (stored', c') := Upsert(kind, stored, live[0], c);
      EntryInTurn(kind, met, stored, live, c, 0, b) <==> InAll(TurnMoments(kind, met, stored, live[0], c), b) && Known(c', b)
  {
    var (stored', c') := Upsert(kind, stored, live[0], c);
    assert live[..0] == [] && live[..1] == [live[0]] && live[..1][1..] == [];
    assert AfterTurn(kind, stored, live, c, 0) == (stored, c);
    assert Pass1(kind, stored', live[..1][1..], c') == (stored', c');
    assert AfterTurn(kind, stored, live, c, 1) == (stored', c');
  }

  // ---- RAM sessions ----

  ghost predicate SessionHas(s: StoredRamSession, b: nat) {
    exists d :: d in s.kids && d.badge == b
  }

  // Dataspace b is recorded elsewhere, or one of the first i live sessions has it, or a stored session that is not
  // among those records it.
  ghost predicate RamHeld(elsewhere: bool, stored: seq<StoredRamSession>, live: seq<RamSession>, i: nat, b: nat)
    requires i <= |live|
  {
    || elsewhere
    || RamLive(live[..i], b)
    || (exists s :: s in stored && SessionHas(s, b) && !HasLive(RamView(), live[..i], s.head.badge))
  }

  lemma SessionCurrent(s: StoredRamSession, l: RamSession, b: nat)
    requires RamView().current(s, l)
    ensures SessionHas(s, b) <==> exists d :: d in l.kids && d.badge == b
  {
    var w := RamDsView();
    assert RamMirrors(s.kids, l.kids) && Reconciled(w, s.kids, l.kids);
    if d :| d in s.kids && d.badge == b {
      assert w.key(d) == b && HasKey(w, s.kids, b);
      var e :| e in l.kids && w.liveKey(e) == b;
      assert e.badge == b;
    }
    if e :| e in l.kids && e.badge == b {
      assert w.liveKey(e) == b && HasLive(w, l.kids, b);
      var d :| d in s.kids && w.key(d) == b;
      assert d.badge == b && SessionHas(s, b);
    }
  }

  lemma RamRecordedAfter(kind: Kind<StoredRamSession, RamSession>, stored: seq<StoredRamSession>, live: seq<RamSession>, i: nat,
                         r: seq<StoredRamSession>, b: nat)
    requires i <= |live| && Passed(kind, RamView(), stored, live[..i], r)
    ensures RamRecord(r, b) <==> RamHeld(false, stored, live, i, b)
  {
    var v := RamView();
    if RamRecord(r, b) {
      var s, d :| s in r && d in s.kids && d.badge == b;
      assert SessionHas(s, b);
      if HasLive(v, live[..i], s.head.badge) {
        var l :| l in live[..i] && l.head.badge == s.head.badge;
        var t := TheCurrent(v, r, live[..i], s, l);
        SessionCurrent(s, l, b);
      }
    }
    if RamLive(live[..i], b) {
      var l, d :| l in live[..i] && d in l.kids && d.badge == b;
      assert HasCurrent(v, r, l);
      var s :| s in r && v.key(s) == v.liveKey(l) && v.current(s, l);
      SessionCurrent(s, l, b);
    } else if s :| s in stored && SessionHas(s, b) && !HasLive(v, live[..i], s.head.badge) {
      assert s in r;
    }
  }

  // The one record of a live object is the current one.
  lemma TheCurrent<S(!new), L(!new), F(!new)>(v: View<S, L, F>, r: seq<S>, live: seq<L>, s: S, l: L) returns (t: S)
    requires DistinctKeys(v, r) && HasCurrent(v, r, l) && s in r && v.key(s) == v.liveKey(l)
    ensures t == s && v.current(s, l)
  {
    t :| t in r && v.key(t) == v.liveKey(l) && v.current(t, l);
    var i :| 0 <= i < |r| && r[i] == s;
    var j :| 0 <= j < |r| && r[j] == t;
    assert v.key(r[i]) == v.key(r[j]);
  }

  // ---- PD and RM sessions ----

  ghost predicate SessionRecalls(s: StoredRmSession, b: nat) {
    exists m :: m in s.kids && Recalls(m, b)
  }

  // The same for regions.
  ghost predicate Held(elsewhere: bool, stored: seq<StoredRmSession>, live: seq<RmSession>, i: nat, b: nat)
    requires i <= |live|
  {
    || elsewhere
    || RegionLive(live[..i], b)
    || (exists s :: s in stored && SessionRecalls(s, b) && !HasLive(RmView(), live[..i], s.head.badge))
  }

  // While session i is handled, b is held by another session.
  ghost predicate HeldByOthers(elsewhere: bool, stored: seq<StoredRmSession>, live: seq<RmSession>, i: nat, b: nat)
    requires i < |live|
  {
    || elsewhere
    || RegionLive(live[..i], b)
    || (exists s :: s in stored && SessionRecalls(s, b) && !HasLive(RmView(), live[..i + 1], s.head.badge))
  }

  // The record of a session that has been handled recalls what one of its region maps shows.
  lemma HandledRecord(kind: Kind<StoredRmSession, RmSession>, stored: seq<StoredRmSession>, live: seq<RmSession>, r: seq<StoredRmSession>,
                      s: StoredRmSession, l: RmSession, b: nat)
    requires Passed(kind, RmView(), stored, live, r) && s in r && l in live && s.head.badge == l.head.badge
    ensures SessionRecalls(s, b) <==> exists m :: m in l.kids && Shows(m, b)
  {
    assert HasCurrent(RmView(), r, l);
    var t := TheCurrent(RmView(), r, live, s, l);
    MapRecordIffLive(s.kids, l.kids, b);
  }

  lemma RecalledIsHeld(kind: Kind<StoredRmSession, RmSession>, stored: seq<StoredRmSession>, live: seq<RmSession>, r: seq<StoredRmSession>,
                       s: StoredRmSession, b: nat)
    requires Passed(kind, RmView(), stored, live, r) && s in r && SessionRecalls(s, b)
    ensures RegionLive(live, b) || (s in stored && !HasLive(RmView(), live, s.head.badge))
  {
    if HasLive(RmView(), live, s.head.badge) {
      var l :| l in live && l.head.badge == s.head.badge;
      HandledRecord(kind, stored, live, r, s, l, b);
    }
  }

  lemma ShownIsRecalled(kind: Kind<StoredRmSession, RmSession>, stored: seq<StoredRmSession>, live: seq<RmSession>, r: seq<StoredRmSession>, b: nat)
    returns (s: StoredRmSession)
    requires Passed(kind, RmView(), stored, live, r) && RegionLive(live, b)
    ensures s in r && SessionRecalls(s, b) && HasLive(RmView(), live, s.head.badge)
  {
    var l, m :| l in live && m in l.kids && Shows(m, b);
    assert HasCurrent(RmView(), r, l);
    s :| s in r && RmView().key(s) == RmView().liveKey(l) && RmView().current(s, l);
    HandledRecord(kind, stored, live, r, s, l, b);
  }

  lemma RecordedAfter(kind: Kind<StoredRmSession, RmSession>, stored: seq<StoredRmSession>, live: seq<RmSession>, i: nat,
                      r: seq<StoredRmSession>, b: nat)
    requires i <= |live| && Passed(kind, RmView(), stored, live[..i], r)
    ensures RegionRecord(r, b) <==> Held(false, stored, live, i, b)
  {
    if RegionRecord(r, b) {
      var s, m :| s in r && m in s.kids && Recalls(m, b);
      RecalledIsHeld(kind, stored, live[..i], r, s, b);
    }
    if RegionLive(live[..i], b) {
      var s := ShownIsRecalled(kind, stored, live[..i], r, b);
    } else if s :| s in stored && SessionRecalls(s, b) && !HasLive(RmView(), live[..i], s.head.badge) {
      assert s in r;
    }
  }

  // ---- One turn over a PD or RM session ----

  // What a pass over a list of sessions relies on; rest are the references of all other records.
  ghost predicate Passable(maps: set<nat>, managed: set<nat>, stored: seq<StoredRmSession>, live: seq<RmSession>, c: Copies, rest: multiset<nat>) {
    && AllOk(RmAccount(maps, managed), stored, c) && Exact(c, rest + AllRefs(RmAccount(maps, managed), stored), managed)
    && (forall l :: l in live ==> RmAccount(maps, managed).admissible(l))
    && DistinctKeys(RmView(), stored) && DistinctLive(RmView(), live)
    && forall l :: l in live ==> WellFormedMaps(l.kids) && ClearMaps(KidsOf(stored, l.head.badge), l.kids)
  }

  ghost function SessionKind(caps: seq<CapKcap>, maps: set<nat>, pd: bool): Kind<StoredRmSession, RmSession> {
    if pd then PdSessionKind(caps, maps) else RmSessionKind(caps, maps)
  }

  lemma AfterTurns(caps: seq<CapKcap>, maps: set<nat>, managed: set<nat>, pd: bool, stored: seq<StoredRmSession>, live: seq<RmSession>, c: Copies,
                   rest: multiset<nat>, i: nat)
    requires Passable(maps, managed, stored, live, c, rest) && i <= |live|
    ensures var kind, a := SessionKind(caps, maps, pd), RmAccount(maps, managed); var (r, c') := AfterTurn(kind, stored, live, c, i);
      Exact(c', rest + AllRefs(a, r), managed) && AllOk(a, r, c') && Passed(kind, RmView(), stored, live[..i], r)
  {
    RmLawful(caps, maps, managed);
    PdLawful(caps, maps, managed);
    Pass1Exact(SessionKind(caps, maps, pd), RmAccount(maps, managed), stored, live[..i], c, rest);
    RmKeyed(caps, maps);
    RmRefreshes(caps, maps, stored, live[..i]);
    Pass1Keys(SessionKind(caps, maps, pd), RmView(), stored, live[..i], c);
  }

  // AfterTurn i turns the table has an entry exactly if the dataspace is held.
  lemma KnownAfterTurns(caps: seq<CapKcap>, maps: set<nat>, managed: set<nat>, pd: bool, stored: seq<StoredRmSession>, live: seq<RmSession>,
                        c: Copies, rest: multiset<nat>, b: nat, i: nat)
    requires Passable(maps, managed, stored, live, c, rest) && i <= |live| && b !in managed
    ensures Known(AfterTurn(SessionKind(caps, maps, pd), stored, live, c, i).1, b) <==> Held(b in rest, stored, live, i, b)
  {
    var kind := SessionKind(caps, maps, pd);
    var (r, c') := AfterTurn(kind, stored, live, c, i);
    AfterTurns(caps, maps, managed, pd, stored, live, c, rest, i);
    RmRefsHas(maps, managed, r, c', b);
    RecordedAfter(kind, stored, live, i, r, b);
    assert b in rest + AllRefs(RmAccount(maps, managed), r) <==> b in rest || RegionRecord(r, b);
  }

  // AfterTurn each of the region maps of a session b is held, there or elsewhere.
  ghost predicate HeldThere(elsewhere: bool, stored: seq<StoredMap>, live: seq<RegionMap>, b: nat) {
    forall j: nat {:trigger HeldAfter(stored, live, j, multiset{}, b)} :: 0 < j <= |live| ==>
      elsewhere || HeldAfter(stored, live, j, multiset{}, b)
  }

  lemma HeldSplit(stored: seq<StoredMap>, live: seq<RegionMap>, rest: multiset<nat>, b: nat)
    ensures HeldThere(b in rest, stored, live, b) <==> forall j :: 0 < j <= |live| ==> HeldAfter(stored, live, j, rest, b)
  {
    forall j: nat | j <= |live| ensures HeldAfter(stored, live, j, rest, b) <==> b in rest || HeldAfter(stored, live, j, multiset{}, b) {
    }
  }

  // The tables met while the region maps of one session are handled.
  lemma {:induction false} MapTurns(caps: seq<CapKcap>, maps: set<nat>, managed: set<nat>, stored: seq<StoredMap>, live: seq<RegionMap>, c: Copies,
                 rest: multiset<nat>, b: nat)
    requires var a := MapAccount(maps, managed);
      AllOk(a, stored, c) && Exact(c, rest + AllRefs(a, stored), managed) && forall l :: l in live ==> a.admissible(l)
    requires WellFormedMaps(live) && ClearMaps(stored, live) && b !in managed
    ensures InAll(Moments(MapKind(caps, maps), Nothing(), stored, live, c), b) <==> HeldThere(b in rest, stored, live, b)
  {
    EntriesHeld(caps, maps, managed, stored, live, c, rest, b);
    HeldSplit(stored, live, rest, b);
  }

  // The records of the other sessions.
  ghost function Others(r: seq<StoredRmSession>, k: nat): seq<StoredRmSession>
    requires k <= |r|
  {
    if k == |r| then r else r[..k] + r[k + 1..]
  }

  lemma OthersOk(maps: set<nat>, managed: set<nat>, r: seq<StoredRmSession>, k: nat, c: Copies)
    requires k <= |r| && AllOk(RmAccount(maps, managed), r, c)
    ensures AllOk(RmAccount(maps, managed), Others(r, k), c)
    ensures k < |r| ==> AllOk(MapAccount(maps, managed), r[k].kids, c)
  {
    var a, others := RmAccount(maps, managed), Others(r, k);
    forall i | 0 <= i < |others| ensures a.ok(others[i], c) {
      assert others[i] == if i < k then r[i] else r[i + 1];
    }
    assert k < |r| ==> a.ok(r[k], c);
  }

  lemma {:induction false} OthersRefs(maps: set<nat>, managed: set<nat>, r: seq<StoredRmSession>, k: nat)
    requires k < |r|
    ensures AllRefs(RmAccount(maps, managed), r)
         == AllRefs(RmAccount(maps, managed), Others(r, k)) + AllRefs(MapAccount(maps, managed), r[k].kids)
  {
    var a := RmAccount(maps, managed);
    AllRefsSplit(a, r, k);
    RefsAppend(a, r[..k], r[k + 1..]);
  }

  lemma NothingRecalled(elsewhere: bool, seed: seq<StoredMap>, live: seq<RegionMap>, b: nat)
    requires forall i :: 0 <= i < |seed| ==> seed[i].kids == []
    ensures HeldThere(elsewhere, seed, live, b) <==> HeldThere(elsewhere, [], live, b)
  {
    assert forall s :: s in seed ==> !Recalls(s, b);
    forall j: nat | j <= |live| ensures HeldAfter(seed, live, j, multiset{}, b) <==> HeldAfter([], live, j, multiset{}, b) {
    }
  }

  // A new session's record starts with region maps that hold nothing.
  lemma {:induction false} SeedIsEmpty(caps: seq<CapKcap>, maps: set<nat>, managed: set<nat>, pd: bool, l: RmSession, c: Copies, kids: seq<StoredMap>)
    requires kids == SessionKind(caps, maps, pd).create(l, c).0.kids
    ensures forall i :: 0 <= i < |kids| ==> kids[i].kids == []
    ensures AllRefs(MapAccount(maps, managed), kids) == multiset{} && AllOk(MapAccount(maps, managed), kids, c)
  {
    EmptyMapsNoRefs(MapAccount(maps, managed), maps, managed, kids);
  }

  lemma SeedClear(caps: seq<CapKcap>, maps: set<nat>, pd: bool, l: RmSession, c: Copies, kids: seq<StoredMap>)
    requires kids == SessionKind(caps, maps, pd).create(l, c).0.kids && WellFormedMaps(l.kids) && ClearMaps([], l.kids)
    ensures ClearMaps(kids, l.kids)
  {
    if pd {
      SeedIsClear(caps, l);
      assert kids == PdSeed(caps, l);
    } else {
      assert kids == [];
    }
  }

  // What the turn over l starts from: all records and the table.
  ghost predicate TurnStarts(maps: set<nat>, managed: set<nat>, r: seq<StoredRmSession>, l: RmSession, c: Copies, rest: multiset<nat>) {
    && AllOk(RmAccount(maps, managed), r, c) && Exact(c, rest + AllRefs(RmAccount(maps, managed), r), managed)
    && RmAccount(maps, managed).admissible(l) && WellFormedMaps(l.kids)
  }

  // The tables met within the turn over l, if it has a record, the k-th one.
  lemma WithinKnown(caps: seq<CapKcap>, maps: set<nat>, managed: set<nat>, pd: bool, r: seq<StoredRmSession>, l: RmSession, c: Copies,
                    rest: multiset<nat>, b: nat, k: nat)
    requires TurnStarts(maps, managed, r, l, c, rest) && b !in managed && k == FindStored(SessionKind(caps, maps, pd), r, l) < |r|
    requires ClearMaps(r[k].kids, l.kids)
    ensures InAll(TurnMoments(SessionKind(caps, maps, pd), MapMoments(caps, maps), r, l, c), b)
            <==> HeldThere(b in rest || RegionRecord(Others(r, k), b), r[k].kids, l.kids, b)
  {
    var rest' := rest + AllRefs(RmAccount(maps, managed), Others(r, k));
    OthersOk(maps, managed, r, k, c);
    OthersRefs(maps, managed, r, k);
    RmRefsHas(maps, managed, Others(r, k), c, b);
    assert rest' + AllRefs(MapAccount(maps, managed), r[k].kids) == rest + AllRefs(RmAccount(maps, managed), r);
    MapTurns(caps, maps, managed, r[k].kids, l.kids, c, rest', b);
    assert b in rest' <==> b in rest || RegionRecord(Others(r, k), b);
  }

  // If it has none.
  lemma WithinNew(caps: seq<CapKcap>, maps: set<nat>, managed: set<nat>, pd: bool, r: seq<StoredRmSession>, l: RmSession, c: Copies,
                  rest: multiset<nat>, b: nat)
    requires TurnStarts(maps, managed, r, l, c, rest) && b !in managed && FindStored(SessionKind(caps, maps, pd), r, l) == |r|
    requires ClearMaps([], l.kids)
    ensures InAll(TurnMoments(SessionKind(caps, maps, pd), MapMoments(caps, maps), r, l, c), b)
            <==> HeldThere(b in rest || RegionRecord(r, b), [], l.kids, b)
  {
    var kids := SessionKind(caps, maps, pd).create(l, c).0.kids;
    var rest' := rest + AllRefs(RmAccount(maps, managed), r);
    RmRefsHas(maps, managed, r, c, b);
    SeedIsEmpty(caps, maps, managed, pd, l, c, kids);
    SeedClear(caps, maps, pd, l, c, kids);
    assert rest' + multiset{} == rest';
    MapTurns(caps, maps, managed, kids, l.kids, c, rest', b);
    assert b in rest' <==> b in rest || RegionRecord(r, b);
    NothingRecalled(b in rest', kids, l.kids, b);
  }

  // The other records hold what HeldByOthers says.
  lemma OthersHold(kind: Kind<StoredRmSession, RmSession>, stored: seq<StoredRmSession>, live: seq<RmSession>, i: nat, r: seq<StoredRmSession>,
                   k: nat, elsewhere: bool, b: nat)
    requires i < |live| && DistinctLive(RmView(), live) && Passed(kind, RmView(), stored, live[..i], r) && k <= |r|
    requires if k < |r| then r[k].head.badge == live[i].head.badge else forall s :: s in r ==> s.head.badge != live[i].head.badge
    ensures elsewhere || RegionRecord(Others(r, k), b) <==> HeldByOthers(elsewhere, stored, live, i, b)
  {
    var others := Others(r, k);
    OthersAre(r, k, live[i].head.badge);
    LiveUpTo(live, i);
    if RegionRecord(others, b) {
      var s, m :| s in others && m in s.kids && Recalls(m, b);
      RecalledIsHeld(kind, stored, live[..i], r, s, b);
    }
    if RegionLive(live[..i], b) {
      var s := ShownIsRecalled(kind, stored, live[..i], r, b);
      assert s in others;
    } else if s :| s in stored && SessionRecalls(s, b) && !HasLive(RmView(), live[..i + 1], s.head.badge) {
      assert s in r && s in others;
    }
  }

  lemma OthersAre(r: seq<StoredRmSession>, k: nat, badge: nat)
    requires DistinctKeys(RmView(), r) && k <= |r|
    requires if k < |r| then r[k].head.badge == badge else forall s :: s in r ==> s.head.badge != badge
    ensures forall s :: s in Others(r, k) <==> s in r && s.head.badge != badge
  {
    if k < |r| {
      forall s | s in r && s.head.badge != badge ensures s in Others(r, k) {
        var i :| 0 <= i < |r| && r[i] == s;
        assert i < k ==> r[..k][i] == s;
        assert i > k ==> r[k + 1..][i - k - 1] == s;
      }
      forall s | s in Others(r, k) ensures s in r && s.head.badge != badge {
        var i :| 0 <= i < |r| && i != k && r[i] == s;
        assert RmView().key(r[i]) != RmView().key(r[k]);
      }
    }
  }

  lemma LiveUpTo(live: seq<RmSession>, i: nat)
    requires i < |live| && DistinctLive(RmView(), live)
    ensures !HasLive(RmView(), live[..i], live[i].head.badge)
    ensures forall key :: HasLive(RmView(), live[..i + 1], key) <==> HasLive(RmView(), live[..i], key) || key == live[i].head.badge
  {
    var v := RmView();
    assert live[..i + 1] == live[..i] + [live[i]];
    assert live[i] in live[..i + 1] && v.liveKey(live[i]) == live[i].head.badge;
    forall l | l in live[..i] ensures v.liveKey(l) != live[i].head.badge {
      var j :| 0 <= j < i && live[j] == l;
      assert v.liveKey(live[j]) != v.liveKey(live[i]);
    }
  }

  // The region maps that session i starts with.
  lemma {:induction false} KidsFound(kind: Kind<StoredRmSession, RmSession>, stored: seq<StoredRmSession>, live: seq<RmSession>,
                                     i: nat, r: seq<StoredRmSession>, k: nat)
    requires i < |live| && Keyed(kind, RmView()) && DistinctKeys(RmView(), stored) && DistinctLive(RmView(), live)
    requires Passed(kind, RmView(), stored, live[..i], r) && k == FindStored(kind, r, live[i])
    ensures (if k == |r| then [] else r[k].kids) == KidsOf(stored, live[i].head.badge)
    ensures if k < |r| then r[k].head.badge == live[i].head.badge else forall s :: s in r ==> s.head.badge != live[i].head.badge
  {
    LiveUpTo(live, i);
    KidsOfHas(stored, live[i].head.badge);
    assert forall i, j :: 0 <= i < j < |stored| ==> RmView().key(stored[i]) != RmView().key(stored[j]);
    if k < |r| {
      assert r[k] in r && r[k] in stored;
    } else {
      forall s | s in stored ensures s.head.badge != live[i].head.badge {
        assert s.head.badge == live[i].head.badge ==> s in r;
      }
    }
  }

  // Within turn i the entry of b is always there if and only if b is held throughout.
  lemma {:induction false} WithinTurn(caps: seq<CapKcap>, maps: set<nat>, managed: set<nat>, pd: bool, stored: seq<StoredRmSession>, live: seq<RmSession>,
                   c: Copies, rest: multiset<nat>, b: nat, i: nat)
    requires Passable(maps, managed, stored, live, c, rest) && i < |live| && b !in managed
    ensures var kind := SessionKind(caps, maps, pd); var (r, c') := AfterTurn(kind, stored, live, c, i);
      InAll(TurnMoments(kind, MapMoments(caps, maps), r, live[i], c'), b)
      <==> HeldThere(HeldByOthers(b in rest, stored, live, i, b), KidsOf(stored, live[i].head.badge), live[i].kids, b)
  {
    var kind := SessionKind(caps, maps, pd);
    var (r, c') := AfterTurn(kind, stored, live, c, i);
    var k := FindStored(kind, r, live[i]);
    AfterTurns(caps, maps, managed, pd, stored, live, c, rest, i);
    RmKeyed(caps, maps);
    KidsFound(kind, stored, live, i, r, k);
    OthersHold(kind, stored, live, i, r, k, b in rest, b);
    assert live[i] in live;
    if k < |r| {
      WithinKnown(caps, maps, managed, pd, r, live[i], c', rest, b, k);
    } else {
      WithinNew(caps, maps, managed, pd, r, live[i], c', rest, b);
    }
  }

  // ---- A whole pass over sessions ----

  // b is held after every session, and within every session after every region map.
  ghost predicate HeldThroughout(elsewhere: bool, stored: seq<StoredRmSession>, live: seq<RmSession>, b: nat) {
    && (forall i :: 0 <= i <= |live| ==> Held(elsewhere, stored, live, i, b))
    && (forall i :: 0 <= i < |live| ==> HeldInSession(elsewhere, stored, live, i, b))
  }

  ghost predicate HeldInSession(elsewhere: bool, stored: seq<StoredRmSession>, live: seq<RmSession>, i: nat, b: nat)
    requires i < |live|
  {
    HeldThere(HeldByOthers(elsewhere, stored, live, i, b), KidsOf(stored, live[i].head.badge), live[i].kids, b)
  }

  // Turn by turn, from what is held after each turn and within it.
  lemma {:induction false} HeldInTurns<S, L>(kind: Kind<S, L>, met: (S, L, Copies) -> seq<Copies>, stored: seq<S>, live: seq<L>, c: Copies, b: nat,
                          held: nat -> bool, within: nat -> bool)
    requires forall i: nat {:trigger held(i)} :: i <= |live| ==> (Known(AfterTurn(kind, stored, live, c, i).1, b) <==> held(i))
    requires forall i: nat {:trigger within(i)} :: i < |live| ==>
      (InAll(TurnMoments(kind, met, AfterTurn(kind, stored, live, c, i).0, live[i], AfterTurn(kind, stored, live, c, i).1), b) <==> within(i))
    ensures Known(c, b) && InAll(Moments(kind, met, stored, live, c), b)
            <==> (forall i: nat :: i <= |live| ==> held(i)) && (forall i: nat :: i < |live| ==> within(i))
  {
    MomentsByTurn(kind, met, stored, live, c, b);
    assert live[..0] == [] && AfterTurn(kind, stored, live, c, 0) == (stored, c);
    assert Known(c, b) <==> held(0);
    forall i: nat | i < |live| ensures EntryInTurn(kind, met, stored, live, c, i, b) <==> within(i) && held(i + 1) {
    }
    if Known(c, b) && InAll(Moments(kind, met, stored, live, c), b) {
      forall i: nat | i <= |live| ensures held(i) && (i < |live| ==> within(i)) {
        assert i > 0 ==> EntryInTurn(kind, met, stored, live, c, i - 1, b);
        assert i < |live| ==> EntryInTurn(kind, met, stored, live, c, i, b);
      }
    }
    if (forall i: nat :: i <= |live| ==> held(i)) && (forall i: nat :: i < |live| ==> within(i)) {
      assert held(0);
      forall i | 0 <= i < |live| ensures EntryInTurn(kind, met, stored, live, c, i, b) {
        assert within(i) && held(i + 1);
      }
    }
  }

  lemma {:induction false} AllSessions(caps: seq<CapKcap>, maps: set<nat>, managed: set<nat>, pd: bool, stored: seq<StoredRmSession>, live: seq<RmSession>,
                    c: Copies, rest: multiset<nat>, b: nat)
    requires Passable(maps, managed, stored, live, c, rest) && b !in managed
    ensures Known(c, b) && InAll(Moments(SessionKind(caps, maps, pd), MapMoments(caps, maps), stored, live, c), b)
            <==> HeldThroughout(b in rest, stored, live, b)
  {
    var kind, met := SessionKind(caps, maps, pd), MapMoments(caps, maps);
    var held := (i: nat) => i <= |live| && Held(b in rest, stored, live, i, b);
    var within := (i: nat) => i < |live| && HeldInSession(b in rest, stored, live, i, b);
    forall i: nat | i <= |live| ensures Known(AfterTurn(kind, stored, live, c, i).1, b) <==> held(i) {
      KnownAfterTurns(caps, maps, managed, pd, stored, live, c, rest, b, i);
    }
    forall i: nat | i < |live|
      ensures InAll(TurnMoments(kind, met, AfterTurn(kind, stored, live, c, i).0, live[i], AfterTurn(kind, stored, live, c, i).1), b) <==> within(i)
    {
      WithinTurn(caps, maps, managed, pd, stored, live, c, rest, b, i);
    }
    HeldInTurns(kind, met, stored, live, c, b, held, within);
    HeldAsFunctions(b in rest, stored, live, b, held, within);
  }

  lemma HeldAsFunctions(elsewhere: bool, stored: seq<StoredRmSession>, live: seq<RmSession>, b: nat, held: nat -> bool, within: nat -> bool)
    requires forall i: nat :: i <= |live| ==> (held(i) <==> Held(elsewhere, stored, live, i, b))
    requires forall i: nat :: i < |live| ==> (within(i) <==> HeldInSession(elsewhere, stored, live, i, b))
    ensures HeldThroughout(elsewhere, stored, live, b)
            <==> (forall i: nat :: i <= |live| ==> held(i)) && (forall i: nat :: i < |live| ==> within(i))
  {
  }

  lemma {:induction false} RamKnownAfter(w: World, managed: set<nat>, stored: seq<StoredRamSession>, c: Copies, rest: multiset<nat>, b: nat, i: nat)
    requires Admissible(w, managed) && AllOk(RamAccount(managed), stored, c) && Exact(c, rest + AllRefs(RamAccount(managed), stored), managed)
    requires WellFormed(w) && DistinctKeys(RamView(), stored) && (forall l :: l in w.ram ==> SameRamDs(KidsOf(stored, l.head.badge), l.kids))
    requires i <= |w.ram|
    ensures Known(AfterTurn(RamSessionKind(w.caps), stored, w.ram, c, i).1, b) <==> RamHeld(b in rest, stored, w.ram, i, b)
  {
    var kind, a, live := RamSessionKind(w.caps), RamAccount(managed), w.ram[..i];
    var (r, c') := AfterTurn(kind, stored, w.ram, c, i);
    RamLawful(w.caps, managed);
    Pass1Exact(kind, a, stored, live, c, rest);
    RamKeyed(w.caps);
    RamRefreshes(w.caps, stored, live);
    Pass1Keys(kind, RamView(), stored, live, c);
    RamRefsHas(managed, r, b);
    RamRecordedAfter(kind, stored, w.ram, i, r, b);
    assert b in rest + AllRefs(a, r) <==> b in rest || RamRecord(r, b);
  }

  ghost predicate RamHeldThroughout(elsewhere: bool, stored: seq<StoredRamSession>, live: seq<RamSession>, b: nat) {
    forall i :: 0 <= i <= |live| ==> RamHeld(elsewhere, stored, live, i, b)
  }

  lemma {:induction false} AllRamSessions(w: World, managed: set<nat>, stored: seq<StoredRamSession>, c: Copies, rest: multiset<nat>, b: nat)
    requires Admissible(w, managed) && AllOk(RamAccount(managed), stored, c) && Exact(c, rest + AllRefs(RamAccount(managed), stored), managed)
    requires WellFormed(w) && DistinctKeys(RamView(), stored) && (forall l :: l in w.ram ==> SameRamDs(KidsOf(stored, l.head.badge), l.kids))
    ensures Known(c, b) && InAll(Moments(RamSessionKind(w.caps), Nothing(), stored, w.ram, c), b)
            <==> RamHeldThroughout(b in rest, stored, w.ram, b)
  {
    var kind, live, elsewhere := RamSessionKind(w.caps), w.ram, b in rest;
    var held := (i: nat) => i <= |live| && RamHeld(elsewhere, stored, live, i, b);
    forall i: nat | i <= |live| ensures Known(AfterTurn(kind, stored, live, c, i).1, b) <==> held(i) {
      RamKnownAfter(w, managed, stored, c, rest, b, i);
    }
    HeldInTurns(kind, Nothing(), stored, live, c, b, held, (i: nat) => true);
    RamHeldAsFunction(elsewhere, stored, live, b, held);
  }

  lemma RamHeldAsFunction(elsewhere: bool, stored: seq<StoredRamSession>, live: seq<RamSession>, b: nat, held: nat -> bool)
    requires forall i: nat :: i <= |live| ==> (held(i) <==> RamHeld(elsewhere, stored, live, i, b))
    ensures RamHeldThroughout(elsewhere, stored, live, b) <==> forall i: nat :: i <= |live| ==> held(i)
  {
  }

  // ---- A whole checkpoint ----

  // Whether the stored state or the live child holds b throughout a checkpoint: in its pass over RAM sessions, in the
  // one over PD sessions, when the RAM records are new, and in the one over RM sessions, when the PD records are too.
  ghost predicate HeldAllAlong(s: Stored, w: World, b: nat) {
    && RamHeldThroughout(RegionRecord(s.pd, b) || RegionRecord(s.rm, b), s.ram, w.ram, b)
    && HeldThroughout(RamLive(w.ram, b) || RegionRecord(s.rm, b), s.pd, w.pd, b)
    && HeldThroughout(RamLive(w.ram, b) || RegionLive(w.pd, b), s.rm, w.rm, b)
  }

  lemma {:induction false} RamPassHeld(s: Stored, w: World, c: Copies, managed: set<nat>, b: nat)
    requires Consistent(s, c, Maps(w), managed) && Admissible(w, managed) && WellFormed(w) && Clear(s, w) && b !in managed
    ensures Known(c, b) && InAll(Moments(RamSessionKind(w.caps), Nothing(), s.ram, w.ram, c), b)
            <==> RamHeldThroughout(RegionRecord(s.pd, b) || RegionRecord(s.rm, b), s.ram, w.ram, b)
  {
    var m := RmAccount(Maps(w), managed);
    var rest := AllRefs(m, s.pd) + AllRefs(m, s.rm);
    assert rest + AllRefs(RamAccount(managed), s.ram) == StateRefs(s, Maps(w), managed);
    RmRefsHas(Maps(w), managed, s.pd, c, b);
    RmRefsHas(Maps(w), managed, s.rm, c, b);
    AllRamSessions(w, managed, s.ram, c, rest, b);
  }

  lemma {:induction false} PdPassHeld(s: Stored, w: World, c: Copies, managed: set<nat>, b: nat)
    requires Consistent(s, c, Maps(w), managed) && Admissible(w, managed) && WellFormed(w) && b !in managed
    requires Reconciled(RamView(), s.ram, w.ram) && DistinctKeys(RmView(), s.pd)
    requires forall l :: l in w.pd ==> ClearMaps(KidsOf(s.pd, l.head.badge), l.kids)
    ensures Known(c, b) && InAll(Moments(PdSessionKind(w.caps, Maps(w)), MapMoments(w.caps, Maps(w)), s.pd, w.pd, c), b)
            <==> HeldThroughout(RamLive(w.ram, b) || RegionRecord(s.rm, b), s.pd, w.pd, b)
  {
    var a, m := RamAccount(managed), RmAccount(Maps(w), managed);
    var rest := AllRefs(a, s.ram) + AllRefs(m, s.rm);
    assert rest + AllRefs(m, s.pd) == StateRefs(s, Maps(w), managed);
    RamRefsHas(managed, s.ram, b);
    RamRecordIffLive(s.ram, w.ram, b);
    RmRefsHas(Maps(w), managed, s.rm, c, b);
    AllSessions(w.caps, Maps(w), managed, true, s.pd, w.pd, c, rest, b);
  }

  lemma {:induction false} RmPassHeld(s: Stored, w: World, c: Copies, managed: set<nat>, b: nat)
    requires Consistent(s, c, Maps(w), managed) && Admissible(w, managed) && WellFormed(w) && b !in managed
    requires Reconciled(RamView(), s.ram, w.ram) && Reconciled(RmView(), s.pd, w.pd) && DistinctKeys(RmView(), s.rm)
    requires forall l :: l in w.rm ==> ClearMaps(KidsOf(s.rm, l.head.badge), l.kids)
    ensures Known(c, b) && InAll(Moments(RmSessionKind(w.caps, Maps(w)), MapMoments(w.caps, Maps(w)), s.rm, w.rm, c), b)
            <==> HeldThroughout(RamLive(w.ram, b) || RegionLive(w.pd, b), s.rm, w.rm, b)
  {
    var a, m := RamAccount(managed), RmAccount(Maps(w), managed);
    var rest := AllRefs(a, s.ram) + AllRefs(m, s.pd);
    RamRefsHas(managed, s.ram, b);
    RamRecordIffLive(s.ram, w.ram, b);
    RmRefsHas(Maps(w), managed, s.pd, c, b);
    RegionRecordIffLive(s.pd, w.pd, b);
    AllSessions(w.caps, Maps(w), managed, false, s.rm, w.rm, c, rest, b);
  }

  // The passes behind the one over RAM sessions.
  lemma {:induction false} LaterPassesHeld(s: Stored, w: World, c: Copies, managed: set<nat>, b: nat)
    requires Consistent(s, c, Maps(w), managed) && Admissible(w, managed) && WellFormed(w) && b !in managed && Reconciled(RamView(), s.ram, w.ram)
    requires DistinctKeys(RmView(), s.pd) && forall l :: l in w.pd ==> ClearMaps(KidsOf(s.pd, l.head.badge), l.kids)
    requires DistinctKeys(RmView(), s.rm) && forall l :: l in w.rm ==> ClearMaps(KidsOf(s.rm, l.head.badge), l.kids)
    ensures var c2 := Prepare(PdSessionKind(w.caps, Maps(w)), s.pd, w.pd, c).1;
      Known(c, b) && InAll(Moments(PdSessionKind(w.caps, Maps(w)), MapMoments(w.caps, Maps(w)), s.pd, w.pd, c), b)
      && Known(c2, b) && InAll(Moments(RmSessionKind(w.caps, Maps(w)), MapMoments(w.caps, Maps(w)), s.rm, w.rm, c2), b)
      <==> HeldThroughout(RamLive(w.ram, b) || RegionRecord(s.rm, b), s.pd, w.pd, b)
           && HeldThroughout(RamLive(w.ram, b) || RegionLive(w.pd, b), s.rm, w.rm, b)
  {
    var (pd, c2) := Prepare(PdSessionKind(w.caps, Maps(w)), s.pd, w.pd, c);
    PdPhase(s, w, c, managed);
    RmPrepared(w.caps, Maps(w), s.pd, w.pd, c);
    PdPassHeld(s, w, c, managed, b);
    RmPassHeld(s.(pd := pd), w, c2, managed, b);
  }

  // The tables met during a checkpoint all have an entry for b exactly if b is held all along.
  lemma EntryAllAlongIff(s: Stored, w: World, c: Copies, managed: set<nat>, b: nat)
    requires Consistent(s, c, Maps(w), managed) && Admissible(w, managed) && WellFormed(w) && Clear(s, w) && b !in managed
    ensures Known(c, b) && InAll(CheckpointMoments(s, w, c), b) <==> HeldAllAlong(s, w, b)
  {
    var maps := Maps(w);
    var (ram, c1) := Prepare(RamSessionKind(w.caps), s.ram, w.ram, c);
    var c2 := Prepare(PdSessionKind(w.caps, maps), s.pd, w.pd, c1).1;
    RamPhase(s, w, c, managed);
    RamPrepared(w.caps, s.ram, w.ram, c);
    RamPassHeld(s, w, c, managed, b);
    LaterPassesHeld(s.(ram := ram), w, c1, managed, b);
    var m1 := Moments(RamSessionKind(w.caps), Nothing(), s.ram, w.ram, c);
    var m2 := Moments(PdSessionKind(w.caps, maps), MapMoments(w.caps, maps), s.pd, w.pd, c1);
    var m3 := Moments(RmSessionKind(w.caps, maps), MapMoments(w.caps, maps), s.rm, w.rm, c2);
    InAllParts(m1, c1, m2, b);
    InAllParts(m1 + [c1] + m2, c2, m3, b);
  }

  // A dataspace that is recorded before a checkpoint and saved by it keeps its copy if and only if the lists hold it
  // all along, whatever sessions and region maps it moves between.
  lemma CheckpointKeepsCopyIff(s: Stored, w: World, c: Copies, maps: set<nat>, managed: set<nat>, b: nat)
    requires Consistent(s, c, maps, managed) && Admissible(w, managed) && WellFormed(w) && Clear(s, w)
    requires RamRecord(s.ram, b) || RegionRecord(s.pd, b) || RegionRecord(s.rm, b)
    requires Saved(w, b)
    ensures CopyOf(Checkpoint(s, w, c).1.table, b) == CopyOf(c.table, b) <==> HeldAllAlong(s, w, b)
  {
    MapsDoNotMatter(s, c, maps, Maps(w), managed);
    LiveNotManaged(w, managed, b);
    RecordedKnown(s, c, Maps(w), managed, b);
    CheckpointConsistent(s, w, c, maps, managed);
    CheckpointMirrors(s, w, c);
    EntryIffSaved(Checkpoint(s, w, c).0, w, Checkpoint(s, w, c).1, managed, b);
    CopyKeptIff(s, w, c, b);
    EntryAllAlongIff(s, w, c, managed, b);
  }

  lemma RecordedKnown(s: Stored, c: Copies, maps: set<nat>, managed: set<nat>, b: nat)
    requires Consistent(s, c, maps, managed) && b !in managed
    requires RamRecord(s.ram, b) || RegionRecord(s.pd, b) || RegionRecord(s.rm, b)
    ensures Known(c, b) && Numbered(c)
  {
    RamRefsHas(managed, s.ram, b);
    RmRefsHas(maps, managed, s.pd, c, b);
    RmRefsHas(maps, managed, s.rm, c, b);
    assert b in StateRefs(s, maps, managed);
  }
}
