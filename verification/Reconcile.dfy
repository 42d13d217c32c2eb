// The two-pass loop that every _prepare_* method of the checkpointer runs on a list of stored
// records and the child's live list: create what is missing and update, then delete what is stale.
module Reconcile {
  import opened InfoList
  import opened CopyTable

  // One kind of record.  found searches the stored list for a live object, alive the live list for a
  // stored record; creating, updating and destroying may take and release copies.
  datatype Kind<!S, !L> = Kind(
    found: (S, L) -> bool,
    alive: (L, S) -> bool,
    create: (L, Copies) -> (S, Copies),
    update: (S, L, Copies) -> (S, Copies),
    destroy: (S, Copies) -> Copies)

  function FindStored<S, L>(kind: Kind<S, L>, stored: seq<S>, l: L): nat {
    FirstIndex(stored, (s: S) => kind.found(s, l))
  }

  function FindLive<S, L>(kind: Kind<S, L>, live: seq<L>, s: S): nat {
    FirstIndex(live, (l: L) => kind.alive(l, s))
  }

  // One turn of the first loop.
  function Upsert<S, L>(kind: Kind<S, L>, stored: seq<S>, l: L, c: Copies): (seq<S>, Copies) {
    var k := FindStored(kind, stored, l);
    if k == |stored| then
      var (s, c1) := kind.create(l, c);
      var (s', c2) := kind.update(s, l, c1);
      ([s'] + stored, c2)
    else
      var (s', c') := kind.update(stored[k], l, c);
      (stored[k := s'], c')
  }

  function Pass1<S, L>(kind: Kind<S, L>, stored: seq<S>, live: seq<L>, c: Copies): (seq<S>, Copies)
    decreases |live|
  {
    if live == [] then (stored, c)
    else
      var (stored', c') := Upsert(kind, stored, live[0], c);
      Pass1(kind, stored', live[1..], c')
  }

  function Pass2<S, L>(kind: Kind<S, L>, stored: seq<S>, live: seq<L>, c: Copies): (seq<S>, Copies)
    decreases |stored|
  {
    if stored == [] then ([], c)
    else if FindLive(kind, live, stored[0]) == |live| then
      Pass2(kind, stored[1..], live, kind.destroy(stored[0], c))
    else
      var (rest, c') := Pass2(kind, stored[1..], live, c);
      ([stored[0]] + rest, c')
  }

  function Prepare<S, L>(kind: Kind<S, L>, stored: seq<S>, live: seq<L>, c: Copies): (seq<S>, Copies) {
    var (stored', c') := Pass1(kind, stored, live, c);
    Pass2(kind, stored', live, c')
  }

  // Releasing a whole list, from the front.
  function DestroyAll<S, L>(kind: Kind<S, L>, stored: seq<S>, c: Copies): Copies
    decreases |stored|
  {
    if stored == [] then c else DestroyAll(kind, stored[1..], kind.destroy(stored[0], c))
  }

  lemma FoundStored<S, L>(kind: Kind<S, L>, stored: seq<S>, l: L, k: nat)
    requires k <= |stored| && (k < |stored| ==> kind.found(stored[k], l)) && forall j :: 0 <= j < k ==> !kind.found(stored[j], l)
    ensures FindStored(kind, stored, l) == k
  {
  }

  // ---- The order of the records ----

  // The first loop leaves every record where it is and puts new ones in front: whatever updates keep of a record is
  // true of the one at the same distance from the end.
  lemma {:induction false} Pass1KeepsOrder<S(!new), L(!new)>(kind: Kind<S, L>, stored: seq<S>, live: seq<L>, c: Copies, i: nat, p: S -> bool)
    requires i < |stored| && p(stored[i]) && forall s, l, c :: p(s) ==> p(kind.update(s, l, c).0)
    ensures var r := Pass1(kind, stored, live, c).0; |stored| <= |r| && p(r[|r| - |stored| + i])
    decreases |live|
  {
    if live != [] {
      var (stored', c') := Upsert(kind, stored, live[0], c);
      Pass1KeepsOrder(kind, stored', live[1..], c', |stored'| - |stored| + i, p);
    }
  }

  // The second loop keeps the records of live objects in their order: at gives their places, one after the other, and
  // at every other place there is a record without a live object.
  ghost predicate Survivors<S(!new), L(!new)>(kind: Kind<S, L>, stored: seq<S>, live: seq<L>, r: seq<S>, at: seq<nat>) {
    && |at| == |r| && (forall i :: 0 <= i < |at| ==> at[i] < |stored| && r[i] == stored[at[i]])
    && (forall i, j :: 0 <= i < j < |at| ==> at[i] < at[j])
    && (forall k :: 0 <= k < |stored| ==> (k in at <==> HasObject(kind, live, stored[k])))
  }

  ghost predicate HasObject<S(!new), L(!new)>(kind: Kind<S, L>, live: seq<L>, s: S) {
    exists l :: l in live && kind.alive(l, s)
  }

  lemma {:induction false} Pass2KeepsOrder<S(!new), L(!new)>(kind: Kind<S, L>, stored: seq<S>, live: seq<L>, c: Copies) returns (at: seq<nat>)
    ensures Survivors(kind, stored, live, Pass2(kind, stored, live, c).0, at)
    decreases |stored|
  {
    at := [];
    if stored != [] {
      var found := FindLive(kind, live, stored[0]) < |live|;
      var c' := if found then c else kind.destroy(stored[0], c);
      var rest := Pass2KeepsOrder(kind, stored[1..], live, c');
      at := OneMore(kind, stored, live, Pass2(kind, stored[1..], live, c').0, rest);
    }
  }

  lemma {:induction false} OneMore<S(!new), L(!new)>(kind: Kind<S, L>, stored: seq<S>, live: seq<L>, r: seq<S>, rest: seq<nat>) returns (at: seq<nat>)
    requires stored != [] && Survivors(kind, stored[1..], live, r, rest)
    ensures Survivors(kind, stored, live, if FindLive(kind, live, stored[0]) < |live| then [stored[0]] + r else r, at)
  {
    var later := seq(|rest|, i requires 0 <= i < |rest| => rest[i] + 1);
    IsAlive(kind, live, stored[0]);
    forall k | 0 <= k < |stored| ensures k in later <==> k > 0 && HasObject(kind, live, stored[k]) {
      ShiftedHas(rest, later, k);
      if k > 0 {
        assert stored[1..][k - 1] == stored[k];
      }
    }
    if FindLive(kind, live, stored[0]) < |live| {
      at := [0] + later;
      FirstStays(kind, stored, live, r, later);
    } else {
      at := later;
    }
  }

  lemma {:induction false} FirstStays<S(!new), L(!new)>(kind: Kind<S, L>, stored: seq<S>, live: seq<L>, r: seq<S>, later: seq<nat>)
    requires stored != [] && HasObject(kind, live, stored[0]) && |later| == |r|
    requires forall i :: 0 <= i < |later| ==> 0 < later[i] < |stored| && r[i] == stored[later[i]]
    requires forall i, j :: 0 <= i < j < |later| ==> later[i] < later[j]
    requires forall k :: 0 <= k < |stored| ==> (k in later <==> k > 0 && HasObject(kind, live, stored[k]))
    ensures Survivors(kind, stored, live, [stored[0]] + r, [0] + later)
  {
    var at := [0] + later;
    forall k | 0 <= k < |stored| ensures k in at <==> HasObject(kind, live, stored[k]) {
      assert k in at <==> k == 0 || k in later;
    }
  }

  lemma {:induction false} ShiftedHas(rest: seq<nat>, later: seq<nat>, k: nat)
    requires |later| == |rest| && forall i :: 0 <= i < |rest| ==> later[i] == rest[i] + 1
    ensures k in later <==> k > 0 && k - 1 in rest
  {
    if k > 0 && k - 1 in rest {
      var i :| 0 <= i < |rest| && rest[i] == k - 1;
      assert later[i] == k;
    }
  }

  lemma {:induction false} IsAlive<S(!new), L(!new)>(kind: Kind<S, L>, live: seq<L>, s: S)
    ensures FindLive(kind, live, s) < |live| <==> HasObject(kind, live, s)
  {
    var k := FindLive(kind, live, s);
    if k < |live| {
      assert live[k] in live;
    }
  }

  // The second loop keeps two records whose objects are alive.
  lemma {:induction false} BothAlive<S, L>(kind: Kind<S, L>, l1: L, l2: L, s1: S, s2: S, live: seq<L>, c: Copies)
    requires live == [l1, l2] && kind.alive(l1, s1) && kind.alive(l2, s2)
    ensures Pass2(kind, [s2, s1], live, c) == ([s2, s1], c)
  {
    assert kind.alive(live[0], s1) && kind.alive(live[1], s2);
    assert FindLive(kind, live, s1) < |live| && FindLive(kind, live, s2) < |live|;
    assert [s2, s1][1..] == [s1] && [s1][1..] == [];
    assert Pass2(kind, [], live, c) == ([], c);
    assert Pass2(kind, [s1], live, c) == ([s1] + [], c) && [s1] + [] == [s1];
    assert Pass2(kind, [s2, s1], live, c) == ([s2] + [s1], c) && [s2] + [s1] == [s2, s1];
  }

  // ---- The two loops, step by step ----

  // The first loop has handled the live objects in front of i; the list is r and the table c.
  ghost predicate FirstLoop<S, L>(kind: Kind<S, L>, stored: seq<S>, live: seq<L>, c0: Copies, i: nat, r: seq<S>, c: Copies)
    requires i <= |live|
  {
    Pass1(kind, r, live[i..], c) == Pass1(kind, stored, live, c0)
  }

  lemma FirstLoopStarts<S, L>(kind: Kind<S, L>, stored: seq<S>, live: seq<L>, c0: Copies)
    ensures FirstLoop(kind, stored, live, c0, 0, stored, c0)
  {
    assert live[0..] == live;
  }

  lemma FirstLoopTurns<S, L>(kind: Kind<S, L>, stored: seq<S>, live: seq<L>, c0: Copies, i: nat, r: seq<S>, c: Copies)
    requires i < |live| && FirstLoop(kind, stored, live, c0, i, r, c)
    ensures var (r', c') := Upsert(kind, r, live[i], c); FirstLoop(kind, stored, live, c0, i + 1, r', c')
  {
    assert live[i..][0] == live[i] && live[i..][1..] == live[i + 1..];
  }

  lemma {:induction false} FirstLoopEnds<S, L>(kind: Kind<S, L>, stored: seq<S>, live: seq<L>, c0: Copies, r: seq<S>, c: Copies)
    requires FirstLoop(kind, stored, live, c0, |live|, r, c)
    ensures Pass1(kind, stored, live, c0) == (r, c)
  {
    assert live[|live|..] == [];
  }

  // The second loop is at position p of the list, which by now is r.
  ghost predicate SecondLoop<S, L>(kind: Kind<S, L>, stored: seq<S>, live: seq<L>, c0: Copies, p: nat, r: seq<S>, c: Copies)
    requires p <= |r|
  {
    var (rest, c') := Pass2(kind, r[p..], live, c);
    Pass2(kind, stored, live, c0) == (r[..p] + rest, c')
  }

  lemma SecondLoopStarts<S, L>(kind: Kind<S, L>, stored: seq<S>, live: seq<L>, c0: Copies)
    ensures SecondLoop(kind, stored, live, c0, 0, stored, c0)
  {
    assert stored[0..] == stored;
    var rest := Pass2(kind, stored, live, c0).0;
    assert stored[..0] + rest == rest;
  }

  lemma SecondLoopTurns<S, L>(kind: Kind<S, L>, stored: seq<S>, live: seq<L>, c0: Copies, p: nat, r: seq<S>, c: Copies, k: nat)
    requires p < |r| && SecondLoop(kind, stored, live, c0, p, r, c)
    requires k <= |live| && (k < |live| ==> kind.alive(live[k], r[p])) && forall j :: 0 <= j < k ==> !kind.alive(live[j], r[p])
    ensures k == |live| ==> SecondLoop(kind, stored, live, c0, p, RemoveAt(r, p), kind.destroy(r[p], c))
    ensures k < |live| ==> SecondLoop(kind, stored, live, c0, p + 1, r, c)
  {
    assert FindLive(kind, live, r[p]) == k;
    assert r[p..][0] == r[p] && r[p..][1..] == r[p + 1..];
    if k == |live| {
      assert RemoveAt(r, p)[p..] == r[p + 1..] && RemoveAt(r, p)[..p] == r[..p];
    } else {
      var (rest, c') := Pass2(kind, r[p + 1..], live, c);
      assert FindLive(kind, live, r[p..][0]) < |live|;
      assert Pass2(kind, r[p..], live, c) == ([r[p]] + rest, c');
      assert r[..p] + ([r[p]] + rest) == r[..p + 1] + rest;
    }
  }

  lemma {:induction false} SecondLoopEnds<S, L>(kind: Kind<S, L>, stored: seq<S>, live: seq<L>, c0: Copies, r: seq<S>, c: Copies)
    requires SecondLoop(kind, stored, live, c0, |r|, r, c)
    ensures Pass2(kind, stored, live, c0) == (r, c)
  {
    var none: seq<S> := [];
    assert r[|r|..] == none && r[..|r|] + none == r;
  }

  // _destroy_stored_* has released the first i records.
  ghost predicate DestroyLoop<S, L>(kind: Kind<S, L>, stored: seq<S>, c0: Copies, i: nat, c: Copies)
    requires i <= |stored|
  {
    DestroyAll(kind, stored[i..], c) == DestroyAll(kind, stored, c0)
  }

  lemma DestroyLoopTurns<S, L>(kind: Kind<S, L>, stored: seq<S>, c0: Copies, i: nat, c: Copies)
    requires i < |stored| && DestroyLoop(kind, stored, c0, i, c)
    ensures DestroyLoop(kind, stored, c0, i + 1, kind.destroy(stored[i], c))
  {
    assert stored[i..][0] == stored[i] && stored[i..][1..] == stored[i + 1..];
  }

  lemma {:induction false} DestroyLoopStartsEnds<S, L>(kind: Kind<S, L>, stored: seq<S>, c0: Copies)
    ensures DestroyLoop(kind, stored, c0, 0, c0)
    ensures forall c :: DestroyLoop(kind, stored, c0, |stored|, c) ==> c == DestroyAll(kind, stored, c0)
  {
    assert stored[0..] == stored && stored[|stored|..] == [];
  }

  // ---- References ----

  // refs are the copies a stored record holds, ok relates it to the table, admissible is what is known of live objects.
  datatype Account<!S, !L> = Account(
    refs: S -> multiset<nat>,
    ok: (S, Copies) -> bool,
    admissible: L -> bool,
    managed: set<nat>)

  ghost predicate CreateLaw<S(!new), L(!new)>(kind: Kind<S, L>, a: Account<S, L>, l: L, c: Copies, rest: multiset<nat>) {
    a.admissible(l) && Exact(c, rest, a.managed) ==>
      var (s, c') := kind.create(l, c);
      Exact(c', rest + a.refs(s), a.managed) && a.ok(s, c') && Stable(c, c', rest)
  }

  ghost predicate UpdateLaw<S(!new), L(!new)>(kind: Kind<S, L>, a: Account<S, L>, s: S, l: L, c: Copies, rest: multiset<nat>) {
    a.admissible(l) && a.ok(s, c) && Exact(c, rest + a.refs(s), a.managed) ==>
      var (s', c') := kind.update(s, l, c);
      Exact(c', rest + a.refs(s'), a.managed) && a.ok(s', c') && Stable(c, c', rest)
  }

  ghost predicate DestroyLaw<S(!new), L(!new)>(kind: Kind<S, L>, a: Account<S, L>, s: S, c: Copies, rest: multiset<nat>) {
    a.ok(s, c) && Exact(c, rest + a.refs(s), a.managed) ==>
      Exact(kind.destroy(s, c), rest, a.managed) && Stable(c, kind.destroy(s, c), rest)
  }

  ghost predicate OkLaw<S(!new), L(!new)>(a: Account<S, L>, s: S, c: Copies, c': Copies) {
    a.ok(s, c) && Stable(c, c', a.refs(s)) ==> a.ok(s, c')
  }

  // Creating, updating and destroying one record accounts for the copies it holds.
  ghost predicate Lawful<S(!new), L(!new)>(kind: Kind<S, L>, a: Account<S, L>) {
    && (forall l, c, rest :: CreateLaw(kind, a, l, c, rest))
    && (forall s, l, c, rest :: UpdateLaw(kind, a, s, l, c, rest))
    && (forall s, c, rest :: DestroyLaw(kind, a, s, c, rest))
    && (forall s, c, c' :: OkLaw(a, s, c, c'))
  }

  ghost function AllRefs<S, L>(a: Account<S, L>, stored: seq<S>): multiset<nat> {
    if stored == [] then multiset{} else a.refs(stored[0]) + AllRefs(a, stored[1..])
  }

  ghost predicate AllOk<S, L>(a: Account<S, L>, stored: seq<S>, c: Copies) {
    forall i :: 0 <= i < |stored| ==> a.ok(stored[i], c)
  }

  lemma {:induction false} AllRefsSplit<S, L>(a: Account<S, L>, stored: seq<S>, k: nat)
    requires k < |stored|
    ensures AllRefs(a, stored) == a.refs(stored[k]) + AllRefs(a, stored[..k]) + AllRefs(a, stored[k + 1..])
  {
    if k > 0 {
      AllRefsSplit(a, stored[1..], k - 1);
      assert stored[1..][..k - 1] == stored[..k][1..];
      assert stored[1..][k..] == stored[k + 1..];
    }
  }

  lemma {:induction false} RefsOfMember<S, L>(a: Account<S, L>, stored: seq<S>, k: nat)
    requires k < |stored|
    ensures a.refs(stored[k]) <= AllRefs(a, stored)
  {
    AllRefsSplit(a, stored, k);
  }

  lemma StableLess(c: Copies, c': Copies, more: multiset<nat>, less: multiset<nat>)
    requires Stable(c, c', more) && less <= more
    ensures Stable(c, c', less)
  {
    forall b | b in less ensures b in more {
      assert less[b] <= more[b];
    }
  }

  // Records whose copies are stable stay right.
  lemma {:induction false} OkStays<S(!new), L(!new)>(kind: Kind<S, L>, a: Account<S, L>, stored: seq<S>, c: Copies, c': Copies, kept: multiset<nat>)
    requires Lawful(kind, a) && AllOk(a, stored, c) && Stable(c, c', kept) && AllRefs(a, stored) <= kept
    ensures AllOk(a, stored, c')
  {
    forall i | 0 <= i < |stored| ensures a.ok(stored[i], c') {
      RefsOfMember(a, stored, i);
      StableLess(c, c', kept, a.refs(stored[i]));
      assert OkLaw(a, stored[i], c, c');
    }
  }

  lemma {:induction false} InsertExact<S(!new), L(!new)>(kind: Kind<S, L>, a: Account<S, L>, stored: seq<S>, l: L, c: Copies, rest: multiset<nat>)
    requires Lawful(kind, a) && a.admissible(l) && AllOk(a, stored, c) && Exact(c, rest + AllRefs(a, stored), a.managed)
    ensures var (s, c1) := kind.create(l, c); var (s', c2) := kind.update(s, l, c1);
      Exact(c2, rest + AllRefs(a, [s'] + stored), a.managed) && AllOk(a, [s'] + stored, c2) && Stable(c, c2, rest)
  {
    var kept := rest + AllRefs(a, stored);
    var (s, c1) := kind.create(l, c);
    assert CreateLaw(kind, a, l, c, kept);
    var (s', c2) := kind.update(s, l, c1);
    assert UpdateLaw(kind, a, s, l, c1, kept);
    OkStays(kind, a, stored, c, c1, kept);
    OkStays(kind, a, stored, c1, c2, kept);
    assert ([s'] + stored)[1..] == stored;
    assert rest + AllRefs(a, [s'] + stored) == kept + a.refs(s');
  }

  lemma ReplaceExact<S(!new), L(!new)>(kind: Kind<S, L>, a: Account<S, L>, stored: seq<S>, k: nat, l: L, c: Copies, rest: multiset<nat>)
    requires Lawful(kind, a) && a.admissible(l) && AllOk(a, stored, c) && Exact(c, rest + AllRefs(a, stored), a.managed)
    requires k < |stored|
    ensures var (s', c') := kind.update(stored[k], l, c);
      Exact(c', rest + AllRefs(a, stored[k := s']), a.managed) && AllOk(a, stored[k := s'], c') && Stable(c, c', rest)
  {
    var s := stored[k];
    var (s', c') := kind.update(s, l, c);
    var others := RefsBut(a, stored, k, s');
    assert UpdateLaw(kind, a, s, l, c, rest + others);
    assert rest + AllRefs(a, stored) == rest + others + a.refs(s);
    assert rest + AllRefs(a, stored[k := s']) == rest + others + a.refs(s');
    OkStaysBut(kind, a, stored, k, s', c, c', rest + others, others);
  }

  // The references of all records but the k-th, which a new k-th record leaves as they are.
  ghost function RefsBut<S, L>(a: Account<S, L>, stored: seq<S>, k: nat, s': S): (others: multiset<nat>)
    requires k < |stored|
    ensures AllRefs(a, stored) == others + a.refs(stored[k])
    ensures AllRefs(a, stored[k := s']) == others + a.refs(s')
    ensures others == AllRefs(a, stored[..k]) + AllRefs(a, stored[k + 1..])
  {
    AllRefsSplit(a, stored, k);
    AllRefsSplit(a, stored[k := s'], k);
    assert stored[k := s'][..k] == stored[..k] && stored[k := s'][k + 1..] == stored[k + 1..];
    AllRefs(a, stored[..k]) + AllRefs(a, stored[k + 1..])
  }

  lemma {:induction false} OkStaysBut<S(!new), L(!new)>(kind: Kind<S, L>, a: Account<S, L>, stored: seq<S>, k: nat, s': S, c: Copies, c': Copies,
                                     kept: multiset<nat>, others: multiset<nat>)
    requires Lawful(kind, a) && AllOk(a, stored, c) && k < |stored| && a.ok(s', c') && Stable(c, c', kept)
    requires others == AllRefs(a, stored[..k]) + AllRefs(a, stored[k + 1..]) && others <= kept
    ensures AllOk(a, stored[k := s'], c')
  {
    OkStays(kind, a, stored[..k], c, c', kept);
    OkStays(kind, a, stored[k + 1..], c, c', kept);
    var stored' := stored[k := s'];
    forall i | 0 <= i < |stored'| ensures a.ok(stored'[i], c') {
      if i < k {
        assert stored[i] == stored[..k][i];
      } else if i > k {
        assert stored[i] == stored[k + 1..][i - k - 1];
      }
    }
  }

  lemma {:induction false} UpsertExact<S(!new), L(!new)>(kind: Kind<S, L>, a: Account<S, L>, stored: seq<S>, l: L, c: Copies, rest: multiset<nat>)
    requires Lawful(kind, a) && a.admissible(l) && AllOk(a, stored, c) && Exact(c, rest + AllRefs(a, stored), a.managed)
    ensures var (stored', c') := Upsert(kind, stored, l, c);
      Exact(c', rest + AllRefs(a, stored'), a.managed) && AllOk(a, stored', c') && Stable(c, c', rest)
  {
    var k := FindStored(kind, stored, l);
    if k == |stored| {
      InsertExact(kind, a, stored, l, c, rest);
    } else {
      ReplaceExact(kind, a, stored, k, l, c, rest);
    }
  }

  lemma {:induction false} Pass1Exact<S(!new), L(!new)>(kind: Kind<S, L>, a: Account<S, L>, stored: seq<S>, live: seq<L>, c: Copies, rest: multiset<nat>)
    requires Lawful(kind, a) && (forall l :: l in live ==> a.admissible(l))
    requires AllOk(a, stored, c) && Exact(c, rest + AllRefs(a, stored), a.managed)
    ensures var (stored', c') := Pass1(kind, stored, live, c);
      Exact(c', rest + AllRefs(a, stored'), a.managed) && AllOk(a, stored', c') && Stable(c, c', rest)
    decreases |live|
  {
    if live != [] {
      UpsertExact(kind, a, stored, live[0], c, rest);
      var (stored', c') := Upsert(kind, stored, live[0], c);
      Pass1Exact(kind, a, stored', live[1..], c', rest);
    }
  }

  lemma {:induction false} Pass2Exact<S(!new), L(!new)>(kind: Kind<S, L>, a: Account<S, L>, stored: seq<S>, live: seq<L>, c: Copies, rest: multiset<nat>)
    requires Lawful(kind, a)
    requires AllOk(a, stored, c) && Exact(c, rest + AllRefs(a, stored), a.managed)
    ensures var (stored', c') := Pass2(kind, stored, live, c);
      Exact(c', rest + AllRefs(a, stored'), a.managed) && AllOk(a, stored', c') && Stable(c, c', rest)
    decreases |stored|
  {
    if stored != [] {
      var s, tail := stored[0], stored[1..];
      if FindLive(kind, live, s) == |live| {
        var kept := rest + AllRefs(a, tail);
        assert rest + AllRefs(a, stored) == kept + a.refs(s);
        assert DestroyLaw(kind, a, s, c, kept);
        var c1 := kind.destroy(s, c);
        OkStays(kind, a, tail, c, c1, kept);
        StableLess(c, c1, kept, rest);
        Pass2Exact(kind, a, tail, live, c1, rest);
      } else {
        assert rest + AllRefs(a, stored) == rest + a.refs(s) + AllRefs(a, tail);
        Pass2Exact(kind, a, tail, live, c, rest + a.refs(s));
        var (r, c') := Pass2(kind, tail, live, c);
        StableLess(c, c', rest + a.refs(s), a.refs(s));
        StableLess(c, c', rest + a.refs(s), rest);
        assert OkLaw(a, s, c, c');
        assert ([s] + r)[1..] == r;
        assert rest + AllRefs(a, [s] + r) == rest + a.refs(s) + AllRefs(a, r);
      }
    }
  }

  // A whole reconciliation keeps the table exact and leaves the copies of all other records alone.
  lemma {:induction false} PrepareExact<S(!new), L(!new)>(kind: Kind<S, L>, a: Account<S, L>, stored: seq<S>, live: seq<L>, c: Copies, rest: multiset<nat>)
    requires Lawful(kind, a) && (forall l :: l in live ==> a.admissible(l))
    requires AllOk(a, stored, c) && Exact(c, rest + AllRefs(a, stored), a.managed)
    ensures var (stored', c') := Prepare(kind, stored, live, c);
      Exact(c', rest + AllRefs(a, stored'), a.managed) && AllOk(a, stored', c') && Stable(c, c', rest)
  {
    Pass1Exact(kind, a, stored, live, c, rest);
    var (stored', c') := Pass1(kind, stored, live, c);
    Pass2Exact(kind, a, stored', live, c', rest);
  }

  lemma {:induction false} DestroyAllExact<S(!new), L(!new)>(kind: Kind<S, L>, a: Account<S, L>, stored: seq<S>, c: Copies, rest: multiset<nat>)
    requires Lawful(kind, a) && AllOk(a, stored, c) && Exact(c, rest + AllRefs(a, stored), a.managed)
    ensures Exact(DestroyAll(kind, stored, c), rest, a.managed) && Stable(c, DestroyAll(kind, stored, c), rest)
    decreases |stored|
  {
    if stored == [] {
      assert rest + AllRefs(a, stored) == rest;
    } else {
      var s, tail := stored[0], stored[1..];
      var kept := rest + AllRefs(a, tail);
      assert rest + AllRefs(a, stored) == kept + a.refs(s);
      assert DestroyLaw(kind, a, s, c, kept);
      var c1 := kind.destroy(s, c);
      OkStays(kind, a, tail, c, c1, kept);
      StableLess(c, c1, kept, rest);
      DestroyAllExact(kind, a, tail, c1, rest);
    }
  }
}
