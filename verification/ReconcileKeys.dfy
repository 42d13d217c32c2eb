// What a reconciliation does to the records: for kinds that are matched by badge, the stored list
// ends up with exactly the live badges, every record up to date and no surviving record replaced.
module ReconcileKeys {
  import opened InfoList
  import opened CopyTable
  import opened Reconcile

  // key and liveKey are the badges, fixed are the fields of a record that no update may touch, and
  // current says that a record reflects a live object.
  datatype View<!S, !L, !F> = View(key: S -> nat, liveKey: L -> nat, fixed: S -> F, current: (S, L) -> bool)

  ghost predicate Keyed<S(!new), L(!new), F(!new)>(kind: Kind<S, L>, v: View<S, L, F>) {
    && (forall s, l :: kind.found(s, l) <==> v.key(s) == v.liveKey(l))
    && (forall s, l :: kind.alive(l, s) <==> v.key(s) == v.liveKey(l))
    && (forall l, c :: v.key(kind.create(l, c).0) == v.liveKey(l))
    && (forall s, l, c :: v.key(kind.update(s, l, c).0) == v.key(s) && v.fixed(kind.update(s, l, c).0) == v.fixed(s))
  }

  // Updating the record of l, or a new one if it has none, brings it up to date.
  ghost predicate Refreshes<S(!new), L(!new), F(!new)>(kind: Kind<S, L>, v: View<S, L, F>, stored: seq<S>, l: L) {
    && (forall s, c :: s in stored && v.key(s) == v.liveKey(l) ==> v.current(kind.update(s, l, c).0, l))
    && (!HasKey(v, stored, v.liveKey(l)) ==> forall c, c' :: v.current(kind.update(kind.create(l, c).0, l, c').0, l))
  }

  ghost predicate DistinctKeys<S(!new), L(!new), F(!new)>(v: View<S, L, F>, stored: seq<S>) {
    forall i, j :: 0 <= i < j < |stored| ==> v.key(stored[i]) != v.key(stored[j])
  }

  ghost predicate DistinctLive<S(!new), L(!new), F(!new)>(v: View<S, L, F>, live: seq<L>) {
    forall i, j :: 0 <= i < j < |live| ==> v.liveKey(live[i]) != v.liveKey(live[j])
  }

  ghost predicate HasKey<S(!new), L(!new), F(!new)>(v: View<S, L, F>, stored: seq<S>, key: nat) {
    exists s :: s in stored && v.key(s) == key
  }

  ghost predicate HasLive<S(!new), L(!new), F(!new)>(v: View<S, L, F>, live: seq<L>, key: nat) {
    exists l :: l in live && v.liveKey(l) == key
  }

  ghost predicate HasCurrent<S(!new), L(!new), F(!new)>(v: View<S, L, F>, stored: seq<S>, l: L) {
    exists s :: s in stored && v.key(s) == v.liveKey(l) && v.current(s, l)
  }

  ghost predicate Survives<S(!new), L(!new), F(!new)>(v: View<S, L, F>, stored: seq<S>, s: S) {
    exists s' :: s' in stored && v.key(s') == v.key(s) && v.fixed(s') == v.fixed(s)
  }

  // The record s of l is in the list, updated.
  ghost predicate Updated<S(!new), L(!new)>(kind: Kind<S, L>, stored: seq<S>, s: S, l: L) {
    exists c :: kind.update(s, l, c).0 in stored
  }

  // What one turn of the first loop does to the records: l gets a current one, all others stay.
  ghost predicate Upserted<S(!new), L(!new), F(!new)>(kind: Kind<S, L>, v: View<S, L, F>, stored: seq<S>, r: seq<S>, l: L) {
    && DistinctKeys(v, r) && HasCurrent(v, r, l)
    && (forall s :: s in stored && v.key(s) == v.liveKey(l) ==> Updated(kind, r, s, l))
    && (forall s :: s in r && v.key(s) != v.liveKey(l) <==> s in stored && v.key(s) != v.liveKey(l))
  }

  lemma InsertUpserts<S(!new), L(!new), F(!new)>(kind: Kind<S, L>, v: View<S, L, F>, stored: seq<S>, s': S, l: L)
    requires DistinctKeys(v, stored) && v.key(s') == v.liveKey(l) && v.current(s', l)
    requires forall i :: 0 <= i < |stored| ==> v.key(stored[i]) != v.liveKey(l)
    ensures Upserted(kind, v, stored, [s'] + stored, l)
  {
    var r := [s'] + stored;
    assert forall s :: s in r <==> s == s' || s in stored;
  }

  lemma ReplaceUpserts<S(!new), L(!new), F(!new)>(kind: Kind<S, L>, v: View<S, L, F>, stored: seq<S>, k: nat, s': S, l: L, c: Copies)
    requires DistinctKeys(v, stored) && k < |stored| && v.key(stored[k]) == v.liveKey(l)
    requires v.key(s') == v.liveKey(l) && v.fixed(s') == v.fixed(stored[k]) && v.current(s', l)
    requires s' == kind.update(stored[k], l, c).0
    ensures Upserted(kind, v, stored, stored[k := s'], l)
  {
    var r := stored[k := s'];
    assert r[k] in r;
    forall s | s in stored && v.key(s) == v.liveKey(l) ensures Updated(kind, r, s, l) {
      var i :| 0 <= i < |stored| && stored[i] == s;
      assert i == k;
    }
    forall s ensures s in r && v.key(s) != v.liveKey(l) <==> s in stored && v.key(s) != v.liveKey(l) {
      if s in stored && v.key(s) != v.liveKey(l) {
        var i :| 0 <= i < |stored| && stored[i] == s;
        assert r[i] == s;
      }
    }
  }

  lemma UpsertKeys<S(!new), L(!new), F(!new)>(kind: Kind<S, L>, v: View<S, L, F>, stored: seq<S>, l: L, c: Copies)
    requires Keyed(kind, v) && DistinctKeys(v, stored) && Refreshes(kind, v, stored, l)
    ensures Upserted(kind, v, stored, Upsert(kind, stored, l, c).0, l)
  {
    var k := FindStored(kind, stored, l);
    if k == |stored| {
      var (s, c1) := kind.create(l, c);
      var (s', c2) := kind.update(s, l, c1);
      assert !HasKey(v, stored, v.liveKey(l));
      assert v.current(kind.update(kind.create(l, c).0, l, c1).0, l);
      InsertUpserts(kind, v, stored, s', l);
    } else {
      assert stored[k] in stored;
      ReplaceUpserts(kind, v, stored, k, kind.update(stored[k], l, c).0, l, c);
    }
  }

  ghost predicate Passed<S(!new), L(!new), F(!new)>(kind: Kind<S, L>, v: View<S, L, F>, stored: seq<S>, live: seq<L>, r: seq<S>) {
    && DistinctKeys(v, r)
    && (forall s, l :: s in stored && l in live && v.key(s) == v.liveKey(l) ==> Updated(kind, r, s, l))
    && (forall s :: !HasLive(v, live, v.key(s)) ==> (s in r <==> s in stored))
    && (forall l :: l in live ==> HasCurrent(v, r, l))
  }

  lemma HasLiveCons<S(!new), L(!new), F(!new)>(v: View<S, L, F>, live: seq<L>, key: nat)
    requires live != []
    ensures HasLive(v, live, key) <==> key == v.liveKey(live[0]) || HasLive(v, live[1..], key)
  {
    assert live == [live[0]] + live[1..];
    if HasLive(v, live[1..], key) {
      var l :| l in live[1..] && v.liveKey(l) == key;
      assert l in live;
    }
  }

  lemma PassedCons<S(!new), L(!new), F(!new)>(kind: Kind<S, L>, v: View<S, L, F>, stored: seq<S>, m: seq<S>, live: seq<L>, r: seq<S>)
    requires live != [] && DistinctLive(v, live)
    requires Keyed(kind, v) && Upserted(kind, v, stored, m, live[0]) && Passed(kind, v, m, live[1..], r)
    ensures Passed(kind, v, stored, live, r)
  {
    var l, rest := live[0], live[1..];
    assert live == [l] + rest;
    NotAmongRest(v, live);
    forall s, l' | s in stored && l' in live && v.key(s) == v.liveKey(l') ensures Updated(kind, r, s, l') {
      if l' !in rest {
        var c :| kind.update(s, l, c).0 in m;
        assert !HasLive(v, rest, v.key(kind.update(s, l, c).0));
      } else {
        assert v.key(s) != v.liveKey(l);
      }
    }
    forall s | !HasLive(v, live, v.key(s)) ensures s in r <==> s in stored {
      HasLiveCons(v, live, v.key(s));
    }
    forall l' | l' in live ensures HasCurrent(v, r, l') {
      if l' !in rest {
        var s :| s in m && v.key(s) == v.liveKey(l) && v.current(s, l);
        assert !HasLive(v, rest, v.key(s)) && s in r;
      }
    }
  }

  lemma NotAmongRest<S(!new), L(!new), F(!new)>(v: View<S, L, F>, live: seq<L>)
    requires live != [] && DistinctLive(v, live)
    ensures !HasLive(v, live[1..], v.liveKey(live[0])) && DistinctLive(v, live[1..])
  {
    forall l | l in live[1..] ensures v.liveKey(l) != v.liveKey(live[0]) {
      var i :| 0 <= i < |live[1..]| && live[1..][i] == l;
      assert live[i + 1] == l;
    }
  }

  lemma RefreshesStill<S(!new), L(!new), F(!new)>(kind: Kind<S, L>, v: View<S, L, F>, stored: seq<S>, m: seq<S>, l: L, l': L)
    requires Upserted(kind, v, stored, m, l) && v.liveKey(l') != v.liveKey(l) && Refreshes(kind, v, stored, l')
    ensures Refreshes(kind, v, m, l')
  {
    if HasKey(v, stored, v.liveKey(l')) {
      var s :| s in stored && v.key(s) == v.liveKey(l');
      assert s in m;
    }
  }

  lemma {:induction false} Pass1Keys<S(!new), L(!new), F(!new)>(kind: Kind<S, L>, v: View<S, L, F>, stored: seq<S>, live: seq<L>, c: Copies)
    requires Keyed(kind, v) && DistinctKeys(v, stored) && DistinctLive(v, live)
    requires forall l :: l in live ==> Refreshes(kind, v, stored, l)
    ensures Passed(kind, v, stored, live, Pass1(kind, stored, live, c).0)
    decreases |live|
  {
    if live != [] {
      var l, rest := live[0], live[1..];
      var (m, c') := Upsert(kind, stored, l, c);
      UpsertKeys(kind, v, stored, l, c);
      NotAmongRest(v, live);
      forall l' | l' in rest ensures Refreshes(kind, v, m, l') {
        assert l' in live && v.liveKey(l') != v.liveKey(l);
        RefreshesStill(kind, v, stored, m, l, l');
      }
      Pass1Keys(kind, v, m, rest, c');
      PassedCons(kind, v, stored, m, live, Pass1(kind, m, rest, c').0);
    }
  }

  // What the second loop leaves: exactly the records of live objects.
  ghost predicate Pruned<S(!new), L(!new), F(!new)>(v: View<S, L, F>, stored: seq<S>, live: seq<L>, r: seq<S>) {
    DistinctKeys(v, r) && forall s :: s in r <==> s in stored && HasLive(v, live, v.key(s))
  }

  lemma {:induction false} Pass2Prunes<S(!new), L(!new), F(!new)>(kind: Kind<S, L>, v: View<S, L, F>, stored: seq<S>, live: seq<L>, c: Copies)
    requires Keyed(kind, v) && DistinctKeys(v, stored)
    ensures Pruned(v, stored, live, Pass2(kind, stored, live, c).0)
    decreases |stored|
  {
    if stored != [] {
      var s, tail := stored[0], stored[1..];
      assert stored == [s] + tail;
      var k := FindLive(kind, live, s);
      if k == |live| {
        assert !HasLive(v, live, v.key(s));
        Pass2Prunes(kind, v, tail, live, kind.destroy(s, c));
      } else {
        assert live[k] in live;
        Pass2Prunes(kind, v, tail, live, c);
        var r := Pass2(kind, tail, live, c).0;
        forall i | 0 <= i < |r| ensures v.key(r[i]) != v.key(s) {
          assert r[i] in tail;
          var j :| 0 <= j < |tail| && tail[j] == r[i];
          assert stored[j + 1] == r[i];
        }
      }
    }
  }

  // After a reconciliation the stored badges are the live ones, and every live object has a record
  // that is up to date.
  ghost predicate Reconciled<S(!new), L(!new), F(!new)>(v: View<S, L, F>, stored: seq<S>, live: seq<L>) {
    && DistinctKeys(v, stored)
    && (forall key :: HasKey(v, stored, key) <==> HasLive(v, live, key))
    && (forall l :: l in live ==> HasCurrent(v, stored, l))
  }

  lemma PrunedReconciles<S(!new), L(!new), F(!new)>(v: View<S, L, F>, m: seq<S>, live: seq<L>, r: seq<S>)
    requires Pruned(v, m, live, r) && forall l :: l in live ==> HasCurrent(v, m, l)
    ensures Reconciled(v, r, live)
  {
    forall l | l in live ensures HasCurrent(v, r, l) {
      var s :| s in m && v.key(s) == v.liveKey(l) && v.current(s, l);
      assert HasLive(v, live, v.key(s)) && s in r;
    }
    forall key ensures HasKey(v, r, key) <==> HasLive(v, live, key) {
      if HasLive(v, live, key) {
        var l :| l in live && v.liveKey(l) == key;
        assert HasCurrent(v, r, l);
      }
    }
  }

  // The two passes over lists that hold every badge once: badges agree, every live object has an
  // up-to-date record, and a record whose object is still alive is only updated, never replaced.
  lemma PrepareReconciles<S(!new), L(!new), F(!new)>(kind: Kind<S, L>, v: View<S, L, F>, stored: seq<S>, live: seq<L>, c: Copies)
    requires Keyed(kind, v) && DistinctKeys(v, stored) && DistinctLive(v, live)
    requires forall l :: l in live ==> Refreshes(kind, v, stored, l)
    ensures Reconciled(v, Prepare(kind, stored, live, c).0, live)
    ensures forall s, l :: s in stored && l in live && v.key(s) == v.liveKey(l) ==>
      Updated(kind, Prepare(kind, stored, live, c).0, s, l) && Survives(v, Prepare(kind, stored, live, c).0, s)
  {
    Pass1Keys(kind, v, stored, live, c);
    var (m, c') := Pass1(kind, stored, live, c);
    Pass2Prunes(kind, v, m, live, c');
    var r := Pass2(kind, m, live, c').0;
    PrunedReconciles(v, m, live, r);
    forall s, l | s in stored && l in live && v.key(s) == v.liveKey(l) ensures Updated(kind, r, s, l) && Survives(v, r, s) {
      StaysUpdated(kind, v, stored, m, live, r, s, l);
    }
  }

  lemma StaysUpdated<S(!new), L(!new), F(!new)>(kind: Kind<S, L>, v: View<S, L, F>, stored: seq<S>, m: seq<S>, live: seq<L>, r: seq<S>, s: S, l: L)
    requires Keyed(kind, v) && Pruned(v, m, live, r) && Updated(kind, m, s, l)
    requires l in live && v.key(s) == v.liveKey(l)
    ensures Updated(kind, r, s, l) && Survives(v, r, s)
  {
    var c1 :| kind.update(s, l, c1).0 in m;
    var s' := kind.update(s, l, c1).0;
    assert HasLive(v, live, v.key(s')) && s' in r;
  }

  // In a reconciled list the one record of a live object is the current one.
  lemma RecordIsCurrent<S(!new), L(!new), F(!new)>(v: View<S, L, F>, stored: seq<S>, live: seq<L>, s: S, l: L)
    requires Reconciled(v, stored, live) && s in stored && l in live && v.key(s) == v.liveKey(l)
    ensures v.current(s, l)
  {
    var s' :| s' in stored && v.key(s') == v.liveKey(l) && v.current(s', l);
    var i :| 0 <= i < |stored| && stored[i] == s;
    var j :| 0 <= j < |stored| && stored[j] == s';
    assert i == j;
  }

  // Reconciling again with the same live list changes neither the records nor the table.
  lemma PrepareIdempotent<S(!new), L(!new), F(!new)>(kind: Kind<S, L>, v: View<S, L, F>, stored: seq<S>, live: seq<L>, c: Copies)
    requires Keyed(kind, v) && Reconciled(v, stored, live)
    requires forall s, l, c :: s in stored && l in live && v.current(s, l) ==> kind.update(s, l, c) == (s, c)
    ensures Prepare(kind, stored, live, c) == (stored, c)
  {
    Pass1Idle(kind, v, stored, live, c);
    Pass2Idle(kind, v, stored, live, c);
  }

  lemma {:induction false} Pass1Idle<S(!new), L(!new), F(!new)>(kind: Kind<S, L>, v: View<S, L, F>, stored: seq<S>, live: seq<L>, c: Copies)
    requires Keyed(kind, v) && DistinctKeys(v, stored) && (forall l :: l in live ==> HasCurrent(v, stored, l))
    requires forall s, l, c :: s in stored && l in live && v.current(s, l) ==> kind.update(s, l, c) == (s, c)
    ensures Pass1(kind, stored, live, c) == (stored, c)
    decreases |live|
  {
    if live != [] {
      var l := live[0];
      assert l in live;
      var s :| s in stored && v.key(s) == v.liveKey(l) && v.current(s, l);
      var k := FindStored(kind, stored, l);
      var i :| 0 <= i < |stored| && stored[i] == s;
      assert k == i;
      assert stored[k := s] == stored;
      assert forall l' :: l' in live[1..] ==> l' in live;
      Pass1Idle(kind, v, stored, live[1..], c);
    }
  }

  lemma {:induction false} Pass2Idle<S(!new), L(!new), F(!new)>(kind: Kind<S, L>, v: View<S, L, F>, stored: seq<S>, live: seq<L>, c: Copies)
    requires Keyed(kind, v) && (forall s :: s in stored ==> HasLive(v, live, v.key(s)))
    ensures Pass2(kind, stored, live, c) == (stored, c)
    decreases |stored|
  {
    if stored != [] {
      assert HasLive(v, live, v.key(stored[0]));
      assert forall s :: s in stored[1..] ==> s in stored;
      Pass2Idle(kind, v, stored[1..], live, c);
      assert [stored[0]] + stored[1..] == stored;
    }
  }

  // ---- When a pass brings every record up to date ----

  // Whether an update brings a record up to date does not depend on the table.
  ghost predicate Steady<S(!new), L(!new), F(!new)>(kind: Kind<S, L>, v: View<S, L, F>, stored: seq<S>, l: L) {
    && (forall s, c, c' :: s in stored && v.key(s) == v.liveKey(l) && v.current(kind.update(s, l, c).0, l) ==> v.current(kind.update(s, l, c').0, l))
    && (!HasKey(v, stored, v.liveKey(l)) ==>
          forall c, c', d, d' :: v.current(kind.update(kind.create(l, c).0, l, c').0, l) ==> v.current(kind.update(kind.create(l, d).0, l, d').0, l))
  }

  ghost predicate UpdateOf<S(!new), L(!new), F(!new)>(kind: Kind<S, L>, v: View<S, L, F>, stored: seq<S>, r: S, l: L) {
    exists s, c :: s in stored && v.key(s) == v.liveKey(l) && r == kind.update(s, l, c).0
  }

  ghost predicate CreatedFor<S(!new), L(!new)>(kind: Kind<S, L>, r: S, l: L) {
    exists c, c' :: r == kind.update(kind.create(l, c).0, l, c').0
  }

  // A view that knows where a record comes from.
  ghost function Origins<S(!new), L(!new), F(!new)>(kind: Kind<S, L>, v: View<S, L, F>, stored: seq<S>): View<S, L, F> {
    v.(current := (r: S, l: L) => UpdateOf(kind, v, stored, r, l) || (!HasKey(v, stored, v.liveKey(l)) && CreatedFor(kind, r, l)))
  }

  lemma OriginsKnown<S(!new), L(!new), F(!new)>(kind: Kind<S, L>, v: View<S, L, F>, stored: seq<S>, live: seq<L>, c: Copies)
    requires Keyed(kind, v) && DistinctKeys(v, stored) && DistinctLive(v, live)
    ensures Reconciled(Origins(kind, v, stored), Prepare(kind, stored, live, c).0, live)
  {
    var o := Origins(kind, v, stored);
    assert Keyed(kind, o) && DistinctKeys(o, stored) && DistinctLive(o, live);
    forall l | l in live ensures Refreshes(kind, o, stored, l) {
      forall s, c1 | s in stored && v.key(s) == v.liveKey(l) ensures o.current(kind.update(s, l, c1).0, l) {
        assert UpdateOf(kind, v, stored, kind.update(s, l, c1).0, l);
      }
      if !HasKey(o, stored, o.liveKey(l)) {
        assert !HasKey(v, stored, v.liveKey(l));
        forall c1, c2 ensures o.current(kind.update(kind.create(l, c1).0, l, c2).0, l) {
          assert CreatedFor(kind, kind.update(kind.create(l, c1).0, l, c2).0, l);
        }
      }
    }
    PrepareReconciles(kind, o, stored, live, c);
  }

  // A pass brings the list up to date if and only if updating brings the record of every live object up to date.
  lemma PrepareReconcilesIff<S(!new), L(!new), F(!new)>(kind: Kind<S, L>, v: View<S, L, F>, stored: seq<S>, live: seq<L>, c: Copies)
    requires Keyed(kind, v) && DistinctKeys(v, stored) && DistinctLive(v, live) && forall l :: l in live ==> Steady(kind, v, stored, l)
    ensures Reconciled(v, Prepare(kind, stored, live, c).0, live) <==> forall l :: l in live ==> Refreshes(kind, v, stored, l)
  {
    var r, o := Prepare(kind, stored, live, c).0, Origins(kind, v, stored);
    if forall l :: l in live ==> Refreshes(kind, v, stored, l) {
      PrepareReconciles(kind, v, stored, live, c);
    }
    if Reconciled(v, r, live) {
      OriginsKnown(kind, v, stored, live, c);
      forall l | l in live ensures Refreshes(kind, v, stored, l) {
        assert HasCurrent(v, r, l) && HasCurrent(o, r, l);
        var s :| s in r && v.key(s) == v.liveKey(l) && v.current(s, l);
        var s' :| s' in r && o.key(s') == o.liveKey(l) && o.current(s', l);
        SameRecord(v, r, s, s');
        RefreshesIf(kind, v, stored, s, l);
      }
    }
  }

  lemma SameRecord<S(!new), L(!new), F(!new)>(v: View<S, L, F>, stored: seq<S>, s: S, s': S)
    requires DistinctKeys(v, stored) && s in stored && s' in stored && v.key(s) == v.key(s')
    ensures s == s'
  {
    var i :| 0 <= i < |stored| && stored[i] == s;
    var j :| 0 <= j < |stored| && stored[j] == s';
  }

  lemma RefreshesIf<S(!new), L(!new), F(!new)>(kind: Kind<S, L>, v: View<S, L, F>, stored: seq<S>, r: S, l: L)
    requires DistinctKeys(v, stored) && Steady(kind, v, stored, l) && v.current(r, l) && Origins(kind, v, stored).current(r, l)
    ensures Refreshes(kind, v, stored, l)
  {
    if UpdateOf(kind, v, stored, r, l) {
      var s0, c0 :| s0 in stored && v.key(s0) == v.liveKey(l) && r == kind.update(s0, l, c0).0;
      forall s, c | s in stored && v.key(s) == v.liveKey(l) ensures v.current(kind.update(s, l, c).0, l) {
        SameRecord(v, stored, s, s0);
      }
    } else {
      var c0, c1 :| r == kind.update(kind.create(l, c0).0, l, c1).0;
    }
  }
}
