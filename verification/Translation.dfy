// _ckpt_to_resto_infos: the translation from badges of the checkpointed child to the objects that now
// stand for them (src/rtcr/util/ckpt_resto_badge_info.h).
module Translation {
  import opened Folding
  import opened InfoList
  import opened RamIdentify

  // find_by_ckpt_badge
  function Translate(tr: seq<CkptResto>, badge: nat): Option<nat> {
    if tr == [] then None
    else if tr[0].ckptBadge == badge then Some(tr[0].restoBadge)
    else Translate(tr[1..], badge)
  }

  // No badge is translated twice and no two badges to the same object.
  ghost predicate Faithful(tr: seq<CkptResto>) {
    forall i, j :: 0 <= i < j < |tr| ==> tr[i].ckptBadge != tr[j].ckptBadge && tr[i].restoBadge != tr[j].restoBadge
  }

  ghost function Keys(tr: seq<CkptResto>): set<nat> {
    set e | e in tr :: e.ckptBadge
  }

  ghost function Images(tr: seq<CkptResto>): set<nat> {
    set e | e in tr :: e.restoBadge
  }

  lemma {:induction false} TranslateIff(tr: seq<CkptResto>, badge: nat)
    ensures Translate(tr, badge).Some? <==> badge in Keys(tr)
    ensures Translate(tr, badge).Some? ==> CkptResto(badge, Translate(tr, badge).value) in tr
  {
    if tr != [] {
      assert tr == [tr[0]] + tr[1..];
      TranslateIff(tr[1..], badge);
    }
  }

  lemma {:induction false} TranslateAppend(a: seq<CkptResto>, b: seq<CkptResto>, badge: nat)
    ensures Translate(a + b, badge) == if Translate(a, badge).Some? then Translate(a, badge) else Translate(b, badge)
  {
    if a == [] {
      assert a + b == b;
    } else {
      TranslateAppend(a[1..], b, badge);
      assert (a + b)[1..] == a[1..] + b;
    }
  }

  // In a faithful translation the first match is the only one.
  lemma {:induction false} TranslateIs(tr: seq<CkptResto>, badge: nat, target: nat)
    requires Faithful(tr)
    ensures Translate(tr, badge) == Some(target) <==> CkptResto(badge, target) in tr
  {
    TranslateIff(tr, badge);
    if CkptResto(badge, target) in tr {
      var e := CkptResto(badge, target);
      assert badge in Keys(tr);
      var i :| 0 <= i < |tr| && tr[i] == e;
      var j :| 0 <= j < |tr| && tr[j] == CkptResto(badge, Translate(tr, badge).value);
      assert i == j;
    }
  }

  // The translation is a one-to-one map from its badges to its objects.
  lemma {:induction false} TranslateOneToOne(tr: seq<CkptResto>, b: nat, b': nat)
    requires Faithful(tr) && b in Keys(tr) && b' in Keys(tr)
    ensures Translate(tr, b).Some? && Translate(tr, b').Some?
    ensures Translate(tr, b) == Translate(tr, b') <==> b == b'
  {
    TranslateIff(tr, b);
    TranslateIff(tr, b');
    if Translate(tr, b) == Translate(tr, b') {
      var i :| 0 <= i < |tr| && tr[i] == CkptResto(b, Translate(tr, b).value);
      var j :| 0 <= j < |tr| && tr[j] == CkptResto(b', Translate(tr, b').value);
      assert i == j;
    }
  }

  // ---- How a phase of the restorer extends the translation ----

  // A phase has translated the stored badges keys, each to one of the child's own objects in boot or to
  // an object created in the phase.  The quantifier keeps this folded; OpenExtends unfolds it.
  ghost predicate Extends(tr0: seq<CkptResto>, next0: nat, tr: seq<CkptResto>, next: nat, keys: set<nat>, boot: set<nat>) {
    forall key: nat {:trigger UnfoldFor(key, tr)} :: UnfoldFor(key, tr) ==> ExtendsBy(tr0, next0, tr, next, keys, boot)
  }

  ghost predicate ExtendsBy(tr0: seq<CkptResto>, next0: nat, tr: seq<CkptResto>, next: nat, keys: set<nat>, boot: set<nat>) {
    next0 <= next && |tr0| <= |tr| && tr[|tr| - |tr0|..] == tr0 && Added(tr[..|tr| - |tr0|], next0, next, keys, boot)
  }

  lemma OpenExtends(tr0: seq<CkptResto>, next0: nat, tr: seq<CkptResto>, next: nat, keys: set<nat>, boot: set<nat>)
    ensures Extends(tr0, next0, tr, next, keys, boot) <==> ExtendsBy(tr0, next0, tr, next, keys, boot)
  {
    assert UnfoldFor(0, tr);
  }

  ghost predicate Added(news: seq<CkptResto>, next0: nat, next: nat, keys: set<nat>, boot: set<nat>) {
    && Faithful(news) && Keys(news) == keys
    && (forall e :: e in news ==> e.restoBadge in boot || next0 <= e.restoBadge < next)
  }

  lemma FaithfulAppend(a: seq<CkptResto>, b: seq<CkptResto>)
    requires Faithful(a) && Faithful(b) && Keys(a) !! Keys(b) && Images(a) !! Images(b)
    ensures Faithful(a + b) && Keys(a + b) == Keys(a) + Keys(b)
  {
    var r := a + b;
    forall i, j | 0 <= i < j < |r| ensures r[i].ckptBadge != r[j].ckptBadge && r[i].restoBadge != r[j].restoBadge {
      if i < |a| && |a| <= j {
        assert a[i] in a && b[j - |a|] in b;
        assert a[i].ckptBadge in Keys(a) && b[j - |a|].ckptBadge in Keys(b);
        assert a[i].restoBadge in Images(a) && b[j - |a|].restoBadge in Images(b);
      }
    }
  }

  lemma ExtendsNothing(tr: seq<CkptResto>, next: nat)
    ensures Extends(tr, next, tr, next, {}, {})
  {
    assert tr[0..] == tr && tr[..0] == [];
    OpenExtends(tr, next, tr, next, {}, {});
  }

  lemma ExtendsOne(tr: seq<CkptResto>, next: nat, next': nat, badge: nat, target: nat, boot: set<nat>)
    requires next <= next' && (target in boot || next <= target < next')
    ensures Extends(tr, next, [CkptResto(badge, target)] + tr, next', {badge}, boot)
  {
    var tr' := [CkptResto(badge, target)] + tr;
    assert tr'[1..] == tr && tr'[..1] == [CkptResto(badge, target)];
    OpenExtends(tr, next, tr', next', {badge}, boot);
  }

  lemma ExtendsMore(tr0: seq<CkptResto>, next0: nat, tr: seq<CkptResto>, next: nat, keys: set<nat>, boot: set<nat>, boot': set<nat>)
    requires Extends(tr0, next0, tr, next, keys, boot) && boot <= boot'
    ensures Extends(tr0, next0, tr, next, keys, boot')
  {
    OpenExtends(tr0, next0, tr, next, keys, boot);
    OpenExtends(tr0, next0, tr, next, keys, boot');
  }

  lemma ImagesBounded(news: seq<CkptResto>, next0: nat, next: nat, keys: set<nat>, boot: set<nat>)
    requires Added(news, next0, next, keys, boot)
    ensures forall x :: x in Images(news) ==> x in boot || next0 <= x < next
  {
  }

  // Phases on different stored objects and different objects of the child add up.
  lemma ExtendsThen(tr0: seq<CkptResto>, n0: nat, tr1: seq<CkptResto>, n1: nat, tr2: seq<CkptResto>, n2: nat,
                    keys1: set<nat>, boot1: set<nat>, keys2: set<nat>, boot2: set<nat>)
    requires Extends(tr0, n0, tr1, n1, keys1, boot1) && Extends(tr1, n1, tr2, n2, keys2, boot2)
    requires keys1 !! keys2 && boot1 !! boot2 && (forall o :: o in boot1 || o in boot2 ==> o < n0)
    ensures Extends(tr0, n0, tr2, n2, keys1 + keys2, boot1 + boot2)
  {
    OpenExtends(tr0, n0, tr1, n1, keys1, boot1);
    OpenExtends(tr1, n1, tr2, n2, keys2, boot2);
    OpenExtends(tr0, n0, tr2, n2, keys1 + keys2, boot1 + boot2);
    var a, b := tr2[..|tr2| - |tr1|], tr1[..|tr1| - |tr0|];
    assert tr2 == a + tr1 && tr1 == b + tr0;
    assert tr2[..|tr2| - |tr0|] == a + b && tr2[|tr2| - |tr0|..] == tr0;
    ImagesBounded(a, n1, n2, keys2, boot2);
    ImagesBounded(b, n0, n1, keys1, boot1);
    assert forall x :: x in Images(a) ==> x !in Images(b);
    FaithfulAppend(a, b);
  }

  lemma ExtendsKeeps(tr0: seq<CkptResto>, next0: nat, tr: seq<CkptResto>, next: nat, keys: set<nat>, boot: set<nat>)
    requires Extends(tr0, next0, tr, next, keys, boot)
    ensures next0 <= next && forall e :: e in tr0 ==> e in tr
    ensures Keys(tr) == Keys(tr0) + keys
  {
    OpenExtends(tr0, next0, tr, next, keys, boot);
    assert tr == tr[..|tr| - |tr0|] + tr0;
  }

  // ---- Chains of phases ----

  ghost function UnionTo(parts: seq<set<nat>>, n: nat): set<nat>
    requires n <= |parts|
  {
    if n == 0 then {} else UnionTo(parts, n - 1) + parts[n - 1]
  }

  ghost predicate Apart(parts: seq<set<nat>>) {
    forall i, j :: 0 <= i < j < |parts| ==> parts[i] !! parts[j]
  }

  lemma {:induction false} ApartFromUnion(parts: seq<set<nat>>, n: nat, m: nat)
    requires Apart(parts) && n <= m < |parts|
    ensures UnionTo(parts, n) !! parts[m]
  {
    if n > 0 {
      ApartFromUnion(parts, n - 1, m);
    }
  }

  lemma {:induction false} InUnion(parts: seq<set<nat>>, n: nat, m: nat)
    requires m < n <= |parts|
    ensures parts[m] <= UnionTo(parts, n)
  {
    if m < n - 1 {
      InUnion(parts, n - 1, m);
    }
  }

  lemma {:induction false} UnionsNest(parts: seq<set<nat>>, n: nat, m: nat)
    requires n <= m <= |parts|
    ensures UnionTo(parts, n) <= UnionTo(parts, m)
  {
    if n < m {
      UnionsNest(parts, n, m - 1);
    }
  }

  lemma {:induction false} UnionBelow(parts: seq<set<nat>>, n: nat, bound: nat)
    requires n <= |parts| && forall i, o :: 0 <= i < |parts| && o in parts[i] ==> o < bound
    ensures forall o :: o in UnionTo(parts, n) ==> o < bound
  {
    if n > 0 {
      UnionBelow(parts, n - 1, bound);
    }
  }

  // The first n phases, each with its own stored badges and its own objects of the child.
  ghost predicate Chain(tr0: seq<CkptResto>, n0: nat, tr: seq<CkptResto>, next: nat, keys: seq<set<nat>>, boots: seq<set<nat>>, n: nat)
    requires n <= |keys| && n <= |boots|
  {
    Extends(tr0, n0, tr, next, UnionTo(keys, n), UnionTo(boots, n))
  }

  // Folded like Extends.
  ghost predicate Chainable(n0: nat, keys: seq<set<nat>>, boots: seq<set<nat>>) {
    |keys| == |boots| && forall key: nat {:trigger Unfold(key)} :: Unfold(key) ==>
      Apart(keys) && Apart(boots) && forall i, o :: 0 <= i < |boots| && o in boots[i] ==> o < n0
  }

  lemma OpenChainable(n0: nat, keys: seq<set<nat>>, boots: seq<set<nat>>)
    ensures Chainable(n0, keys, boots) <==>
      |keys| == |boots| && Apart(keys) && Apart(boots) && forall i, o :: 0 <= i < |boots| && o in boots[i] ==> o < n0
  {
    assert Unfold(0);
  }

  lemma OwnBelow(n0: nat, keys: seq<set<nat>>, boots: seq<set<nat>>, i: nat)
    requires Chainable(n0, keys, boots) && i < |boots|
    ensures forall o :: o in boots[i] ==> o < n0
  {
    OpenChainable(n0, keys, boots);
  }

  lemma ChainNext(tr0: seq<CkptResto>, n0: nat, tr: seq<CkptResto>, next: nat, tr': seq<CkptResto>, next': nat,
                  keys: seq<set<nat>>, boots: seq<set<nat>>, n: nat)
    requires Chainable(n0, keys, boots) && n < |keys| && Chain(tr0, n0, tr, next, keys, boots, n)
    requires Extends(tr, next, tr', next', keys[n], boots[n])
    ensures Chain(tr0, n0, tr', next', keys, boots, n + 1)
  {
    OpenChainable(n0, keys, boots);
    ApartFromUnion(keys, n, n);
    ApartFromUnion(boots, n, n);
    UnionBelow(boots, n, n0);
    ExtendsThen(tr0, n0, tr, next, tr', next', UnionTo(keys, n), UnionTo(boots, n), keys[n], boots[n]);
  }

  // What a complete restore relies on: starting from nothing, everything named is translated, one to one.
  lemma ExtendsNothingIsFaithful(next0: nat, tr: seq<CkptResto>, next: nat, keys: set<nat>, boot: set<nat>)
    requires Extends([], next0, tr, next, keys, boot)
    ensures Faithful(tr) && Keys(tr) == keys
  {
    OpenExtends([], next0, tr, next, keys, boot);
    assert tr[..|tr| - 0] == tr;
  }
}
