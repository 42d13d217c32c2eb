// Orig_copy_count_info: the table _copy_dataspaces of the checkpointer, which maps the badge of a
// dataspace to its copy and counts the stored records that refer to it.
module CopyTable {
  import opened InfoList

  datatype CopyEntry = CopyEntry(orig: nat, copy: nat, size: nat, refCount: int)

  // find_by_badge
  function Lookup(t: seq<CopyEntry>, badge: nat): Option<CopyEntry> {
    if t == [] then None
    else if t[0].orig == badge then Some(t[0])
    else Lookup(t[1..], badge)
  }

  ghost predicate DistinctOrigs(t: seq<CopyEntry>) {
    forall i, j :: 0 <= i < j < |t| ==> t[i].orig != t[j].orig
  }

  lemma {:induction false} LookupIs(t: seq<CopyEntry>, e: CopyEntry)
    requires DistinctOrigs(t) && e in t
    ensures Lookup(t, e.orig) == Some(e)
  {
    if t[0] != e {
      assert t == [t[0]] + t[1..];
      var i :| 0 <= i < |t| && t[i] == e;
      LookupIs(t[1..], e);
    }
  }

  lemma {:induction false} LookupFinds(t: seq<CopyEntry>, badge: nat)
    ensures Lookup(t, badge).Some? ==> Lookup(t, badge).value in t && Lookup(t, badge).value.orig == badge
    ensures Lookup(t, badge).None? ==> forall e :: e in t ==> e.orig != badge
  {
    if t != [] && t[0].orig != badge {
      LookupFinds(t[1..], badge);
      assert t == [t[0]] + t[1..];
    }
  }

  ghost function CopyOf(table: seq<CopyEntry>, badge: nat): nat {
    if Lookup(table, badge).Some? then Lookup(table, badge).value.copy else 0
  }

  // ---- Taking and releasing references ----

  // The table and the next unused copy dataspace; RAM for copies is always granted.
  datatype Copies = Copies(table: seq<CopyEntry>, next: nat)

  function AddCount(t: seq<CopyEntry>, badge: nat, n: int): (r: seq<CopyEntry>)
    ensures |r| == |t|
  {
    if t == [] then []
    else if t[0].orig == badge then [t[0].(refCount := t[0].refCount + n)] + t[1..]
    else [t[0]] + AddCount(t[1..], badge, n)
  }

  function RemoveEntry(t: seq<CopyEntry>, badge: nat): seq<CopyEntry> {
    if t == [] then []
    else if t[0].orig == badge then t[1..]
    else [t[0]] + RemoveEntry(t[1..], badge)
  }

  // A reference to the copy of badge, which is allocated if there is none.
  function AddRef(c: Copies, badge: nat, size: nat): Copies {
    if Lookup(c.table, badge).Some? then c.(table := AddCount(c.table, badge, 1))
    else Copies([CopyEntry(badge, c.next, size, 1)] + c.table, c.next + 1)
  }

  // The reference released; the entry goes with the last one.  Without an entry nothing happens.
  function DropRef(c: Copies, badge: nat): Copies {
    match Lookup(c.table, badge)
    case None => c
    case Some(e) =>
      if e.refCount - 1 < 1 then c.(table := RemoveEntry(c.table, badge))
      else c.(table := AddCount(c.table, badge, -1))
  }

  ghost function RefCount(t: seq<CopyEntry>, badge: nat): int {
    if Lookup(t, badge).Some? then Lookup(t, badge).value.refCount else 0
  }

  lemma {:induction false} AddCountLookup(t: seq<CopyEntry>, badge: nat, n: int, b: nat)
    ensures Lookup(AddCount(t, badge, n), b)
            == match Lookup(t, b) case None => None case Some(e) => Some(if b == badge then e.(refCount := e.refCount + n) else e)
  {
    if t != [] && t[0].orig != badge {
      AddCountLookup(t[1..], badge, n, b);
    }
  }

  lemma {:induction false} AddCountMembers(t: seq<CopyEntry>, badge: nat, n: int)
    ensures forall i :: 0 <= i < |t| ==> AddCount(t, badge, n)[i].(refCount := 0) == t[i].(refCount := 0)
  {
    if t != [] && t[0].orig != badge {
      AddCountMembers(t[1..], badge, n);
    }
  }

  lemma {:induction false} RemoveEntryLookup(t: seq<CopyEntry>, badge: nat, b: nat)
    requires DistinctOrigs(t)
    ensures Lookup(RemoveEntry(t, badge), b) == if b == badge then None else Lookup(t, b)
  {
    if t != [] {
      if t[0].orig != badge {
        RemoveEntryLookup(t[1..], badge, b);
      } else if b == badge {
        LookupFinds(t[1..], b);
      }
    }
  }

  lemma {:induction false} RemoveEntryMembers(t: seq<CopyEntry>, badge: nat)
    ensures forall e :: e in RemoveEntry(t, badge) ==> e in t
    ensures DistinctOrigs(t) ==> DistinctOrigs(RemoveEntry(t, badge))
  {
    if t != [] && t[0].orig != badge {
      RemoveEntryMembers(t[1..], badge);
      var r := RemoveEntry(t[1..], badge);
      forall i | 0 <= i < |r| && DistinctOrigs(t) ensures r[i].orig != t[0].orig {
        assert r[i] in t[1..];
      }
    }
  }

  // The first entry of the badge goes, the others stay in their order.
  lemma {:induction false} RemoveEntryKeepsOrder(t: seq<CopyEntry>, badge: nat, k: nat)
    requires k < |t| && t[k].orig == badge && forall i :: 0 <= i < k ==> t[i].orig != badge
    ensures RemoveEntry(t, badge) == t[..k] + t[k + 1..]
  {
    if k > 0 {
      RemoveEntryKeepsOrder(t[1..], badge, k - 1);
      assert t[1..][..k - 1] == t[1..k] && t[1..][k..] == t[k + 1..];
      assert [t[0]] + t[1..k] == t[..k];
    }
  }

  // ---- The invariant ----

  // refs is the multiset of dataspace badges of all stored records that hold a copy, and managed the
  // badges of region maps, which never get one.  Counts are exact, an entry exists exactly while it is
  // referred to, and no two entries share a copy.
  ghost predicate Exact(c: Copies, refs: multiset<nat>, managed: set<nat>) {
    && DistinctOrigs(c.table)
    && (forall b :: RefCount(c.table, b) == refs[b])
    && (forall b :: Lookup(c.table, b).Some? <==> refs[b] > 0)
    && (forall b :: b in managed ==> refs[b] == 0)
    && (forall b :: Lookup(c.table, b).Some? ==> CopyOf(c.table, b) < c.next)
    && (forall b, b' :: Lookup(c.table, b).Some? && Lookup(c.table, b').Some? && CopyOf(c.table, b) == CopyOf(c.table, b') ==> b == b')
  }

  ghost function SizeOf(table: seq<CopyEntry>, badge: nat): nat {
    if Lookup(table, badge).Some? then Lookup(table, badge).value.size else 0
  }

  // Every badge in kept has the same copy before and after, of the same size.
  ghost predicate Stable(c: Copies, c': Copies, kept: multiset<nat>) {
    && c.next <= c'.next
    && forall b :: b in kept ==> CopyOf(c'.table, b) == CopyOf(c.table, b) && SizeOf(c'.table, b) == SizeOf(c.table, b)
  }

  // ---- What one reference taken or released does to every entry ----

  lemma {:induction false} AddRefLookup(c: Copies, badge: nat, size: nat, b: nat)
    ensures Lookup(AddRef(c, badge, size).table, b) ==
      if b != badge then Lookup(c.table, b)
      else match Lookup(c.table, badge)
        case None => Some(CopyEntry(badge, c.next, size, 1))
        case Some(e) => Some(e.(refCount := e.refCount + 1))
  {
    if Lookup(c.table, badge).Some? {
      AddCountLookup(c.table, badge, 1, b);
      LookupFinds(c.table, b);
    } else {
      assert AddRef(c, badge, size).table[1..] == c.table;
    }
  }

  lemma AddRefDistinct(c: Copies, badge: nat, size: nat)
    requires DistinctOrigs(c.table)
    ensures DistinctOrigs(AddRef(c, badge, size).table)
  {
    var t := AddRef(c, badge, size).table;
    LookupFinds(c.table, badge);
    if Lookup(c.table, badge).Some? {
      AddCountMembers(c.table, badge, 1);
      assert forall i :: 0 <= i < |c.table| ==> t[i].orig == t[i].(refCount := 0).orig;
    }
  }

  lemma {:induction false} DropRefLookup(c: Copies, badge: nat, b: nat)
    requires DistinctOrigs(c.table)
    ensures Lookup(DropRef(c, badge).table, b) ==
      if b != badge then Lookup(c.table, b)
      else match Lookup(c.table, badge)
        case None => None
        case Some(e) => if e.refCount - 1 < 1 then None else Some(e.(refCount := e.refCount - 1))
  {
    if Lookup(c.table, badge).Some? {
      RemoveEntryLookup(c.table, badge, b);
      AddCountLookup(c.table, badge, -1, b);
      LookupFinds(c.table, b);
    }
  }

  lemma DropRefDistinct(c: Copies, badge: nat)
    requires DistinctOrigs(c.table)
    ensures DistinctOrigs(DropRef(c, badge).table)
  {
    var t := DropRef(c, badge).table;
    if Lookup(c.table, badge).Some? {
      if Lookup(c.table, badge).value.refCount - 1 < 1 {
        RemoveEntryMembers(c.table, badge);
      } else {
        AddCountMembers(c.table, badge, -1);
        assert forall i :: 0 <= i < |c.table| ==> t[i].orig == t[i].(refCount := 0).orig;
      }
    }
  }

  lemma AddRefExact(c: Copies, refs: multiset<nat>, managed: set<nat>, badge: nat, size: nat)
    requires Exact(c, refs, managed) && badge !in managed
    ensures Exact(AddRef(c, badge, size), refs + multiset{badge}, managed)
    ensures Stable(c, AddRef(c, badge, size), refs)
  {
    var c' := AddRef(c, badge, size);
    AddRefDistinct(c, badge, size);
    forall b ensures Lookup(c'.table, b) == if b != badge then Lookup(c.table, b)
      else match Lookup(c.table, badge)
        case None => Some(CopyEntry(badge, c.next, size, 1))
        case Some(e) => Some(e.(refCount := e.refCount + 1))
    {
      AddRefLookup(c, badge, size, b);
    }
  }

  lemma DropRefExact(c: Copies, refs: multiset<nat>, managed: set<nat>, badge: nat)
    requires Exact(c, refs + multiset{badge}, managed)
    ensures Exact(DropRef(c, badge), refs, managed)
    ensures Stable(c, DropRef(c, badge), refs)
  {
    var c', all := DropRef(c, badge), refs + multiset{badge};
    assert all[badge] == refs[badge] + 1 && RefCount(c.table, badge) == all[badge];
    DropRefDistinct(c, badge);
    forall b ensures Lookup(c'.table, b) == if b != badge then Lookup(c.table, b)
      else match Lookup(c.table, badge)
        case None => None
        case Some(e) => if e.refCount - 1 < 1 then None else Some(e.(refCount := e.refCount - 1))
    {
      DropRefLookup(c, badge, b);
    }
  }
}
