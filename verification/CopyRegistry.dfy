// The checkpointer's _copy_dataspaces and the four helpers that take and release references to a copy.
module CopyRegistry {
  import opened InfoList
  import opened CopyTable

  // Orig_copy_count_info
  class OrigCopyCountInfo {
    const orig: nat
    const copy: nat
    const size: nat
    var refCount: int

    constructor (orig: nat, copy: nat, size: nat)
      ensures this.orig == orig && this.copy == copy && this.size == size && refCount == 1
    {
      this.orig, this.copy, this.size, this.refCount := orig, copy, size, 1;
    }

    function Entry(): CopyEntry
      reads this
    {
      CopyEntry(orig, copy, size, refCount)
    }
  }

  lemma {:induction false} LookupAt(t: seq<CopyEntry>, badge: nat, k: nat)
    requires k <= |t| && (forall j :: 0 <= j < k ==> t[j].orig != badge) && (k < |t| ==> t[k].orig == badge)
    ensures Lookup(t, badge) == if k < |t| then Some(t[k]) else None
  {
    if k > 0 {
      LookupAt(t[1..], badge, k - 1);
    }
  }

  lemma {:induction false} AddCountAt(t: seq<CopyEntry>, badge: nat, k: nat, n: int)
    requires k < |t| && (forall j :: 0 <= j < k ==> t[j].orig != badge) && t[k].orig == badge
    ensures AddCount(t, badge, n) == t[k := t[k].(refCount := t[k].refCount + n)]
  {
    if k > 0 {
      AddCountAt(t[1..], badge, k - 1, n);
    }
  }

  lemma {:induction false} RemoveEntryAt(t: seq<CopyEntry>, badge: nat, k: nat)
    requires k < |t| && (forall j :: 0 <= j < k ==> t[j].orig != badge) && t[k].orig == badge
    ensures RemoveEntry(t, badge) == RemoveAt(t, k)
  {
    if k > 0 {
      RemoveEntryAt(t[1..], badge, k - 1);
      assert RemoveAt(t, k) == [t[0]] + RemoveAt(t[1..], k - 1);
    }
  }

  lemma FoundAt(t: seq<CopyEntry>, badge: nat, k: nat)
    requires k <= |t| && (forall j :: 0 <= j < k ==> t[j].orig != badge) && (k < |t| ==> t[k].orig == badge)
    ensures Lookup(t, badge) == if k < |t| then Some(t[k]) else None
    ensures k < |t| ==> forall n :: AddCount(t, badge, n) == t[k := t[k].(refCount := t[k].refCount + n)]
    ensures k < |t| ==> RemoveEntry(t, badge) == RemoveAt(t, k)
  {
    LookupAt(t, badge, k);
    if k < |t| {
      RemoveEntryAt(t, badge, k);
      forall n
        ensures AddCount(t, badge, n) == t[k := t[k].(refCount := t[k].refCount + n)]
      {
        AddCountAt(t, badge, k, n);
      }
    }
  }

  class CopyDataspaces {
    var infos: seq<OrigCopyCountInfo>
    // The badge of the next dataspace the checkpointer's own RAM session hands out.
    var next: nat
    ghost var Repr: set<object>

    ghost predicate Valid()
      reads this, Repr
    {
      && this in Repr && (forall i :: 0 <= i < |infos| ==> infos[i] in Repr)
      && (forall i, j :: 0 <= i < j < |infos| ==> infos[i] != infos[j])
    }

    ghost function Table(): (c: Copies)
      requires Valid()
      reads this, Repr
      ensures |c.table| == |infos| && c.next == next && forall i :: 0 <= i < |infos| ==> c.table[i] == infos[i].Entry()
    {
      Copies(seq(|infos|, i requires 0 <= i < |infos| && Valid() reads this, Repr => infos[i].Entry()), next)
    }

    constructor ()
      ensures Valid() && fresh(Repr) && Table() == Copies([], 1)
    {
      infos, next := [], 1;
      Repr := {this};
    }

    method FindByBadge(badge: nat) returns (k: nat)
      requires Valid()
      ensures k <= |infos| && Lookup(Table().table, badge) == if k < |infos| then Some(Table().table[k]) else None
      ensures k < |infos| ==> forall n ::
        AddCount(Table().table, badge, n) == Table().table[k := Table().table[k].(refCount := Table().table[k].refCount + n)]
      ensures k < |infos| ==> RemoveEntry(Table().table, badge) == RemoveAt(Table().table, k)
    {
      k := 0;
      while k < |infos| && infos[k].orig != badge
        invariant k <= |infos| && forall j :: 0 <= j < k ==> infos[j].orig != badge
      {
        k := k + 1;
      }
      FoundAt(Table().table, badge, k);
    }

    // known_info->ref_count += n
    method Count(k: nat, n: int)
      requires Valid() && k < |infos|
      modifies Repr
      ensures Valid() && Repr == old(Repr)
      ensures Table() == old(Table()).(table := old(Table().table)[k := old(Table().table)[k].(refCount := old(Table().table)[k].refCount + n)])
    {
      ghost var t := Table().table;
      infos[k].refCount := infos[k].refCount + n;
      assert Table().table == t[k := t[k].(refCount := t[k].refCount + n)];
    }

    // A new copy with one reference; RAM for it is always granted.
    method Insert(badge: nat, size: nat)
      requires Valid()
      modifies Repr
      ensures Valid() && fresh(Repr - old(Repr))
      ensures Table() == Copies([CopyEntry(badge, old(next), size, 1)] + old(Table()).table, old(next) + 1)
    {
      ghost var t := Table().table;
      var info := new OrigCopyCountInfo(badge, next, size);
      infos := [info] + infos;
      next := next + 1;
      Repr := Repr + {info};
      assert Table().table == [info.Entry()] + t;
    }

    method Remove(k: nat)
      requires Valid() && k < |infos|
      modifies Repr
      ensures Valid() && Repr == old(Repr)
      ensures Table() == old(Table()).(table := RemoveAt(old(Table()).table, k))
    {
      ghost var t := Table().table;
      infos := RemoveAt(infos, k);
      assert Table().table == RemoveAt(t, k);
    }

    // _create_stored_ram_dataspace takes a reference, and makes a copy if there is none.
    method Acquire(badge: nat, size: nat) returns (copy: nat)
      requires Valid()
      modifies Repr
      ensures Valid() && fresh(Repr - old(Repr))
      ensures Table() == AddRef(old(Table()), badge, size)
      ensures Lookup(Table().table, badge).Some? && copy == Lookup(Table().table, badge).value.copy
    {
      var k := FindByBadge(badge);
      ghost var c := Table();
      if k < |infos| {
        copy := infos[k].copy;
        Count(k, 1);
        AddCountLookup(c.table, badge, 1, badge);
      } else {
        copy := next;
        Insert(badge, size);
      }
    }

    // _create_stored_attached_region makes no copy of a region map's dataspace.
    method AcquireUnless(badge: nat, size: nat, regionMaps: seq<nat>) returns (copy: Option<nat>)
      requires Valid()
      modifies Repr
      ensures Valid() && fresh(Repr - old(Repr))
      ensures Lookup(old(Table()).table, badge).None? && badge in regionMaps ==> Table() == old(Table()) && copy == None
      ensures Lookup(old(Table()).table, badge).Some? || badge !in regionMaps ==>
        && Table() == AddRef(old(Table()), badge, size)
        && Lookup(Table().table, badge).Some? && copy == Some(Lookup(Table().table, badge).value.copy)
    {
      var k := FindByBadge(badge);
      if k < |infos| || badge !in regionMaps {
        var c := Acquire(badge, size);
        copy := Some(c);
      } else {
        copy := None;
      }
    }

    // _destroy_stored_*: the reference is released, and the copy with the last one.
    method Release(badge: nat)
      requires Valid()
      modifies Repr
      ensures Valid() && Repr == old(Repr)
      ensures Table() == DropRef(old(Table()), badge)
    {
      var k := FindByBadge(badge);
      if k < |infos| {
        Count(k, -1);
        if infos[k].refCount < 1 {
          Remove(k);
          assert Table().table == RemoveAt(old(Table()).table, k);
        }
      }
    }
  }
}
