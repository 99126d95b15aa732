/** The iterator of `lib/hashtable.c`, with removal while iterating. */
module Iterators {
  import opened Chains
  import opened HashTables

  // ----- the iteration order

  lemma {:induction false} FlatFrom(chains: Buckets, i: nat)
    requires i < |chains|
    ensures Flat(chains[i..]) == chains[i] + Flat(chains[i + 1..])
  {
    assert chains[i..][1..] == chains[i + 1..];
  }

  /** Empty chains contribute nothing to the order. */
  lemma {:induction false} FlatSkip(chains: Buckets, i: nat, k: nat)
    requires i <= k <= |chains| && forall j :: i <= j < k ==> chains[j] == []
    ensures Flat(chains[i..]) == Flat(chains[k..])
    decreases k - i
  {
    if i < k {
      FlatFrom(chains, i);
      FlatSkip(chains, i + 1, k);
    }
  }

  lemma {:induction false} FlatMember(chains: Buckets, e: Entry)
    ensures e in Flat(chains) <==> exists i :: 0 <= i < |chains| && e in chains[i]
  {
    if chains != [] {
      FlatMember(chains[1..], e);
      if e in Flat(chains[1..]) {
        var i :| 0 <= i < |chains[1..]| && e in chains[1..][i];
        assert e in chains[i + 1];
      }
      forall i | 0 < i < |chains| && e in chains[i] ensures e in Flat(chains[1..]) {
        assert e in chains[1..][i - 1];
      }
    }
  }

  lemma NoDupJoin(s: seq<Entry>, t: seq<Entry>)
    requires NoDup(s) && NoDup(t) && forall e :: e in s ==> e !in t
    ensures NoDup(s + t)
  {
    forall i, j | 0 <= i < j < |s + t| ensures (s + t)[i] != (s + t)[j] {
      if i < |s| <= j {
        assert s[i] in s && t[j - |s|] in t;
      }
    }
  }

  lemma {:induction false} FlatNoDup(chains: Buckets, n: nat, first: nat)
    requires n > 0 && (forall i :: 0 <= i < |chains| ==> NoDup(chains[i]))
    requires forall i, j :: 0 <= i < |chains| && 0 <= j < |chains[i]| ==> chains[i][j].h % n == first + i
    ensures NoDup(Flat(chains))
  {
    if chains != [] {
      FlatNoDup(chains[1..], n, first + 1);
      forall e | e in chains[0] ensures e !in Flat(chains[1..]) {
        FlatMember(chains[1..], e);
        assert e.h % n == first;
      }
      NoDupJoin(chains[0], Flat(chains[1..]));
    }
  }

  /** `s` lists every entry of `owned` exactly once, and nothing else. */
  ghost predicate Lists(s: seq<Entry>, owned: set<Entry>) {
    NoDup(s) && (forall i :: 0 <= i < |s| ==> s[i] in owned) && (forall e :: e in owned ==> e in s)
  }

  lemma ListsTail(s: seq<Entry>, owned: set<Entry>)
    requires Lists(s, owned) && s != []
    ensures Lists(s[1..], owned - {s[0]})
  {
  }

  lemma ListsNothing(owned: set<Entry>, hashfn: string -> nat, m: map<string, Value>)
    requires Lists([], owned) && Models(hashfn, owned, m)
    ensures owned == {} && m == map[]
  {
  }

  /** The iteration order lists every entry of the table exactly once. */
  lemma FlatExact(chains: Buckets, owned: set<Entry>)
    requires Bucketed(chains) && Holds(chains, owned)
    ensures Lists(Flat(chains), owned)
  {
    FlatNoDup(chains, |chains|, 0);
    forall i | 0 <= i < |Flat(chains)| ensures Flat(chains)[i] in owned {
      FlatMember(chains, Flat(chains)[i]);
    }
    forall e | e in owned ensures e in Flat(chains) {
      FlatMember(chains, e);
    }
  }

  // ----- positions in the order

  /** `e` is entry `pos` of chain `index` with its predecessor `parent`, or the end is reached. */
  ghost predicate Positioned(chains: Buckets, e: Entry?, parent: Entry?, index: nat, pos: nat) {
    if e == null then index == |chains|
    else index < |chains| && pos < |chains[index]| && e == chains[index][pos]
         && parent == if pos == 0 then null else chains[index][pos - 1]
  }

  /** The entries from a position on. */
  ghost function From(chains: Buckets, e: Entry?, index: nat, pos: nat): seq<Entry> {
    if e == null || index >= |chains| || pos > |chains[index]| then []
    else chains[index][pos..] + Flat(chains[index + 1..])
  }

  /** `index` is the next bucket after `from` that is not empty, and `e` its head. */
  ghost predicate NextBucket(chains: Buckets, from: int, index: nat, e: Entry?) {
    && from < index <= |chains|
    && (forall j :: from < j < index && 0 <= j ==> chains[j] == [])
    && e == (if index < |chains| then At(chains[index], 0) else null)
    && (index < |chains| ==> chains[index] != [])
  }

  lemma BucketFrom(chains: Buckets, from: int, index: nat, e: Entry?)
    requires -1 <= from && NextBucket(chains, from, index, e)
    ensures Positioned(chains, e, null, index, 0)
    ensures From(chains, e, index, 0) == Flat(chains[from + 1..])
  {
    FlatSkip(chains, from + 1, index);
    if index < |chains| {
      FlatFrom(chains, index);
      assert chains[index][0..] == chains[index];
    }
  }

  lemma FromHead(chains: Buckets, e: Entry?, parent: Entry?, index: nat, pos: nat)
    requires Positioned(chains, e, parent, index, pos)
    ensures From(chains, e, index, pos) == [] <==> e == null
    ensures e != null ==> From(chains, e, index, pos)[0] == e && index < |chains| && pos < |chains[index]|
  {
  }

  lemma FromNext(chains: Buckets, e: Entry, parent: Entry?, index: nat, pos: nat)
    requires Positioned(chains, e, parent, index, pos)
    ensures pos + 1 < |chains[index]| ==>
              Positioned(chains, chains[index][pos + 1], e, index, pos + 1)
              && From(chains, chains[index][pos + 1], index, pos + 1) == From(chains, e, index, pos)[1..]
    ensures pos + 1 == |chains[index]| ==> Flat(chains[index + 1..]) == From(chains, e, index, pos)[1..]
  {
    assert chains[index][pos..][1..] == chains[index][pos + 1..];
  }

  /** The same after the current entry has been cut out of its chain. */
  lemma FromRemoved(chains: Buckets, e: Entry, parent: Entry?, index: nat, pos: nat)
    requires Positioned(chains, e, parent, index, pos)
    ensures var chains' := chains[index := chains[index][..pos] + chains[index][pos + 1..]];
            && (pos + 1 < |chains[index]| ==>
                  Positioned(chains', chains[index][pos + 1], parent, index, pos)
                  && From(chains', chains[index][pos + 1], index, pos) == From(chains, e, index, pos)[1..])
            && (pos + 1 == |chains[index]| ==>
                  Flat(chains'[index + 1..]) == From(chains, e, index, pos)[1..])
  {
    var chain := chains[index];
    var chain' := chain[..pos] + chain[pos + 1..];
    assert chains[index := chain'][index + 1..] == chains[index + 1..];
    assert chain'[pos..] == chain[pos + 1..] == chain[pos..][1..];
  }

  /** The search of `hashtable_iterator` for the first entry. */
  method FirstEntry(h: HashTable) returns (e: Entry?, index: nat)
    requires h.Valid()
    ensures NextBucket(h.chains, -1, index, e)
  {
    hide *;
    h.SplitValid();
    h.SplitShape();
    e, index := null, h.tablelength;
    if h.entrycount == 0 {
      NoneHeld(h.chains, h.owned, h.hashfn, h.m);
      AllEmpty(h.chains);
    } else {
      index := Scan(h, -1);
      e := if index < h.tablelength then h.table[index] else null;
      BucketHead(h, -1, index);
    }
  }

  /** `struct hashtable_itr`. */
  class Iterator {
    const h: HashTable
    var e: Entry?
    var parent: Entry?
    var index: nat
    ghost var pos: nat  // the place of `e` in its chain

    /** The iterator stands on an entry and knows its predecessor, or is at the end. */
    ghost predicate Valid()
      reads this, h`table, h`tablelength, h`chains, h`owned, h`m, h.table, h.owned
    {
      h.Shape() && Positioned(h.chains, e, parent, index, pos)
    }

    /** The entries still to be visited, the current one first. */
    ghost function Remaining(): (s: seq<Entry>)
      reads this, h`chains
    {
      From(h.chains, e, index, pos)
    }

    /** `hashtable_iterator`. */
    constructor (h: HashTable)
      requires h.Valid()
      ensures this.h == h && Valid() && Remaining() == Flat(h.chains)
    {
      hide NoDup, Bucketed, Holds, Models, Linked, HashTable.Shape, HashTable.Valid, Positioned, From, Flat, NextBucket, Prime;
      var first, bucket := FirstEntry(h);
      this.h := h;
      e, parent, index, pos := first, null, bucket, 0;
      new;
      h.SplitValid();
      BucketFrom(h.chains, -1, index, e);
      assert h.chains[0..] == h.chains;
    }

    /** `hashtable_iterator_advance`.  `hashtable_iterator_remove` calls it on an entry that is no
        longer in the table, so it only relies on the entry's own link. */
    method Advance() returns (more: bool)
      requires h.Shape() && (e != null ==> index < |h.chains|)
      modifies this`e, this`parent, this`index
      ensures old(e) == null ==> !more && e == null && index == old(index) && parent == old(parent)
      ensures old(e) != null && old(e.next) != null ==>
                more && parent == old(e) && e == old(e.next) && index == old(index)
      ensures old(e) != null && old(e.next) == null ==>
                more == (e != null) && parent == null && NextBucket(h.chains, old(index), index, e)
    {
      hide *;
      h.SplitShape();
      if e == null {
        return false;
      }
      var next := e.next;
      if next != null {
        parent, e := e, next;
        return true;
      }
      ghost var from := index;
      parent := null;
      index := Scan(h, index);
      e := if index < h.tablelength then h.table[index] else null;
      BucketHead(h, from, index);
      more := e != null;
    }

    /** Advancing a valid iterator drops the first remaining entry. */
    method Step() returns (more: bool)
      requires Valid()
      modifies this`e, this`parent, this`index, this`pos
      ensures Valid() && more == (e != null)
      ensures Remaining() == if old(e) == null then [] else old(Remaining())[1..]
    {
      hide Positioned, From, NextBucket, HashTable.Shape;
      ghost var chains, at, p := h.chains, index, pos;
      FromHead(chains, e, parent, index, pos);
      if e != null {
        PositionedParent(chains, e, parent, index, pos);
        h.LinkAt(index, pos);
        FromNext(chains, e, parent, index, pos);
      }
      more := Advance();
      if old(e) != null {
        if old(e.next) == null {
          BucketFrom(chains, at, index, e);
          pos := 0;
        } else {
          pos := p + 1;
        }
      }
      FromHead(chains, e, parent, index, pos);
    }

    /** `hashtable_iterator_remove`: takes out exactly the current entry and moves on. */
    method Remove() returns (more: bool)
      requires Valid() && h.Valid() && e != null
      modifies this`e, this`parent, this`index, this`pos
      modifies h`entrycount, h`chains, h`owned, h`m, h.table, h.owned
      ensures Valid() && h.Valid() && more == (e != null)
      ensures Remaining() == old(Remaining())[1..]
      ensures h.owned == old(h.owned) - {old(e)} && h.m == old(h.m) - {old(e).k} && |h.m| < |old(h.m)|
    {
      hide Positioned, From, NextBucket, HashTable.Shape, HashTable.Valid, Prime;
      ghost var chains, at, p := h.chains, index, pos;
      FromHead(chains, e, parent, index, pos);
      h.LinkAt(index, pos);
      FromRemoved(chains, e, parent, index, pos);
      PositionedParent(chains, e, parent, index, pos);
      TakeOut();
      var rememberE, rememberParent := e, parent;
      more := Advance();
      if parent == rememberE {
        parent := rememberParent;
      }
      if p + 1 == |chains[at]| {
        BucketFrom(h.chains, at, index, e);
        pos := 0;
      }
    }

    /** The removal proper: unlinks the current entry and counts it off. */
    method TakeOut()
      requires h.Valid() && Positioned(h.chains, e, parent, index, pos) && e != null
      modifies h`entrycount, h`chains, h`owned, h`m, h.table, h.owned
      ensures h.Valid() && h.Shape() && e.next == old(e.next)
      ensures index < |old(h.chains)| && pos < |old(h.chains)[index]|
      ensures h.chains == old(h.chains)[index := old(h.chains)[index][..pos] + old(h.chains)[index][pos + 1..]]
      ensures h.owned == old(h.owned) - {e} && h.m == old(h.m) - {e.k} && |h.m| == |old(h.m)| - 1
    {
      hide *;
      h.SplitValid();
      FromHead(h.chains, e, parent, index, pos);
      PositionedParent(h.chains, e, parent, index, pos);
      h.RemoveEntry(index, pos, parent, e);
      h.entrycount := h.entrycount - 1;
      h.JoinValid();
    }

    /** `hashtable_iterator_search`: on success the iterator stands on the entry with the key and
        knows its parent, so that a removal there works; else it is left alone. */
    method Find(k: string) returns (found: bool)
      requires Valid()
      modifies this`e, this`parent, this`index, this`pos
      ensures Valid() && (found <==> k in h.m)
      ensures found ==> e != null && e.k == k && e.v == h.m[k]
      ensures !found ==> e == old(e) && parent == old(parent) && index == old(index) && pos == old(pos)
    {
      hide HashTable.Shape;
      var at, f, prev, j := h.Locate(k);
      if f == null {
        return false;
      }
      index, e, parent, pos := at, f, prev, j;
      found := true;
    }

    lemma Head()
      requires Valid()
      ensures Remaining() == [] <==> e == null
      ensures e != null ==> Remaining()[0] == e
    {
    }

    lemma PositionedParent(chains: Buckets, e: Entry?, parent: Entry?, index: nat, pos: nat)
      requires Positioned(chains, e, parent, index, pos) && e != null
      ensures index < |chains| && pos < |chains[index]| && e == chains[index][pos]
      ensures parent == if pos == 0 then null else chains[index][pos - 1]
    {
    }
  }

  lemma Occupied(h: HashTable)
    requires h.Valid()
    ensures Flat(h.chains) == [] <==> h.m == map[]
    ensures Lists(Flat(h.chains), h.owned)
    ensures h.m == map[] ==> h.owned == {}
    ensures h.entrycount == 0 ==> h.m == map[]
  {
    FlatExact(h.chains, h.owned);
    if h.m == map[] {
      NothingThere(h);
    } else {
      var k :| k in h.m;
      var e :| e in h.owned && e.k == k;
    }
  }

  /** The visiting loop of `cinv_structure_insert_struct`: every entry exactly once.  On an empty
      table its first read goes through a null entry; the result says whether it got past that. */
  method VisitAll(h: HashTable) returns (ok: bool, visited: seq<Entry>)
    requires h.Valid()
    ensures ok <==> h.m != map[]
    ensures ok ==> visited == Flat(h.chains) && Lists(visited, h.owned)
  {
    hide *;
    Occupied(h);
    var it := new Iterator(h);
    it.Head();
    if it.e == null {
      return false, [];
    }
    visited := VisitRest(it);
    ok := true;
  }

  /** The loop itself, from an entry on. */
  method VisitRest(it: Iterator) returns (visited: seq<Entry>)
    requires it.Valid() && it.e != null
    modifies it
    ensures visited == old(it.Remaining())
  {
    hide *;
    ghost var order := it.Remaining();
    visited := [];
    it.Head();
    var more := true;
    while more
      invariant it.Valid() && more == (it.e != null) && visited + it.Remaining() == order
      decreases |it.Remaining()|
    {
      it.Head();
      var here: Entry := it.e;
      visited := visited + [here];
      more := it.Step();
    }
    it.Head();
  }

  /** The loop of `cinv_structure_delete`: frees every entry exactly once and empties the table.
      It reads through a null entry exactly on an empty table whose count is too high, the trace of
      a failed growth; the result says whether it got past that. */
  method RemoveAll(h: HashTable) returns (ok: bool, freed: seq<Entry>)
    requires h.Valid()
    modifies h`entrycount, h`chains, h`owned, h`m, h.table, h.owned
    ensures ok <==> old(h.m) != map[] || old(h.entrycount) == 0
    ensures h.Valid() && h.owned == {} && h.m == map[]
    ensures freed == old(Flat(h.chains)) && Lists(freed, old(h.owned))
  {
    hide *;
    freed := [];
    Occupied(h);
    if h.entrycount == 0 {
      return true, [];
    }
    ghost var order, all := Flat(h.chains), h.owned;
    var it := new Iterator(h);
    it.Head();
    if it.e == null {
      return false, [];
    }
    var more := true;
    while more
      invariant it.h == h && fresh(it) && it.Valid() && h.Valid() && h.table == old(h.table)
      invariant more == (it.e != null) && h.owned <= all
      invariant freed + it.Remaining() == order && Lists(it.Remaining(), h.owned)
      decreases |h.m|
    {
      it.Head();
      ListsTail(it.Remaining(), h.owned);
      freed := freed + [it.e];
      more := it.Remove();
    }
    it.Head();
    h.SplitValid();
    h.SplitShape();
    ListsNothing(h.owned, h.hashfn, h.m);
    ok := true;
  }

  lemma NothingThere(h: HashTable)
    requires h.Valid() && h.m == map[]
    ensures h.owned == {} && Flat(h.chains) == []
  {
    NoneHeld(h.chains, h.owned, h.hashfn, h.m);
    FlatEmpty(h.chains);
  }

  /** Finds the first non-empty bucket after `from`. */
  method Scan(h: HashTable, from: int) returns (j: nat)
    requires h.Shape() && -1 <= from < |h.chains|
    ensures from < j <= |h.chains| == h.tablelength == h.table.Length
    ensures forall i :: from < i < j ==> h.chains[i] == []
    ensures j < |h.chains| ==> h.table[j] != null
  {
    hide *;
    h.SplitShape();
    j := from + 1;
    while j < h.tablelength
      invariant from < j <= h.tablelength
      invariant forall i :: from < i < j ==> h.chains[i] == []
    {
      h.ChainFacts(j);
      if h.table[j] != null {
        return;
      }
      j := j + 1;
    }
  }

  lemma BucketHead(h: HashTable, from: int, index: nat)
    requires h.Shape() && -1 <= from < index <= |h.chains| == h.tablelength == h.table.Length
    requires forall i :: from < i < index ==> h.chains[i] == []
    requires index < |h.chains| ==> h.table[index] != null
    ensures NextBucket(h.chains, from, index, if index < h.tablelength then h.table[index] else null)
  {
    if index < |h.chains| {
      h.ChainFacts(index);
    }
  }

  lemma AllEmpty(chains: Buckets)
    requires forall i :: 0 <= i < |chains| ==> chains[i] == []
    ensures NextBucket(chains, -1, |chains|, null)
  {
  }

  lemma NoneHeld(chains: Buckets, owned: set<Entry>, hashfn: string -> nat, m: map<string, Value>)
    requires Holds(chains, owned) && Models(hashfn, owned, m) && |m| == 0
    ensures forall i :: 0 <= i < |chains| ==> chains[i] == []
  {
    forall i | 0 <= i < |chains| ensures chains[i] == [] {
      if |chains[i]| > 0 {
        InOwned(chains, owned, i, 0);
      }
    }
  }
}
