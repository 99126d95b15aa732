/** `lib/hashtable.c`: the chained hash table that indexes structure members by name. */
module HashTables {
  import opened Options
  import opened Chains

  const PRIME_TABLE_LENGTH := 26

  /** The growth table. */
  function Prime(i: nat): (p: nat)
    requires i < PRIME_TABLE_LENGTH
    ensures p >= 53
    ensures i == 25 ==> p == 1610612741
  {
    [53, 97, 193, 389,
     769, 1543, 3079, 6151,
     12289, 24593, 49157, 98317,
     196613, 393241, 786433, 1572869,
     3145739, 6291469, 12582917, 25165843,
     50331653, 100663319, 201326611, 402653189,
     805306457, 1610612741][i]
  }

  predicate NoSmallFactor(p: nat) {
    && p % 2 != 0 && p % 3 != 0 && p % 5 != 0 && p % 7 != 0 && p % 11 != 0 && p % 13 != 0 && p % 17 != 0
    && p % 19 != 0 && p % 23 != 0 && p % 29 != 0 && p % 31 != 0 && p % 37 != 0 && p % 41 != 0 && p % 43 != 0
  }

  lemma SmallPrimes()
    ensures forall k :: 0 <= k < 13 ==> NoSmallFactor(Prime(k))
  {
  }

  lemma LargePrimes()
    ensures forall k :: 13 <= k < 26 ==> NoSmallFactor(Prime(k))
  {
  }

  /** The table starts at 53, about doubles from each length to the next, and no length has a factor
      below 47. */
  lemma PrimesSuit(i: nat)
    requires i < 26
    ensures NoSmallFactor(Prime(i)) && Prime(0) == 53 && Prime(25) == 1610612741
    ensures i < 25 ==> 7 * Prime(i) <= 4 * Prime(i + 1) && Prime(i + 1) <= 2 * Prime(i) + 79
  {
    hide NoSmallFactor;
    SmallPrimes();
    LargePrimes();
  }

  /** The entries stand for the finite map `m`: keys are unique and hashed. */
  ghost predicate Models(hashfn: string -> nat, owned: set<Entry>, m: map<string, Value>) {
    && (forall e :: e in owned ==> e.h == hashfn(e.k) && e.k in m && m[e.k] == e.v)
    && (forall e, f :: e in owned && f in owned && e.k == f.k ==> e == f)
    && (forall k :: k in m ==> exists e :: e in owned && e.k == k)
    && |owned| == |m|
  }

  lemma CardAdd(m: map<string, Value>, k: string, v: Value)
    requires k !in m
    ensures |m[k := v]| == |m| + 1
  {
    assert m[k := v].Keys == m.Keys + {k};
  }

  lemma ModelsAdd(hashfn: string -> nat, owned: set<Entry>, m: map<string, Value>, e: Entry)
    requires Models(hashfn, owned, m) && e.k !in m && e.h == hashfn(e.k)
    ensures e !in owned && Models(hashfn, owned + {e}, m[e.k := e.v])
  {
    var m' := m[e.k := e.v];
    CardAdd(m, e.k, e.v);
    forall k | k in m' ensures exists f :: f in owned + {e} && f.k == k {
      if k == e.k {
        assert e in owned + {e};
      } else {
        var f :| f in owned && f.k == k;
        assert f in owned + {e};
      }
    }
  }

  lemma ModelsRemove(hashfn: string -> nat, owned: set<Entry>, m: map<string, Value>, e: Entry)
    requires Models(hashfn, owned, m) && e in owned
    ensures e.k in m && m[e.k] == e.v && Models(hashfn, owned - {e}, m - {e.k})
    ensures |m - {e.k}| == |m| - 1
  {
    var m' := m - {e.k};
    assert m'.Keys == m.Keys - {e.k};
    forall k | k in m' ensures exists f :: f in owned - {e} && f.k == k {
      var f :| f in owned && f.k == k;
      assert f in owned - {e};
    }
  }

  // ----- rehashing

  /** Where `hashtable_expand` leaves the moved entries: each goes to the front of its new chain,
      so a chain lists its entries latest first. */
  ghost function Picked(moved: seq<Entry>, n: nat, j: nat): seq<Entry>
    requires n > 0
  {
    if moved == [] then []
    else
      var e, rest := moved[|moved| - 1], Picked(moved[..|moved| - 1], n, j);
      if e.h % n == j then [e] + rest else rest
  }

  ghost function Rehashed(moved: seq<Entry>, n: nat): Buckets
    requires n > 0
  {
    seq(n, j requires 0 <= j < n => Picked(moved, n, j))
  }

  lemma RehashedNone(n: nat)
    requires n > 0
    ensures Rehashed([], n) == seq(n, j => [])
  {
  }

  lemma RehashedNext(moved: seq<Entry>, n: nat, e: Entry)
    requires n > 0
    ensures var i := e.h % n;
            0 <= i < n && Rehashed(moved + [e], n) == Rehashed(moved, n)[i := [e] + Rehashed(moved, n)[i]]
  {
    assert (moved + [e])[..|moved|] == moved;
  }

  lemma {:induction false} FlatPush(chains: Buckets, i: nat, e: Entry)
    requires i < |chains|
    ensures multiset(Flat(chains[i := [e] + chains[i]])) == multiset(Flat(chains)) + multiset{e}
  {
    var chains' := chains[i := [e] + chains[i]];
    if i == 0 {
      assert chains'[1..] == chains[1..];
    } else {
      FlatPush(chains[1..], i - 1, e);
      assert chains'[1..] == chains[1..][i - 1 := [e] + chains[1..][i - 1]];
    }
  }

  /** Growing the table loses and invents nothing, whatever it does to the order. */
  lemma {:induction false} RehashKeepsEntries(moved: seq<Entry>, n: nat)
    requires n > 0
    ensures multiset(Flat(Rehashed(moved, n))) == multiset(moved)
    decreases |moved|
  {
    if moved == [] {
      FlatEmpty(Rehashed(moved, n));
    } else {
      var init, e := moved[..|moved| - 1], moved[|moved| - 1];
      RehashKeepsEntries(init, n);
      RehashedNext(init, n, e);
      RehashedLength(init, n);
      FlatPush(Rehashed(init, n), e.h % n, e);
      assert moved == init + [e];
    }
  }

  /** Entries that share an old chain and a new one come out in reverse order. */
  lemma {:induction false} PickedReverses(moved: seq<Entry>, n: nat, j: nat, k: nat)
    requires n > 0 && (forall i :: 0 <= i < |moved| ==> moved[i].h % n == j) && k < |moved|
    ensures |Picked(moved, n, j)| == |moved| && Picked(moved, n, j)[k] == moved[|moved| - 1 - k]
    decreases |moved|
  {
    var init := moved[..|moved| - 1];
    if k > 0 {
      PickedReverses(init, n, j, k - 1);
    } else if init != [] {
      PickedReverses(init, n, j, 0);
    }
  }

  lemma {:induction false} FlatEmpty(chains: Buckets)
    requires forall i :: 0 <= i < |chains| ==> chains[i] == []
    ensures Flat(chains) == []
  {
    if chains != [] {
      FlatEmpty(chains[1..]);
    }
  }

  /** Taking the head of the first non-empty chain takes the first entry of the whole table. */
  lemma {:induction false} FlatPop(chains: Buckets, i: nat)
    requires i < |chains| && chains[i] != [] && forall j :: 0 <= j < i ==> chains[j] == []
    ensures Flat(chains) == [chains[i][0]] + Flat(chains[i := chains[i][1..]])
  {
    if i == 0 {
      assert chains[0 := chains[0][1..]][1..] == chains[1..];
      assert chains[0] == [chains[0][0]] + chains[0][1..];
    } else {
      FlatPop(chains[1..], i - 1);
      assert chains[i := chains[i][1..]][1..] == chains[1..][i - 1 := chains[i][1..]];
    }
  }

  /** The transfer in progress: `rest` is still in the old table, `moved` is in the new one. */
  datatype Transfer = Transfer(rest: Buckets, left: set<Entry>, moved: seq<Entry>, taken: set<Entry>)
  {
    ghost function Next(i: nat, e: Entry): (p: Transfer)
      requires i < |rest| && rest[i] != []
      ensures p == Transfer(rest[i := rest[i][1..]], left - {e}, moved + [e], taken + {e})
    {
      Transfer(rest[i := rest[i][1..]], left - {e}, moved + [e], taken + {e})
    }
  }

  ghost predicate Moving(p: Transfer, t: array<Entry?>, t': array<Entry?>, all: set<Entry>, order: seq<Entry>)
    reads t, t', p.left, p.taken
  {
    && t != t' && t'.Length > 0
    && Linked(t, p.rest, p.left) && Bucketed(p.rest) && Holds(p.rest, p.left)
    && Linked(t', Rehashed(p.moved, t'.Length), p.taken)
    && Bucketed(Rehashed(p.moved, t'.Length)) && Holds(Rehashed(p.moved, t'.Length), p.taken)
    && p.left !! p.taken && p.left + p.taken == all
    && p.moved + Flat(p.rest) == order
  }

  lemma NothingMoved(t: array<Entry?>, t': array<Entry?>, chains: Buckets, all: set<Entry>)
    requires t != t' && t'.Length > 0 && forall i :: 0 <= i < t'.Length ==> t'[i] == null
    requires Linked(t, chains, all) && Bucketed(chains) && Holds(chains, all)
    ensures Moving(Transfer(chains, all, [], {}), t, t', all, Flat(chains))
  {
    RehashedNone(t'.Length);
  }

  lemma AllMoved(p: Transfer, t: array<Entry?>, t': array<Entry?>, all: set<Entry>, order: seq<Entry>)
    requires Moving(p, t, t', all, order) && forall i :: 0 <= i < |p.rest| ==> p.rest[i] == []
    ensures p.left == {} && p.taken == all && p.moved == order
    ensures Linked(t', Rehashed(p.moved, t'.Length), all)
    ensures Bucketed(Rehashed(p.moved, t'.Length)) && Holds(Rehashed(p.moved, t'.Length), all)
  {
    FlatEmpty(p.rest);
  }

  lemma MovingParts(p: Transfer, t: array<Entry?>, t': array<Entry?>, all: set<Entry>, order: seq<Entry>)
    requires Moving(p, t, t', all, order)
    ensures t != t' && t'.Length > 0 && t.Length == |p.rest| && p.left <= all
    ensures Linked(t, p.rest, p.left) && Bucketed(p.rest) && Holds(p.rest, p.left)
    ensures Linked(t', Rehashed(p.moved, t'.Length), p.taken)
    ensures Bucketed(Rehashed(p.moved, t'.Length)) && Holds(Rehashed(p.moved, t'.Length), p.taken)
    ensures p.left !! p.taken && p.left + p.taken == all
    ensures p.moved + Flat(p.rest) == order
    ensures |Rehashed(p.moved, t'.Length)| == t'.Length
    ensures forall i :: 0 <= i < t.Length ==> (t[i] == null <==> p.rest[i] == [])
  {
  }

  /** The body of the transfer loop. */
  method MoveHead(t: array<Entry?>, newtable: array<Entry?>, i: nat, ghost p: Transfer,
                     ghost all: set<Entry>, ghost order: seq<Entry>) returns (ghost p': Transfer)
    requires i < t.Length && Moving(p, t, newtable, all, order) && t[i] != null
    requires |p.rest| == t.Length && forall j :: 0 <= j < i ==> p.rest[j] == []
    modifies t, newtable, p.left
    ensures Moving(p', t, newtable, all, order)
    ensures |p.rest[i]| > 0 && p' == p.Next(i, p.rest[i][0]) && p'.left <= p.left
  {
    hide *;
    MovingParts(p, t, newtable, all, order);
    var e := PopFront(t, p.rest, p.left, i);
    var index := Bucket(newtable.Length, e.h);
    p' := p.Next(i, e);
    PushFront(newtable, Rehashed(p.moved, newtable.Length), p.taken, index, e);
    MovedOne(p, i, e, index, newtable.Length);
    MovingJoin(p', t, newtable, all, order);
  }

  /** `indexFor`. */
  function Bucket(length: nat, h: nat): (i: nat)
    requires length > 0
    ensures i < length && i == h % length
  {
    h % length
  }

  lemma MovedOne(p: Transfer, i: nat, e: Entry, index: nat, n: nat)
    requires n > 0 && index == e.h % n && i < |p.rest| && p.rest[i] != [] && e == p.rest[i][0] && e in p.left
    requires forall j :: 0 <= j < i ==> p.rest[j] == []
    requires Bucketed(p.rest) && Holds(p.rest, p.left) && p.left !! p.taken
    requires Bucketed(Rehashed(p.moved, n)) && Holds(Rehashed(p.moved, n), p.taken)
    ensures var p' := p.Next(i, e);
            && Bucketed(p'.rest) && Holds(p'.rest, p'.left)
            && |Rehashed(p.moved, n)| == n
            && Rehashed(p'.moved, n) == Rehashed(p.moved, n)[index := [e] + Rehashed(p.moved, n)[index]]
            && Bucketed(Rehashed(p'.moved, n)) && Holds(Rehashed(p'.moved, n), p'.taken)
            && p'.left !! p'.taken && p'.left + p'.taken == p.left + p.taken
            && p'.moved + Flat(p'.rest) == p.moved + Flat(p.rest)
  {
    hide *;
    RehashedLength(p.moved, n);
    RehashedNext(p.moved, n, e);
    FlatPop(p.rest, i);
    assert p.rest[i][..0] + p.rest[i][1..] == p.rest[i][1..];
    BucketedDrop(p.rest, p.left, i, 0);
    BucketedPush(Rehashed(p.moved, n), p.taken, index, e);
  }

  lemma RehashedLength(moved: seq<Entry>, n: nat)
    requires n > 0
    ensures |Rehashed(moved, n)| == n
  {
  }

  lemma MovingJoin(p: Transfer, t: array<Entry?>, t': array<Entry?>, all: set<Entry>, order: seq<Entry>)
    requires t != t' && t'.Length > 0
    requires Linked(t, p.rest, p.left) && Bucketed(p.rest) && Holds(p.rest, p.left)
    requires Linked(t', Rehashed(p.moved, t'.Length), p.taken)
    requires Bucketed(Rehashed(p.moved, t'.Length)) && Holds(Rehashed(p.moved, t'.Length), p.taken)
    requires p.left !! p.taken && p.left + p.taken == all
    requires p.moved + Flat(p.rest) == order
    ensures Moving(p, t, t', all, order)
  {
  }

  /** The inner transfer loop: empties chain `i`. */
  method MoveChain(t: array<Entry?>, newtable: array<Entry?>, i: nat, ghost p: Transfer,
                   ghost all: set<Entry>, ghost order: seq<Entry>) returns (ghost p': Transfer)
    requires i < t.Length == |p.rest| && Moving(p, t, newtable, all, order)
    requires forall j :: 0 <= j < i ==> p.rest[j] == []
    modifies t, newtable, all
    ensures |p'.rest| == t.Length && Moving(p', t, newtable, all, order)
    ensures forall j :: 0 <= j <= i ==> p'.rest[j] == []
  {
    hide *;
    p' := p;
    MovingParts(p', t, newtable, all, order);
    while t[i] != null
      invariant |p'.rest| == t.Length && p'.left <= all
      invariant Moving(p', t, newtable, all, order)
      invariant forall j :: 0 <= j < i ==> p'.rest[j] == []
      decreases |p'.rest[i]|
    {
      p' := MoveHead(t, newtable, i, p', all, order);
    }
    MovingParts(p', t, newtable, all, order);
  }

  /** The transfer loops of `hashtable_expand`. */
  method MoveAll(t: array<Entry?>, newtable: array<Entry?>, newsize: nat,
                    ghost chains: Buckets, ghost all: set<Entry>) returns (ghost p: Transfer)
    requires Linked(t, chains, all) && Bucketed(chains) && Holds(chains, all)
    requires t != newtable && newtable.Length == newsize > 0 && forall i :: 0 <= i < newsize ==> newtable[i] == null
    modifies t, newtable, all
    ensures p.moved == Flat(chains)
    ensures Linked(newtable, Rehashed(p.moved, newsize), all)
    ensures Bucketed(Rehashed(p.moved, newsize)) && Holds(Rehashed(p.moved, newsize), all)
  {
    hide *;
    p := Transfer(chains, all, [], {});
    NothingMoved(t, newtable, chains, all);
    MovingParts(p, t, newtable, all, Flat(chains));
    var i := 0;
    while i < t.Length
      invariant 0 <= i <= t.Length == |p.rest|
      invariant Moving(p, t, newtable, all, Flat(chains))
      invariant forall j :: 0 <= j < i ==> p.rest[j] == []
    {
      p := MoveChain(t, newtable, i, p, all, Flat(chains));
      i := i + 1;
    }
    AllMoved(p, t, newtable, all, Flat(chains));
  }

  lemma HeadIs(heads: array<Entry?>, chains: Buckets, owned: set<Entry>, i: nat)
    requires Linked(heads, chains, owned) && i < |chains|
    ensures heads.Length == |chains| && heads[i] == if chains[i] == [] then null else chains[i][0]
  {
  }

  lemma InOwned(chains: Buckets, owned: set<Entry>, i: nat, j: nat)
    requires Holds(chains, owned) && i < |chains| && j < |chains[i]|
    ensures chains[i][j] in owned
  {
  }

  /** Overwrites the link to an entry: the bucket head or its predecessor's `next`. */
  method CutOut(t: array<Entry?>, ghost chains: Buckets, ghost owned: set<Entry>, i: nat, ghost j: nat, prev: Entry?, e: Entry)
    requires Linked(t, chains, owned) && Bucketed(chains) && Holds(chains, owned)
    requires i < |chains| && j < |chains[i]| && e == chains[i][j] && prev == if j == 0 then null else chains[i][j - 1]
    modifies t, owned
    ensures Linked(t, chains[i := chains[i][..j] + chains[i][j + 1..]], owned - {e}) && e.next == old(e.next)
  {
    hide *;
    if prev == null {
      HeadIs(t, chains, owned, i);
      assert chains[i][..0] + chains[i][1..] == chains[i][1..];
      var f := PopFront(t, chains, owned, i);
    } else {
      InOwned(chains, owned, i, j - 1);
      Unlink(t, chains, owned, i, j - 1, prev, e);
    }
  }

  class HashTable {
    const hashfn: string -> nat
    const limitfn: nat -> nat      // ceil(length * max_load_factor)
    var table: array<Entry?>
    var tablelength: nat
    var entrycount: nat
    var loadlimit: nat
    var primeindex: nat
    ghost var chains: Buckets
    ghost var owned: set<Entry>
    ghost var m: map<string, Value>    // what the table stands for
    ghost var lost: nat            // inserts that failed to grow the table

    /** Table and chains agree, entries sit in their bucket, and they spell out `m`. */
    ghost predicate Shape()
      reads this`table, this`tablelength, this`chains, this`owned, this`m, table, owned
    {
      && table.Length == tablelength && tablelength > 0
      && Linked(table, chains, owned) && Bucketed(chains) && Holds(chains, owned)
      && Models(hashfn, owned, m)
    }

    ghost predicate Valid()
      reads this, table, owned
    {
      && Shape()
      && primeindex < PRIME_TABLE_LENGTH && tablelength == Prime(primeindex) && loadlimit == limitfn(tablelength)
      && entrycount == |m| + lost
    }

    /** `create_hashtable`, for a requested size up to 2^30; the source returns NULL above that. */
    constructor (minsize: nat, hashfn: string -> nat, limitfn: nat -> nat)
      requires minsize <= 0x4000_0000
      ensures Valid() && m == map[] && lost == 0 && owned == {} && fresh(table)
      ensures this.hashfn == hashfn && this.limitfn == limitfn
      ensures tablelength > minsize && (primeindex > 0 ==> Prime(primeindex - 1) <= minsize)
    {
      hide Prime;
      var size, pindex := Prime(0), 0;
      while pindex < PRIME_TABLE_LENGTH
        invariant 0 <= pindex <= PRIME_TABLE_LENGTH
        invariant forall i :: 0 <= i < pindex ==> Prime(i) <= minsize
      {
        if Prime(pindex) > minsize {
          size := Prime(pindex);
          break;
        }
        pindex := pindex + 1;
      }
      assert Prime(PRIME_TABLE_LENGTH - 1) > minsize;
      this.hashfn, this.limitfn := hashfn, limitfn;
      table := new Entry?[size](_ => null);
      tablelength, primeindex, entrycount, loadlimit := size, pindex, 0, limitfn(size);
      chains, owned, m, lost := seq(size, _ => []), {}, map[], 0;
    }

    /** `indexFor`. */
    function Index(h: nat): (i: nat)
      requires tablelength > 0
      reads this`tablelength
      ensures i < tablelength && i == Bucket(tablelength, h)
    {
      Bucket(tablelength, h)
    }

    lemma Present(k: string) returns (j: nat)
      requires Shape() && k in m
      ensures j < |chains[Index(hashfn(k))]| && chains[Index(hashfn(k))][j].k == k
    {
      var f :| f in owned && f.k == k;
      assert f in chains[f.h % |chains|];
      j :| 0 <= j < |chains[Index(hashfn(k))]| && chains[Index(hashfn(k))][j] == f;
    }

    /** The chain walk of search, remove and `hashtable_iterator_search`: the entry with the key,
        its place `j` in its chain, and the entry before it. */
    method Locate(k: string) returns (index: nat, e: Entry?, prev: Entry?, ghost j: nat)
      requires Shape()
      ensures index < tablelength == |chains| && (e != null <==> k in m)
      ensures e != null ==> j < |chains[index]| && chains[index][j] == e && e.k == k && e.v == m[k]
      ensures e != null ==> prev == if j == 0 then null else chains[index][j - 1]
    {
      hide *;
      SplitShape();
      var hashvalue := hashfn(k);
      index := Index(hashvalue);
      e, prev, j := Walk(k, hashvalue, index);
      if e != null {
        EntryFacts(index, j);
      } else if k in m {
        var i := Present(k);
      }
    }

    /** The loop of the chain walk. */
    method Walk(k: string, hashvalue: nat, index: nat) returns (e: Entry?, prev: Entry?, ghost j: nat)
      requires Shape() && index < |chains| && hashvalue == hashfn(k)
      ensures if e != null then j < |chains[index]| && chains[index][j] == e && e.k == k
              else forall i :: 0 <= i < |chains[index]| ==> chains[index][i].k != k
      ensures e != null ==> prev == if j == 0 then null else chains[index][j - 1]
    {
      hide *;
      SplitShape();
      ghost var chain := chains[index];
      ChainFacts(index);
      AtIs(chain);
      e, prev, j := table[index], null, 0;
      while e != null
        invariant 0 <= j <= |chain| && e == At(chain, j)
        invariant forall i :: 0 <= i < j ==> chain[i].k != k
        invariant prev == if j == 0 then null else chain[j - 1]
        decreases |chain| - j
      {
        EntryFacts(index, j);
        if hashvalue == e.h && k == e.k {
          return;
        }
        assert chain[j] == e && e.k != k;
        prev, e, j := e, e.next, j + 1;
      }
    }

    lemma AtIs(chain: seq<Entry>)
      ensures forall i :: 0 <= i < |chain| ==> At(chain, i) == chain[i]
      ensures At(chain, |chain|) == null
    {
    }

    lemma ChainFacts(index: nat)
      requires Shape() && index < tablelength
      ensures table.Length == tablelength == |chains| && table[index] == At(chains[index], 0)
    {
    }

    /** The link of the entry at place `j` of a chain. */
    lemma LinkAt(index: nat, j: nat)
      requires Shape() && index < |chains| && j < |chains[index]|
      ensures chains[index][j].next == if j + 1 < |chains[index]| then chains[index][j + 1] else null
      ensures chains[index][j] in owned
    {
    }

    lemma EntryFacts(index: nat, j: nat)
      requires Shape() && index < |chains| && j < |chains[index]|
      ensures var e := chains[index][j];
              e.next == At(chains[index], j + 1) && e.h == hashfn(e.k) && e.k in m && m[e.k] == e.v
    {
    }

    /** `hashtable_search`. */
    method Search(k: string) returns (v: Option<Value>)
      requires Shape()
      ensures v == if k in m then Some(m[k]) else None
    {
      var index, e, prev, j := Locate(k);
      v := if e != null then Some(e.v) else None;
    }

    /** `hashtable_expand`, when memory is available; fails at the end of the prime table. */
    method Expand() returns (ok: bool)
      requires Shape() && primeindex < PRIME_TABLE_LENGTH && tablelength == Prime(primeindex)
      modifies this`table, this`tablelength, this`loadlimit, this`primeindex, this`chains, this`owned, this`m, table, owned
      ensures Shape() && primeindex < PRIME_TABLE_LENGTH && tablelength == Prime(primeindex) && owned == old(owned) && m == old(m)
      ensures ok <==> old(primeindex) + 1 < PRIME_TABLE_LENGTH
      ensures ok ==> primeindex == old(primeindex) + 1 && loadlimit == limitfn(tablelength) && fresh(table)
      ensures ok ==> chains == Rehashed(old(Flat(chains)), tablelength)
      ensures !ok ==> table == old(table) && chains == old(chains) && primeindex == old(primeindex) && loadlimit == old(loadlimit)
    {
      hide *;
      SplitShape();
      if primeindex == PRIME_TABLE_LENGTH - 1 {
        return false;
      }
      primeindex := primeindex + 1;
      var newsize := Prime(primeindex);
      var newtable := new Entry?[newsize](_ => null);
      ghost var p := MoveAll(table, newtable, newsize, chains, owned);
      Adopt(newtable, newsize, Rehashed(p.moved, newsize));
      ok := true;
    }

    /** The filled new table takes the place of the old one. */
    method Adopt(newtable: array<Entry?>, newsize: nat, ghost chains': Buckets)
      requires newtable.Length == newsize > 0 && Models(hashfn, owned, m)
      requires Linked(newtable, chains', owned) && Bucketed(chains') && Holds(chains', owned)
      modifies this`table, this`tablelength, this`loadlimit, this`chains, this`owned, this`m
      ensures Shape() && table == newtable && tablelength == newsize && loadlimit == limitfn(newsize)
      ensures chains == chains' && owned == old(owned) && m == old(m)
    {
      hide *;
      table := newtable;
      tablelength := newsize;
      loadlimit := limitfn(newsize);
      Settle(chains', owned, m);
    }

    /** `hashtable_insert` of a key that is not in the table.  When the prime table is used up the
        insert fails and leaves the count one too high, for good. */
    method Insert(k: string, v: Value) returns (ok: bool)
      requires Valid() && k !in m
      modifies this, table, owned
      ensures Valid() && fresh(owned - old(owned)) && (table == old(table) || fresh(table))
      ensures ok <==> old(entrycount) + 1 <= old(loadlimit) || old(primeindex) + 1 < PRIME_TABLE_LENGTH
      ensures primeindex == old(primeindex) + (if ok && old(entrycount) + 1 > old(loadlimit) then 1 else 0)
      ensures ok ==> m == old(m)[k := v] && lost == old(lost)
      ensures !ok ==> m == old(m) && owned == old(owned) && lost == old(lost) + 1
    {
      hide *;
      SplitValid();
      entrycount := entrycount + 1;
      if entrycount > loadlimit {
        ok := Expand();
        if !ok {
          lost := lost + 1;
          JoinValid();
          return;
        }
      }
      SplitShape();
      var h := hashfn(k);
      var index := Index(h);
      AddEntry(k, v, h, index);
      JoinValid();
      ok := true;
    }

    /** The new entry goes to the head of its chain. */
    method AddEntry(k: string, v: Value, h: nat, index: nat)
      requires Shape() && k !in m && h == hashfn(k) && index == Bucket(tablelength, h)
      modifies this`chains, this`owned, this`m, table
      ensures Shape() && m == old(m)[k := v] && |m| == |old(m)| + 1 && fresh(owned - old(owned))
    {
      hide *;
      SplitShape();
      var e := new Entry(k, v, h, table[index]);
      ModelsAdd(hashfn, owned, m, e);
      BucketedPush(chains, owned, index, e);
      PushFront(table, chains, owned, index, e);
      Settle(chains[index := [e] + chains[index]], owned + {e}, m[k := v]);
    }

    /** `hashtable_remove`: `prev` stands for the pointer to the link that is overwritten. */
    method Remove(k: string) returns (v: Option<Value>)
      requires Valid()
      modifies this`entrycount, this`chains, this`owned, this`m, table, owned
      ensures Valid() && owned <= old(owned)
      ensures v == if k in old(m) then Some(old(m)[k]) else None
      ensures m == old(m) - {k}
    {
      hide *;
      SplitValid();
      var index, e, prev, j := Locate(k);
      if e == null {
        assert m - {k} == m;
        return None;
      }
      v := Some(e.v);
      Forget(index, j, prev, e);
    }

    /** The entry is unlinked and no longer counted. */
    method Forget(index: nat, ghost j: nat, prev: Entry?, e: Entry)
      requires Valid() && index < |chains| && j < |chains[index]| && e == chains[index][j]
      requires prev == if j == 0 then null else chains[index][j - 1]
      modifies this`entrycount, this`chains, this`owned, this`m, table, owned
      ensures Valid() && owned == old(owned) - {e} && m == old(m) - {e.k}
    {
      hide *;
      SplitValid();
      RemoveEntry(index, j, prev, e);
      entrycount := entrycount - 1;
      JoinValid();
    }

    /** Takes the entry at place `j` of a chain out of the table. */
    method RemoveEntry(index: nat, ghost j: nat, prev: Entry?, e: Entry)
      requires Shape() && index < |chains| && j < |chains[index]| && e == chains[index][j]
      requires prev == if j == 0 then null else chains[index][j - 1]
      modifies this`chains, this`owned, this`m, table, owned
      ensures Shape() && owned == old(owned) - {e} && e in old(owned) && e.k in old(m) && old(m)[e.k] == e.v
      ensures m == old(m) - {e.k} && |m| == |old(m)| - 1 && e.next == old(e.next)
      ensures chains == old(chains)[index := old(chains)[index][..j] + old(chains)[index][j + 1..]]
    {
      hide *;
      SplitShape();
      DropFacts(index, j, e);
      ghost var chains' := chains[index := chains[index][..j] + chains[index][j + 1..]];
      ghost var owned', m' := owned - {e}, m - {e.k};
      CutOut(table, chains, owned, index, j, prev, e);
      Settle(chains', owned', m');
    }

    lemma DropFacts(index: nat, j: nat, e: Entry)
      requires Shape() && index < |chains| && j < |chains[index]| && e == chains[index][j]
      ensures var chains', m' := chains[index := chains[index][..j] + chains[index][j + 1..]], m - {e.k};
              && Bucketed(chains') && Holds(chains', owned - {e}) && Models(hashfn, owned - {e}, m')
              && |m'| == |m| - 1
      ensures e in owned && e.k in m && m[e.k] == e.v
    {
      hide *;
      SplitShape();
      BucketedDrop(chains, owned, index, j);
      ModelsRemove(hashfn, owned, m, e);
    }

    /** Brings the ghost view up to date. */
    ghost method Settle(chains': Buckets, owned': set<Entry>, m': map<string, Value>)
      requires table.Length == tablelength && tablelength > 0
      requires Linked(table, chains', owned') && Bucketed(chains') && Holds(chains', owned')
      requires Models(hashfn, owned', m')
      modifies this`chains, this`owned, this`m
      ensures Shape() && chains == chains' && owned == owned' && m == m'
    {
      hide Linked, Bucketed, Holds, Models;
      chains, owned, m := chains', owned', m';
    }

    lemma SplitValid()
      requires Valid()
      ensures Shape() && primeindex < PRIME_TABLE_LENGTH && tablelength == Prime(primeindex)
      ensures loadlimit == limitfn(tablelength) && entrycount == |m| + lost
    {
    }

    lemma JoinValid()
      requires Shape() && primeindex < PRIME_TABLE_LENGTH && tablelength == Prime(primeindex)
      requires loadlimit == limitfn(tablelength) && entrycount == |m| + lost
      ensures Valid()
    {
    }

    lemma SplitShape()
      requires Shape()
      ensures table.Length == tablelength == |chains| > 0
      ensures Linked(table, chains, owned) && Bucketed(chains) && Holds(chains, owned)
      ensures Models(hashfn, owned, m)
    {
    }
  }

  /** `create_hashtable`. */
  method CreateHashtable(minsize: nat, hashfn: string -> nat, limitfn: nat -> nat) returns (h: HashTable?)
    ensures h == null <==> minsize > 0x4000_0000
    ensures h != null ==> fresh(h) && h.Valid() && h.m == map[] && h.lost == 0 && h.tablelength > minsize
  {
    if minsize > 0x4000_0000 {
      return null;
    }
    h := new HashTable(minsize, hashfn, limitfn);
  }

  // ----- runs

  /** A call of the library on its member index; it inserts a name only after a search for it. */
  datatype Command = Put(key: string, value: Value) | Get(key: string) | Drop(key: string)

  datatype Reply = Stored | Refused | Exists | Found(value: Option<Value>)

  /** A table, as far as its replies depend on it: its map, the excess of its count, and the place
      of its length among the primes. */
  datatype Model = Model(m: map<string, Value>, lost: nat, prime: nat) {
    function Count(): nat {
      |m| + lost
    }
  }

  function Look(m: map<string, Value>, k: string): Option<Value> {
    if k in m then Some(m[k]) else None
  }

  /** One call.  An insertion is refused exactly when the key is new, the count with it exceeds the
      load limit, and the table has its last length. */
  function Step(limit: nat -> nat, s: Model, c: Command): (r: (Model, Reply))
    requires s.prime < PRIME_TABLE_LENGTH
    ensures r.0.prime < PRIME_TABLE_LENGTH
  {
    match c
    case Put(k, v) =>
      if k in s.m then (s, Exists)
      else if s.Count() + 1 <= limit(Prime(s.prime)) then (s.(m := s.m[k := v]), Stored)
      else if s.prime + 1 < PRIME_TABLE_LENGTH then (Model(s.m[k := v], s.lost, s.prime + 1), Stored)
      else (s.(lost := s.lost + 1), Refused)
    case Get(k) => (s, Found(Look(s.m, k)))
    case Drop(k) => (s.(m := s.m - {k}), Found(Look(s.m, k)))
  }

  function Steps(limit: nat -> nat, s: Model, cs: seq<Command>): (r: (Model, seq<Reply>))
    requires s.prime < PRIME_TABLE_LENGTH
    ensures r.0.prime < PRIME_TABLE_LENGTH && |r.1| == |cs|
  {
    if cs == [] then (s, [])
    else
      var before := Steps(limit, s, cs[..|cs| - 1]);
      var last := Step(limit, before.0, cs[|cs| - 1]);
      (last.0, before.1 + [last.1])
  }

  ghost function View(h: HashTable): Model
    reads h`m, h`lost, h`primeindex
  {
    Model(h.m, h.lost, h.primeindex)
  }

  /** The replies of a table are those of its model. */
  lemma Replies(h: HashTable, c: Command)
    requires h.Valid()
    ensures View(h).prime < PRIME_TABLE_LENGTH && View(h) == Model(h.m, h.lost, h.primeindex)
    ensures h.entrycount == View(h).Count() && h.loadlimit == h.limitfn(Prime(h.primeindex))
    ensures var s, fits := View(h), h.entrycount + 1 <= h.loadlimit;
            Step(h.limitfn, s, c) ==
            (match c
             case Put(k, v) =>
               if k in s.m then (s, Exists)
               else if fits then (s.(m := s.m[k := v]), Stored)
               else if s.prime + 1 < PRIME_TABLE_LENGTH then (Model(s.m[k := v], s.lost, s.prime + 1), Stored)
               else (s.(lost := s.lost + 1), Refused)
             case Get(k) => (s, Found(if k in s.m then Some(s.m[k]) else None))
             case Drop(k) => (s.(m := s.m - {k}), Found(if k in s.m then Some(s.m[k]) else None)))
  {
    hide HashTable.Shape, Prime;
  }

  lemma ViewIs(h: HashTable)
    ensures View(h) == Model(h.m, h.lost, h.primeindex)
  {
  }

  method Call(h: HashTable, c: Command) returns (r: Reply)
    requires h.Valid()
    modifies h, h.table, h.owned
    ensures old(View(h)).prime < PRIME_TABLE_LENGTH
    ensures h.Valid() && (View(h), r) == Step(h.limitfn, old(View(h)), c)
    ensures fresh(h.owned - old(h.owned)) && (h.table == old(h.table) || fresh(h.table))
  {
    hide *;
    h.SplitValid();
    Replies(h, c);
    var v := h.Search(c.key);
    match c {
      case Put(k, value) =>
        if v.Some? {
          return Exists;
        }
        var ok := h.Insert(k, value);
        ViewIs(h);
        r := if ok then Stored else Refused;
      case Get(k) =>
        r := Found(v);
      case Drop(k) =>
        v := h.Remove(k);
        ViewIs(h);
        r := Found(v);
    }
  }

  /** Over every run of calls, across any number of expansions, the table replies as its model and
      its count is the model's. */
  method Run(h: HashTable, cs: seq<Command>) returns (rs: seq<Reply>)
    requires h.Valid()
    modifies h, h.table, h.owned
    ensures old(View(h)).prime < PRIME_TABLE_LENGTH
    ensures h.Valid() && (View(h), rs) == Steps(h.limitfn, old(View(h)), cs)
    ensures h.entrycount == View(h).Count()
  {
    hide *;
    rs := [];
    Replies(h, Get(""));
    ghost var s := View(h);
    NoSteps(h.limitfn, s);
    assert cs[..0] == [];
    while |rs| < |cs|
      invariant |rs| <= |cs| && h.Valid() && s.prime < PRIME_TABLE_LENGTH
      invariant h.table == old(h.table) || fresh(h.table)
      invariant fresh(h.owned - old(h.owned))
      invariant (View(h), rs) == Steps(h.limitfn, s, cs[..|rs|])
    {
      NextStep(h.limitfn, s, cs, |rs|);
      var r := Call(h, cs[|rs|]);
      rs := rs + [r];
    }
    assert cs[..|rs|] == cs;
    Replies(h, Get(""));
  }

  lemma NoSteps(limit: nat -> nat, s: Model)
    requires s.prime < PRIME_TABLE_LENGTH
    ensures Steps(limit, s, []) == (s, [])
  {
  }

  lemma NextStep(limit: nat -> nat, s: Model, cs: seq<Command>, i: nat)
    requires s.prime < PRIME_TABLE_LENGTH && i < |cs|
    ensures var before := Steps(limit, s, cs[..i]);
            var last := Step(limit, before.0, cs[i]);
            Steps(limit, s, cs[..i + 1]) == (last.0, before.1 + [last.1])
  {
    hide Step;
    assert cs[..i + 1][..i] == cs[..i];
  }

  // ----- when nothing is refused

  /** The same calls on a plain map. */
  function Plain(m: map<string, Value>, c: Command): map<string, Value> {
    match c
    case Put(k, v) => if k in m then m else m[k := v]
    case Get(_) => m
    case Drop(k) => m - {k}
  }

  function PlainAll(m: map<string, Value>, cs: seq<Command>): map<string, Value> {
    if cs == [] then m else Plain(PlainAll(m, cs[..|cs| - 1]), cs[|cs| - 1])
  }

  /** On the plain map the calls never make more than `most` entries, counting `lost` ones too. */
  predicate Roomy(m: map<string, Value>, lost: nat, most: nat, cs: seq<Command>) {
    if cs == [] then true
    else
      var init, c := cs[..|cs| - 1], cs[|cs| - 1];
      && Roomy(m, lost, most, init)
      && (c.Put? && c.key !in PlainAll(m, init) ==> |PlainAll(m, init)| + lost + 1 <= most)
  }

  /** Load limits grow with the length. */
  ghost predicate Growing(limit: nat -> nat) {
    forall i, j :: 0 <= i < j < PRIME_TABLE_LENGTH ==> limit(Prime(i)) < limit(Prime(j))
  }

  /** A load factor of 0.65, rounded up, is such a limit. */
  lemma LoadFactorGrows()
    ensures Growing(length => (65 * length + 99) / 100)
  {
    hide Prime;
    forall i, j | 0 <= i < j < 26 ensures (65 * Prime(i) + 99) / 100 < (65 * Prime(j) + 99) / 100 {
      PrimesGrow(i, j);
      PrimesSuit(i);
    }
  }

  lemma {:induction false} PrimesGrow(i: nat, j: nat)
    requires i < j < 26
    ensures Prime(i) + 2 <= Prime(j)
    decreases j
  {
    hide Prime, NoSmallFactor;
    PrimesSuit(j - 1);
    if i < j - 1 {
      PrimesGrow(i, j - 1);
    }
  }

  /** The count is within the load limit, as long as the table can grow. */
  predicate WithinLimit(limit: nat -> nat, s: Model)
    requires s.prime < PRIME_TABLE_LENGTH
  {
    s.prime + 1 < PRIME_TABLE_LENGTH ==> s.Count() <= limit(Prime(s.prime))
  }

  /** One call, for a table that has refused nothing so far. */
  lemma StepRoomy(limit: nat -> nat, s: Model, c: Command)
    requires Growing(limit) && s.prime < PRIME_TABLE_LENGTH && WithinLimit(limit, s)
    ensures var r := Step(limit, s, c);
            && WithinLimit(limit, r.0)
            && (r.1 == Refused <==>
                c.Put? && c.key !in s.m && s.Count() + 1 > limit(Prime(PRIME_TABLE_LENGTH - 1)))
            && (r.1 != Refused ==> r.0.m == Plain(s.m, c) && r.0.lost == s.lost)
  {
    hide *;
    StepIs(limit, s, c);
    WithinIs(limit, s);
    WithinIs(limit, Step(limit, s, c).0);
    if s.prime + 1 < 26 {
      LimitsGrow(limit, s.prime);
    }
    match c {
      case Put(k, v) => One(s.m, k, v);
      case Get(_) =>
      case Drop(k) => Fewer(s.m, k);
    }
  }

  lemma StepIs(limit: nat -> nat, s: Model, c: Command)
    requires s.prime < PRIME_TABLE_LENGTH
    ensures PRIME_TABLE_LENGTH == 26
    ensures c.Put? && c.key in s.m ==> Step(limit, s, c) == (s, Exists)
    ensures c.Put? && c.key !in s.m ==>
              Step(limit, s, c) ==
              (if s.Count() + 1 <= limit(Prime(s.prime)) then (s.(m := s.m[c.key := c.value]), Stored)
               else if s.prime + 1 < 26 then (Model(s.m[c.key := c.value], s.lost, s.prime + 1), Stored)
               else (s.(lost := s.lost + 1), Refused))
    ensures c.Get? ==> Step(limit, s, c).0 == s && Step(limit, s, c).1 != Refused
    ensures c.Drop? ==> Step(limit, s, c).0 == s.(m := s.m - {c.key}) && Step(limit, s, c).1 != Refused
    ensures Plain(s.m, c) ==
              if c.Get? || (c.Put? && c.key in s.m) then s.m
              else if c.Drop? then s.m - {c.key} else s.m[c.key := c.value]
  {
    hide Prime;
  }

  lemma WithinIs(limit: nat -> nat, s: Model)
    requires s.prime < PRIME_TABLE_LENGTH
    ensures WithinLimit(limit, s) <==> (s.prime + 1 < 26 ==> s.Count() <= limit(Prime(s.prime)))
    ensures s.Count() == |s.m| + s.lost
  {
  }

  lemma One(m: map<string, Value>, k: string, v: Value)
    ensures k !in m ==> |m[k := v]| == |m| + 1
  {
  }

  lemma LimitsGrow(limit: nat -> nat, i: nat)
    requires Growing(limit) && i + 1 < PRIME_TABLE_LENGTH
    ensures limit(Prime(i)) < limit(Prime(i + 1)) && limit(Prime(i)) < limit(Prime(PRIME_TABLE_LENGTH - 1))
  {
  }

  lemma Fewer(m: map<string, Value>, k: string)
    ensures |m - {k}| <= |m|
  {
    if k in m {
      assert m == (m - {k})[k := m[k]];
    } else {
      assert m - {k} == m;
    }
  }

  /** A run refuses nothing exactly when the same calls on a plain map stay within the load limit of
      the largest table; the count is then the number of entries, if it was before. */
  lemma {:induction false} NothingRefused(limit: nat -> nat, s: Model, cs: seq<Command>)
    requires Growing(limit) && s.prime < PRIME_TABLE_LENGTH && WithinLimit(limit, s)
    ensures var r := Steps(limit, s, cs);
            && WithinLimit(limit, r.0)
            && (Refused !in r.1 <==> Roomy(s.m, s.lost, limit(Prime(PRIME_TABLE_LENGTH - 1)), cs))
            && (Refused !in r.1 ==> r.0.m == PlainAll(s.m, cs) && r.0.lost == s.lost)
            && (r.0.lost == s.lost <==> Refused !in r.1) && r.0.lost >= s.lost
            && (r.0.Count() == |r.0.m| <==>
                s.lost == 0 && Roomy(s.m, s.lost, limit(Prime(PRIME_TABLE_LENGTH - 1)), cs))
    decreases |cs|
  {
    hide Growing, WithinLimit, Prime, Step, Plain;
    if cs == [] {
      return;
    }
    var init, c := cs[..|cs| - 1], cs[|cs| - 1];
    NothingRefused(limit, s, init);
    var before := Steps(limit, s, init);
    StepRoomy(limit, before.0, c);
    LostGrows(limit, before.0, c);
  }

  lemma LostGrows(limit: nat -> nat, s: Model, c: Command)
    requires s.prime < PRIME_TABLE_LENGTH
    ensures var r := Step(limit, s, c); r.0.lost == s.lost + (if r.1 == Refused then 1 else 0)
  {
  }

  /** As long as nothing is refused the replies are those of a plain map. */
  lemma {:induction false} RepliesPlain(limit: nat -> nat, s: Model, cs: seq<Command>, i: nat)
    requires Growing(limit) && s.prime < PRIME_TABLE_LENGTH && WithinLimit(limit, s)
    requires i < |cs| && Refused !in Steps(limit, s, cs).1
    ensures var m, k := PlainAll(s.m, cs[..i]), cs[i].key;
            Steps(limit, s, cs).1[i] ==
            match cs[i]
            case Put(_, _) => if k in m then Exists else Stored
            case _ => Found(if k in m then Some(m[k]) else None)
    decreases |cs|
  {
    hide Growing, WithinLimit, Prime, Plain, PlainAll, Step;
    var n := |cs| - 1;
    var before := Steps(limit, s, cs[..n]);
    assert Steps(limit, s, cs).1 == before.1 + [Step(limit, before.0, cs[n]).1];
    assert forall r :: r in before.1 ==> r in Steps(limit, s, cs).1;
    if i < n {
      RepliesPlain(limit, s, cs[..n], i);
      assert cs[..n][..i] == cs[..i];
    } else {
      NothingRefused(limit, s, cs[..n]);
      ReplyIs(limit, before.0, cs[n]);
    }
  }

  lemma ReplyIs(limit: nat -> nat, s: Model, c: Command)
    requires s.prime < PRIME_TABLE_LENGTH && Step(limit, s, c).1 != Refused
    ensures Step(limit, s, c).1 ==
            match c
            case Put(_, _) => if c.key in s.m then Exists else Stored
            case _ => Found(if c.key in s.m then Some(s.m[c.key]) else None)
  {
    hide Prime;
  }
}
