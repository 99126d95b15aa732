/** Linked chains of hash table entries, and the sequences they stand for. */
module Chains {

  type Value = nat  // a `void *`

  /** `struct entry`: only the link changes after creation. */
  class Entry {
    const k: string
    const v: Value
    const h: nat
    var next: Entry?

    constructor (k: string, v: Value, h: nat, next: Entry?)
      ensures this.k == k && this.v == v && this.h == h && this.next == next
    {
      this.k, this.v, this.h, this.next := k, v, h, next;
    }
  }

  type Buckets = seq<seq<Entry>>

  /** Entry number `j` of a chain, null past its end. */
  ghost function At(s: seq<Entry>, j: nat): (e: Entry?)
    ensures e == if j < |s| then s[j] else null
  {
    if j < |s| then s[j] else null
  }

  /** The heads and links spell out the chains, and the chains only use `owned` entries. */
  ghost predicate Linked(heads: array<Entry?>, chains: Buckets, owned: set<Entry>)
    reads heads, owned
  {
    && heads.Length == |chains|
    && (forall i, j :: 0 <= i < |chains| && 0 <= j < |chains[i]| ==> chains[i][j] in owned)
    && (forall i :: 0 <= i < |chains| ==> heads[i] == At(chains[i], 0))
    && (forall i, j {:trigger chains[i][j].next} :: 0 <= i < |chains| && 0 <= j < |chains[i]| ==>
          chains[i][j].next == At(chains[i], j + 1))
  }

  ghost predicate NoDup(s: seq<Entry>) {
    forall i, j :: 0 <= i < j < |s| ==> s[i] != s[j]
  }

  /** Entries are in the bucket of their hash value, once. */
  ghost predicate Bucketed(chains: Buckets) {
    && (forall i, j :: 0 <= i < |chains| && 0 <= j < |chains[i]| ==> chains[i][j].h % |chains| == i)
    && (forall i :: 0 <= i < |chains| ==> NoDup(chains[i]))
  }

  /** The chains hold exactly the entries of `owned`. */
  ghost predicate Holds(chains: Buckets, owned: set<Entry>) {
    && (forall i, j :: 0 <= i < |chains| && 0 <= j < |chains[i]| ==> chains[i][j] in owned)
    && |chains| > 0
    && (forall e :: e in owned ==> e in chains[e.h % |chains|])
  }

  /** All chains one after the other: the order the iterator visits. */
  ghost function Flat(chains: Buckets): seq<Entry> {
    if chains == [] then [] else chains[0] + Flat(chains[1..])
  }

  // ----- one step on a bucket array

  /** Puts an entry at the head of a chain. */
  method PushFront(t: array<Entry?>, ghost chains: Buckets, ghost owned: set<Entry>, i: nat, e: Entry)
    requires i < t.Length && Linked(t, chains, owned) && e !in owned
    modifies t, e
    ensures Linked(t, chains[i := [e] + chains[i]], owned + {e})
  {
    e.next := t[i];
    t[i] := e;
  }

  /** Takes the entry off the head of a chain. */
  method PopFront(t: array<Entry?>, ghost chains: Buckets, ghost owned: set<Entry>, i: nat) returns (e: Entry)
    requires i < t.Length && Linked(t, chains, owned) && Bucketed(chains) && t[i] != null
    modifies t
    ensures chains[i] != [] && e == chains[i][0] && e in owned
    ensures Linked(t, chains[i := chains[i][1..]], owned - {e})
  {
    e := t[i];
    t[i] := e.next;
  }

  /** Unlinks an entry behind its predecessor. */
  method Unlink(ghost heads: array<Entry?>, ghost chains: Buckets, ghost owned: set<Entry>, ghost i: nat, ghost j: nat,
                   prev: Entry, e: Entry)
    requires Linked(heads, chains, owned) && Bucketed(chains) && i < |chains| && j + 1 < |chains[i]|
    requires prev == chains[i][j] && e == chains[i][j + 1]
    modifies prev
    ensures Linked(heads, chains[i := chains[i][..j + 1] + chains[i][j + 2..]], owned - {e})
    ensures e.next == old(e.next)
  {
    prev.next := e.next;
  }

  // ----- the pure side of the same steps

  lemma BucketedPush(chains: Buckets, owned: set<Entry>, i: nat, e: Entry)
    requires Bucketed(chains) && Holds(chains, owned) && i < |chains| && e.h % |chains| == i && e !in owned
    ensures Bucketed(chains[i := [e] + chains[i]]) && Holds(chains[i := [e] + chains[i]], owned + {e})
  {
  }

  lemma BucketedDrop(chains: Buckets, owned: set<Entry>, i: nat, j: nat)
    requires Bucketed(chains) && Holds(chains, owned) && i < |chains| && j < |chains[i]|
    ensures var chains', e := chains[i := chains[i][..j] + chains[i][j + 1..]], chains[i][j];
            Bucketed(chains') && Holds(chains', owned - {e}) && e in owned
  {
  }
}
