/** Runs of calls on several structures: they behave as values, and every member record and key string
    has one owner until it is freed once. */
module Ownership {
  import opened Options
  import opened CTypes
  import opened Rounding
  import opened Definitions
  import opened Compile
  import opened Structures

  // ----- one owner each

  /** Of all that was `made`, each piece is owned once or listed in `freed` once, never both. */
  ghost predicate Partition<T>(owns: seq<set<T>>, freed: seq<T>, made: set<T>) {
    && (forall i, j :: 0 <= i < j < |owns| ==> owns[i] !! owns[j])
    && (forall i :: 0 <= i < |owns| ==> owns[i] <= made)
    && (forall k :: 0 <= k < |freed| ==> freed[k] in made)
    && (forall i, k :: 0 <= i < |owns| && 0 <= k < |freed| ==> freed[k] !in owns[i])
    && (forall k, l :: 0 <= k < l < |freed| ==> freed[k] != freed[l])
    && (forall x :: x in made ==> x in freed || exists i :: 0 <= i < |owns| && x in owns[i])
  }

  /** A sequence with position `j` taken out. */
  function Without<T>(s: seq<T>, j: nat): seq<T>
    requires j < |s|
  {
    s[..j] + s[j + 1..]
  }

  lemma WithoutAt<T>(s: seq<T>, j: nat)
    requires j < |s|
    ensures |Without(s, j)| == |s| - 1
    ensures forall k :: 0 <= k < |s| - 1 ==> Without(s, j)[k] == s[if k < j then k else k + 1]
    ensures forall k :: 0 <= k < |s| && k != j ==> Without(s, j)[if k < j then k else k - 1] == s[k]
  {
  }

  lemma PartNew<T>(owns: seq<set<T>>, freed: seq<T>, made: set<T>)
    requires Partition(owns, freed, made)
    ensures Partition(owns + [{}], freed, made)
  {
    var owns' := owns + [{}];
    forall x | x in made && x !in freed ensures exists i :: 0 <= i < |owns'| && x in owns'[i] {
      var i :| 0 <= i < |owns| && x in owns[i];
      assert x in owns'[i];
    }
  }

  lemma PartGain<T>(owns: seq<set<T>>, freed: seq<T>, made: set<T>, i: nat, x: T)
    requires Partition(owns, freed, made) && i < |owns| && x !in made
    ensures Partition(owns[i := owns[i] + {x}], freed, made + {x})
  {
    var owns' := owns[i := owns[i] + {x}];
    forall y | y in made + {x} && y !in freed ensures exists k :: 0 <= k < |owns'| && y in owns'[k] {
      if y == x {
        assert y in owns'[i];
      } else {
        var k :| 0 <= k < |owns| && y in owns[k];
        assert y in owns'[k];
      }
    }
  }

  lemma PartMerge<T>(owns: seq<set<T>>, freed: seq<T>, made: set<T>, i: nat, j: nat)
    requires Partition(owns, freed, made) && i < |owns| && j < |owns| && i != j
    ensures Partition(owns[i := owns[i] + owns[j]][j := {}], freed, made)
  {
    var owns' := owns[i := owns[i] + owns[j]][j := {}];
    forall y | y in made && y !in freed ensures exists k :: 0 <= k < |owns'| && y in owns'[k] {
      var k :| 0 <= k < |owns| && y in owns[k];
      assert y in owns'[if k == j then i else k];
    }
  }

  lemma PartFree<T>(owns: seq<set<T>>, freed: seq<T>, made: set<T>, j: nat, fs: seq<T>)
    requires Partition(owns, freed, made) && j < |owns| && Released(owns[j], {}, fs)
    ensures Partition(owns[j := {}], freed + fs, made)
  {
    var owns', freed' := owns[j := {}], freed + fs;
    forall y | y in made && y !in freed' ensures exists k :: 0 <= k < |owns'| && y in owns'[k] {
      assert y !in freed && y !in fs;
      var k :| 0 <= k < |owns| && y in owns[k];
      assert y in owns'[k];
    }
  }

  lemma PartDrop<T>(owns: seq<set<T>>, freed: seq<T>, made: set<T>, j: nat)
    requires Partition(owns, freed, made) && j < |owns| && owns[j] == {}
    ensures Partition(Without(owns, j), freed, made)
  {
    var owns' := Without(owns, j);
    WithoutAt(owns, j);
    forall y | y in made && y !in freed ensures exists k :: 0 <= k < |owns'| && y in owns'[k] {
      var k :| 0 <= k < |owns| && y in owns[k];
      assert y in owns'[if k < j then k else k - 1];
    }
  }

  /** When no structure is left, everything has been freed, each piece once. */
  lemma AllFreed<T>(freed: seq<T>, made: set<T>)
    requires Partition([], freed, made)
    ensures forall x :: x in freed <==> x in made
    ensures |freed| == |made|
  {
    Distinct(freed, made);
  }

  lemma {:induction false} Distinct<T>(s: seq<T>, all: set<T>)
    requires forall x :: x in s <==> x in all
    requires forall i, j :: 0 <= i < j < |s| ==> s[i] != s[j]
    ensures |s| == |all|
  {
    if s == [] {
      assert all == {};
    } else {
      var n := |s| - 1;
      assert s == s[..n] + [s[n]];
      Distinct(s[..n], all - {s[n]});
    }
  }

  // ----- calls on values

  type Count = n: nat | n > 0 witness 1

  /** A call of the library; structures are named by their position among the live ones.  A position
      that no structure has, a structure inserted into itself, and an empty child (which the do-while
      loops cannot take) are no calls: they are answered with false and change nothing. */
  datatype Call =
    | Create
    | AddValue(at: nat, name: string, ctype: CType)
    | AddArray(at: nat, name: string, ctype: CType, n: Count)
    | AddUnion(at: nat, name: string, ctype: CType)
    | Nest(at: nat, child: nat, union: bool)
    | Close(at: nat)
    | Delete(at: nat)

  /** A structure as a value. */
  datatype Slot = Slot(cursor: Cursor, finished: bool)

  predicate Sound(slots: seq<Slot>) {
    forall i :: 0 <= i < |slots| ==> IsAlign(slots[i].cursor.align) && slots[i].cursor.last <= slots[i].cursor.next
  }

  datatype Outcome = Outcome(slots: seq<Slot>, ok: bool) | Clash

  function Put(slots: seq<Slot>, i: nat, r: Option<Cursor>): Outcome
    requires i < |slots|
  {
    if slots[i].finished || r.None? then Outcome(slots, false)
    else Outcome(slots[i := Slot(r.value, false)], true)
  }

  predicate Pair(slots: seq<Slot>, i: nat, j: nat) {
    i < |slots| && j < |slots| && i != j && slots[j].cursor.table != map[]
  }

  /** The child's members move into the parent and the child is gone; a shared name is a clash. */
  function Absorb(slots: seq<Slot>, i: nat, j: nat, r: Option<Cursor>): Outcome
    requires Pair(slots, i, j)
  {
    if r.None? then Clash else Outcome(Without(slots[i := Slot(r.value, false)], j), true)
  }

  predicate Adds(c: Call) {
    c.AddValue? || c.AddArray? || c.AddUnion?
  }

  function Added(a: Arch, cur: Cursor, c: Call): Option<Cursor>
    requires Adds(c) && cur.last <= cur.next && cur.align > 0
  {
    match c
    case AddValue(_, name, t) => AddMember(a, cur, Field(name, t, 0))
    case AddArray(_, name, t, n) => AddMember(a, cur, Field(name, t, n))
    case AddUnion(_, name, t) => AddUnionMember(a, cur, Field(name, t, 0))
  }

  function Inserted(cur: Cursor, child: Cursor, union: bool): Option<Cursor>
    requires child.align > 0
  {
    if union then Compile.InsertUnion(cur, child) else Compile.InsertStruct(cur, child)
  }

  /** The parent after an insert that is refused. */
  function RefusedInto(slot: Slot, child: Slot, union: bool): Slot
    requires child.cursor.align > 0
  {
    if union then slot.(cursor := Realigned(slot.cursor, child.cursor)) else slot
  }

  function Step(a: Arch, slots: seq<Slot>, c: Call): Outcome
    requires Sound(slots)
  {
    match c
    case Create => Outcome(slots + [Slot(START, false)], true)
    case Nest(i, j, union) =>
      if !Pair(slots, i, j) then Outcome(slots, false)
      else
        if slots[i].finished || !slots[j].finished then
          Outcome(slots[i := RefusedInto(slots[i], slots[j], union)], false)
        else Absorb(slots, i, j, Inserted(slots[i].cursor, slots[j].cursor, union))
    case Close(i) =>
      if i >= |slots| || slots[i].finished then Outcome(slots, false)
      else Outcome(slots[i := Slot(Finish(slots[i].cursor), true)], true)
    case Delete(i) =>
      if i >= |slots| then Outcome(slots, false) else Outcome(Without(slots, i), true)
    case _ =>
      if c.at >= |slots| then Outcome(slots, false) else Put(slots, c.at, Added(a, slots[c.at].cursor, c))
  }

  /** A call that adds a member records its type, padded up from the end of what is there, or for a
      union from its start. */
  lemma AddPlaces(a: Arch, slots: seq<Slot>, c: Call)
    requires Sound(slots) && Adds(c) && Step(a, slots, c).Outcome? && Step(a, slots, c).ok
    ensures c.at < |slots| == |Step(a, slots, c).slots| && !slots[c.at].finished
    ensures var was, after := slots[c.at].cursor, Step(a, slots, c).slots[c.at].cursor;
            && after.table.Keys == was.table.Keys + {c.name} && c.name !in was.table
            && after.table[c.name].ctype == c.ctype
            && after.table[c.name].offset == RoundUp(if c.AddUnion? then was.last else was.next, AlignSize(a, c.ctype))
  {
    hide RoundUp, AlignSize, MemSize;
  }

  /** An insert moves each member of the child by the same distance, to the end of the parent or, for a
      union, to the start of its last one. */
  lemma NestPlaces(a: Arch, slots: seq<Slot>, c: Call, name: string)
    requires Sound(slots) && c.Nest? && Step(a, slots, c).Outcome? && Step(a, slots, c).ok
    requires c.child < |slots| && name in slots[c.child].cursor.table
    ensures |Step(a, slots, c).slots| == |slots| - 1 && c.at < |slots| && c.at != c.child
    ensures var was, child := slots[c.at].cursor, slots[c.child].cursor;
            var after := Step(a, slots, c).slots[if c.child < c.at then c.at - 1 else c.at].cursor;
            && name !in was.table && after.table.Keys == was.table.Keys + child.table.Keys
            && after.table[name].ctype == child.table[name].ctype
            && after.table[name].offset
               == child.table[name].offset + RoundUp(if c.union then was.last else was.next, child.align)
  {
    hide RoundUp;
  }

  lemma SoundAfter(a: Arch, slots: seq<Slot>, c: Call)
    requires Sound(slots)
    ensures Step(a, slots, c).Outcome? ==> Sound(Step(a, slots, c).slots)
  {
  }

  /** What a run of calls leads to: None when an insert meets a shared name. */
  datatype Story = Story(slots: seq<Slot>, replies: seq<bool>)

  function After(a: Arch, cs: seq<Call>): (r: Option<Story>)
    ensures r.Some? ==> Sound(r.value.slots) && |r.value.replies| == |cs|
  {
    if cs == [] then Some(Story([], []))
    else
      var before := After(a, cs[..|cs| - 1]);
      if before.None? then None
      else
        SoundAfter(a, before.value.slots, cs[|cs| - 1]);
        match Step(a, before.value.slots, cs[|cs| - 1])
        case Clash => None
        case Outcome(slots, ok) => Some(Story(slots, before.value.replies + [ok]))
  }

  // ----- calls on the heap

  /** The live structures, what has been freed so far, and all that was ever allocated. */
  datatype World = World(live: seq<Structure>, freed: seq<Member>, freedKeys: seq<Name>,
                         made: set<Member>, madeKeys: set<Name>)

  ghost function Records(live: seq<Structure>): seq<set<Member>>
    reads live
  {
    seq(|live|, i requires 0 <= i < |live| reads live => live[i].owned)
  }

  ghost function Keys(live: seq<Structure>): seq<set<Name>>
    reads live
  {
    seq(|live|, i requires 0 <= i < |live| reads live => live[i].keys.Values)
  }

  ghost predicate Stands(a: Arch, s: Structure, slot: Slot)
    reads s, s.owned
  {
    s.Valid() && s.arch == a && s.View() == slot.cursor && s.finished == slot.finished
  }

  /** The live structures are apart, well-formed, and have the values `slots`. */
  ghost predicate Standing(a: Arch, live: seq<Structure>, made: set<Member>, slots: seq<Slot>)
    reads live, made
  {
    && |slots| == |live|
    && (forall i, j :: 0 <= i < j < |live| ==> live[i] != live[j])
    && (forall i :: 0 <= i < |live| ==> live[i].owned <= made && Stands(a, live[i], slots[i]))
  }

  ghost predicate Good(a: Arch, w: World, slots: seq<Slot>)
    reads w.live, w.made
  {
    && Standing(a, w.live, w.made, slots)
    && Partition(Records(w.live), w.freed, w.made)
    && Partition(Keys(w.live), w.freedKeys, w.madeKeys)
  }

  /** The structures other than `i` and `j` stand. */
  ghost predicate Bystanders(a: Arch, w: World, slots: seq<Slot>, i: nat, j: nat)
    reads w.live, w.made
  {
    && |slots| == |w.live|
    && (forall k, l :: 0 <= k < l < |w.live| ==> w.live[k] != w.live[l])
    && (forall k :: 0 <= k < |w.live| && k != i && k != j ==> w.live[k].owned <= w.made && Stands(a, w.live[k], slots[k]))
  }

  /** What the live structures own is `rs` and `ks`, but for structures `i` and `j`. */
  ghost predicate Own(live: seq<Structure>, rs: seq<set<Member>>, ks: seq<set<Name>>, i: nat, j: nat)
    reads live
  {
    && |rs| == |ks| == |live|
    && (forall k :: 0 <= k < |live| && k != i && k != j ==> live[k].owned == rs[k] && live[k].keys.Values == ks[k])
  }

  lemma GoodParts(a: Arch, w: World, slots: seq<Slot>, i: nat, j: nat)
    requires Good(a, w, slots) && i < |w.live| && j < |w.live|
    ensures Bystanders(a, w, slots, i, j) && Own(w.live, Records(w.live), Keys(w.live), i, j)
    ensures |slots| == |w.live| == |Records(w.live)| == |Keys(w.live)|
    ensures Stands(a, w.live[i], slots[i]) && Stands(a, w.live[j], slots[j])
    ensures Records(w.live)[i] == w.live[i].owned <= w.made && Keys(w.live)[i] == w.live[i].keys.Values
    ensures Records(w.live)[j] == w.live[j].owned <= w.made && Keys(w.live)[j] == w.live[j].keys.Values
    ensures i != j ==> w.live[i] != w.live[j] && w.live[i].owned !! w.live[j].owned
    ensures forall k :: 0 <= k < |w.live| && k != i && k != j ==> w.live[k].owned !! w.live[j].owned
    ensures Partition(Records(w.live), w.freed, w.made) && Partition(Keys(w.live), w.freedKeys, w.madeKeys)
  {
    hide Stands;
  }

  lemma OwnsAre(live: seq<Structure>, rs: seq<set<Member>>, ks: seq<set<Name>>, i: nat, j: nat)
    requires Own(live, rs, ks, i, j) && i < |live| && j < |live|
    ensures |rs| == |ks| == |live|
    ensures Records(live) == rs[i := live[i].owned][j := live[j].owned]
    ensures Keys(live) == ks[i := live[i].keys.Values][j := live[j].keys.Values]
  {
  }

  lemma OwnsOne(live: seq<Structure>, rs: seq<set<Member>>, ks: seq<set<Name>>, i: nat)
    requires Own(live, rs, ks, i, i) && i < |live|
    ensures |rs| == |ks| == |live|
    ensures Records(live) == rs[i := live[i].owned] && Keys(live) == ks[i := live[i].keys.Values]
  {
    OwnsAre(live, rs, ks, i, i);
  }

  lemma OwnsWithout(live: seq<Structure>, j: nat)
    requires j < |live|
    ensures Records(Without(live, j)) == Without(Records(live), j) && Keys(Without(live, j)) == Without(Keys(live), j)
  {
  }

  lemma AllStand(a: Arch, w: World, slots: seq<Slot>, i: nat, slot: Slot, made: set<Member>)
    requires Bystanders(a, w, slots, i, i) && i < |w.live| && w.made <= made
    requires w.live[i].owned <= made && Stands(a, w.live[i], slot)
    ensures |slots| == |w.live|
    ensures Standing(a, w.live, made, slots[i := slot])
  {
    hide Stands;
  }

  lemma AddedValue(keys: map<string, Name>, name: string, k: Name)
    requires name !in keys
    ensures keys[name := k].Values == keys.Values + {k}
  {
    var keys' := keys[name := k];
    assert keys'[name] == k;
    forall v | v in keys.Values ensures v in keys'.Values {
      var n :| n in keys && keys[n] == v;
      assert keys'[n] == v;
    }
  }

  lemma JoinedValues(keys: map<string, Name>, more: map<string, Name>)
    requires keys.Keys !! more.Keys
    ensures (keys + more).Values == keys.Values + more.Values
  {
    var both := keys + more;
    forall v | v in keys.Values + more.Values ensures v in both.Values {
      if v in more.Values {
        var n :| n in more && more[n] == v;
        assert both[n] == v;
      } else {
        var n :| n in keys && keys[n] == v;
        assert both[n] == v;
      }
    }
  }

  lemma GoodIs(a: Arch, w: World, slots: seq<Slot>)
    requires Standing(a, w.live, w.made, slots)
    requires Partition(Records(w.live), w.freed, w.made) && Partition(Keys(w.live), w.freedKeys, w.madeKeys)
    ensures Good(a, w, slots)
  {
  }

  lemma PartWithin<T>(owns: seq<set<T>>, freed: seq<T>, made: set<T>, i: nat)
    requires Partition(owns, freed, made) && i < |owns|
    ensures owns[i] <= made
  {
  }

  /** A successful addmember call. */
  lemma Gains(a: Arch, w: World, slots: seq<Slot>, i: nat, slot: Slot, m: Member, k: Name,
              rs: seq<set<Member>>, ks: seq<set<Name>>)
    requires Bystanders(a, w, slots, i, i) && i < |w.live| && Stands(a, w.live[i], slot)
    requires Partition(rs, w.freed, w.made) && Partition(ks, w.freedKeys, w.madeKeys)
    requires Own(w.live, rs, ks, i, i) && m !in w.made && k !in w.madeKeys
    requires w.live[i].owned == rs[i] + {m} && w.live[i].keys.Values == ks[i] + {k}
    ensures Good(a, w.(made := w.made + {m}, madeKeys := w.madeKeys + {k}), slots[i := slot])
  {
    hide *;
    OwnsOne(w.live, rs, ks, i);
    PartWithin(rs, w.freed, w.made, i);
    AllStand(a, w, slots, i, slot, w.made + {m});
    PartGain(rs, w.freed, w.made, i, m);
    PartGain(ks, w.freedKeys, w.madeKeys, i, k);
    GoodIs(a, w.(made := w.made + {m}, madeKeys := w.madeKeys + {k}), slots[i := slot]);
  }

  /** A call that moves nothing. */
  lemma Stays(a: Arch, w: World, slots: seq<Slot>, i: nat, slot: Slot, rs: seq<set<Member>>, ks: seq<set<Name>>)
    requires Bystanders(a, w, slots, i, i) && i < |w.live| && Stands(a, w.live[i], slot)
    requires Partition(rs, w.freed, w.made) && Partition(ks, w.freedKeys, w.madeKeys)
    requires Own(w.live, rs, ks, i, i)
    requires w.live[i].owned == rs[i] && w.live[i].keys.Values == ks[i]
    ensures Good(a, w, slots[i := slot])
  {
    hide *;
    OwnsOne(w.live, rs, ks, i);
    PartWithin(rs, w.freed, w.made, i);
    AllStand(a, w, slots, i, slot, w.made);
    assert Records(w.live) == rs && Keys(w.live) == ks;
    GoodIs(a, w, slots[i := slot]);
  }

  /** A successful insert: the child's records and key strings are the parent's, the child is gone. */
  lemma Merges(a: Arch, w: World, slots: seq<Slot>, i: nat, j: nat, slot: Slot, rs: seq<set<Member>>, ks: seq<set<Name>>)
    requires Bystanders(a, w, slots, i, j) && i < |w.live| && j < |w.live| && i != j
    requires Stands(a, w.live[i], slot)
    requires Partition(rs, w.freed, w.made) && Partition(ks, w.freedKeys, w.madeKeys)
    requires Own(w.live, rs, ks, i, j)
    requires w.live[i].owned == rs[i] + rs[j] && w.live[i].keys.Values == ks[i] + ks[j]
    requires w.live[j].owned == {} && w.live[j].keys == map[]
    ensures Good(a, w.(live := Without(w.live, j)), Without(slots[i := slot], j))
  {
    hide *;
    OwnsAre(w.live, rs, ks, i, j);
    PartWithin(rs, w.freed, w.made, i);
    PartWithin(rs, w.freed, w.made, j);
    MergedStand(a, w, slots, i, j, slot);
    OwnsWithout(w.live, j);
    NoValues(w.live[j].keys);
    PartMerge(rs, w.freed, w.made, i, j);
    PartMerge(ks, w.freedKeys, w.madeKeys, i, j);
    PartDrop(Records(w.live), w.freed, w.made, j);
    PartDrop(Keys(w.live), w.freedKeys, w.madeKeys, j);
    GoodIs(a, w.(live := Without(w.live, j)), Without(slots[i := slot], j));
  }

  lemma NoValues(keys: map<string, Name>)
    requires keys == map[]
    ensures keys.Values == {}
  {
  }

  lemma MergedStand(a: Arch, w: World, slots: seq<Slot>, i: nat, j: nat, slot: Slot)
    requires Bystanders(a, w, slots, i, j) && i < |w.live| && j < |w.live| && i != j
    requires Stands(a, w.live[i], slot) && w.live[i].owned <= w.made
    ensures |slots| == |w.live|
    ensures Standing(a, Without(w.live, j), w.made, Without(slots[i := slot], j))
  {
    hide Stands, Without;
    WithoutAt(w.live, j);
    WithoutAt(slots[i := slot], j);
    WithoutApart(w.live, j);
  }

  lemma WithoutApart<T>(s: seq<T>, j: nat)
    requires j < |s| && forall k, l :: 0 <= k < l < |s| ==> s[k] != s[l]
    ensures forall k, l :: 0 <= k < l < |Without(s, j)| ==> Without(s, j)[k] != Without(s, j)[l]
  {
  }

  /** A deleted structure. */
  lemma Frees(a: Arch, w: World, slots: seq<Slot>, i: nat, freed: seq<Member>, freedKeys: seq<Name>,
              rs: seq<set<Member>>, ks: seq<set<Name>>)
    requires Bystanders(a, w, slots, i, i) && i < |w.live|
    requires Partition(rs, w.freed, w.made) && Partition(ks, w.freedKeys, w.madeKeys)
    requires Own(w.live, rs, ks, i, i) && Released(rs[i], {}, freed) && Released(ks[i], {}, freedKeys)
    requires w.live[i].owned == {} && w.live[i].keys == map[]
    ensures Good(a, w.(live := Without(w.live, i), freed := w.freed + freed, freedKeys := w.freedKeys + freedKeys),
                 Without(slots, i))
  {
    hide *;
    OwnsOne(w.live, rs, ks, i);
    DroppedStand(a, w, slots, i);
    OwnsWithout(w.live, i);
    NoValues(w.live[i].keys);
    PartFree(rs, w.freed, w.made, i, freed);
    PartFree(ks, w.freedKeys, w.madeKeys, i, freedKeys);
    PartDrop(Records(w.live), w.freed + freed, w.made, i);
    PartDrop(Keys(w.live), w.freedKeys + freedKeys, w.madeKeys, i);
    GoodIs(a, w.(live := Without(w.live, i), freed := w.freed + freed, freedKeys := w.freedKeys + freedKeys),
           Without(slots, i));
  }

  lemma DroppedStand(a: Arch, w: World, slots: seq<Slot>, i: nat)
    requires Bystanders(a, w, slots, i, i) && i < |w.live|
    ensures |slots| == |w.live|
    ensures Standing(a, Without(w.live, i), w.made, Without(slots, i))
  {
    hide Stands, Without;
    WithoutAt(w.live, i);
    WithoutAt(slots, i);
    WithoutApart(w.live, i);
  }

  /** A new structure. */
  lemma Begins(a: Arch, w: World, slots: seq<Slot>, s: Structure)
    requires Good(a, w, slots) && s !in w.live
    requires Stands(a, s, Slot(START, false)) && s.owned == {} && s.keys == map[]
    ensures Good(a, w.(live := w.live + [s]), slots + [Slot(START, false)])
  {
    hide Stands, Partition;
    NoValues(s.keys);
    assert Records(w.live + [s]) == Records(w.live) + [{}];
    assert Keys(w.live + [s]) == Keys(w.live) + [{}];
    PartNew(Records(w.live), w.freed, w.made);
    PartNew(Keys(w.live), w.freedKeys, w.madeKeys);
  }

  /** What a call adds to all that was made. */
  twostate predicate Grew(w: World, new w': World, ok: bool) {
    && w.made <= w'.made && w.madeKeys <= w'.madeKeys
    && fresh(w'.made - w.made) && fresh(w'.madeKeys - w.madeKeys)
    && |w'.made| == |w.made| + (if ok then 1 else 0) && |w'.madeKeys| == |w.madeKeys| + (if ok then 1 else 0)
  }

  /** One of the three addmember calls. */
  method AddMemberTo(a: Arch, s: Structure, c: Call, ghost slot: Slot) returns (ok: bool)
    requires Stands(a, s, slot) && Adds(c)
    modifies s
    ensures slot.cursor.last <= slot.cursor.next && slot.cursor.align > 0
    ensures ok <==> !slot.finished && Added(a, slot.cursor, c).Some?
    ensures if ok then s.Gained(c.name) && Stands(a, s, Slot(Added(a, slot.cursor, c).value, false))
            else s.Unchanged() && Stands(a, s, slot)
  {
    hide Recorded, Keyed;
    match c {
      case AddValue(_, name, t) => ok := s.AddMemberValue(name, t);
      case AddArray(_, name, t, n) => ok := s.AddMemberArray(name, t, n);
      case AddUnion(_, name, t) => ok := s.AddMemberUnion(name, t);
    }
  }

  /** What structure `i` has gained: nothing, or one record and one key string. */
  ghost predicate Gain(w: World, i: nat, name: string, rs: seq<set<Member>>, ks: seq<set<Name>>)
    requires i < |w.live| && i < |rs| && i < |ks|
    reads w.live
  {
    var s := w.live[i];
    && name in s.members && name in s.keys && s.members[name] !in w.made && s.keys[name] !in w.madeKeys
    && s.owned == rs[i] + {s.members[name]} && s.keys.Values == ks[i] + {s.keys[name]}
  }

  method CallAdd(a: Arch, w: World, c: Call, i: nat, ghost slots: seq<Slot>, ghost rs: seq<set<Member>>, ghost ks: seq<set<Name>>)
    returns (ok: bool)
    requires Bystanders(a, w, slots, i, i) && Own(w.live, rs, ks, i, i)
    requires i < |w.live| && Stands(a, w.live[i], slots[i]) && w.live[i].owned == rs[i] <= w.made
    requires w.live[i].keys.Values == ks[i] && Adds(c)
    modifies w.live[i]
    ensures Bystanders(a, w, slots, i, i) && Own(w.live, rs, ks, i, i)
    ensures slots[i].cursor.last <= slots[i].cursor.next && slots[i].cursor.align > 0
    ensures ok <==> !slots[i].finished && Added(a, slots[i].cursor, c).Some?
    ensures ok ==> Stands(a, w.live[i], Slot(Added(a, slots[i].cursor, c).value, false)) && Gain(w, i, c.name, rs, ks)
    ensures ok ==> fresh(w.live[i].members[c.name]) && fresh(w.live[i].keys[c.name])
    ensures !ok ==> Stands(a, w.live[i], slots[i]) && w.live[i].owned == rs[i] && w.live[i].keys.Values == ks[i]
  {
    hide Stands, Added;
    var s := w.live[i];
    ok := AddMemberTo(a, s, c, slots[i]);
    if ok {
      AddedValue(old(s.keys), c.name, s.keys[c.name]);
    }
  }

  method PerformAdd(a: Arch, w: World, c: Call, i: nat, ghost slots: seq<Slot>)
    returns (ok: bool, w': World, ghost slots': seq<Slot>)
    requires Good(a, w, slots) && Sound(slots) && Adds(c) && c.at == i < |w.live|
    modifies w.live[i]
    ensures Good(a, w', slots') && Step(a, slots, c) == Outcome(slots', ok)
    ensures w'.live == w.live && Grew(w, w', ok)
  {
    hide Good, Standing, Stands, Bystanders, Own, Gain, Partition, Records, Keys, Step, Added, Sound;
    GoodParts(a, w, slots, i, i);
    ghost var rs, ks := Records(w.live), Keys(w.live);
    ok := CallAdd(a, w, c, i, slots, rs, ks);
    StepAdd(a, slots, c, i);
    if ok {
      GainIs(w, i, c.name, rs, ks);
      var s := w.live[i];
      var m, k := s.members[c.name], s.keys[c.name];
      w' := w.(made := w.made + {m}, madeKeys := w.madeKeys + {k});
      slots' := slots[i := Slot(Added(a, slots[i].cursor, c).value, false)];
      Gains(a, w, slots, i, slots'[i], m, k, rs, ks);
    } else {
      w', slots' := w, slots;
      Stays(a, w, slots, i, slots[i], rs, ks);
      assert slots[i := slots[i]] == slots;
    }
  }

  lemma GainIs(w: World, i: nat, name: string, rs: seq<set<Member>>, ks: seq<set<Name>>)
    requires i < |w.live| && i < |rs| && i < |ks| && Gain(w, i, name, rs, ks)
    ensures var s := w.live[i];
            && name in s.members && name in s.keys && s.members[name] !in w.made && s.keys[name] !in w.madeKeys
            && s.owned == rs[i] + {s.members[name]} && s.keys.Values == ks[i] + {s.keys[name]}
  {
  }

  lemma StepAdd(a: Arch, slots: seq<Slot>, c: Call, i: nat)
    requires Sound(slots) && Adds(c) && c.at == i < |slots|
    ensures slots[i].cursor.last <= slots[i].cursor.next && slots[i].cursor.align > 0
    ensures var r := Added(a, slots[i].cursor, c);
            Step(a, slots, c) == if slots[i].finished || r.None? then Outcome(slots, false)
                                 else Outcome(slots[i := Slot(r.value, false)], true)
  {
    hide Added;
  }

  /** Structures `i` and `j` of a state described by `slots`, `rs` and `ks`. */
  ghost predicate Two(a: Arch, w: World, i: nat, j: nat, slots: seq<Slot>, rs: seq<set<Member>>, ks: seq<set<Name>>)
    requires i < |w.live| && j < |w.live| && |slots| == |rs| == |ks| == |w.live|
    reads w.live, w.made
  {
    && w.live[i].owned == rs[i] <= w.made && w.live[i].keys.Values == ks[i] && Stands(a, w.live[i], slots[i])
    && w.live[j].owned == rs[j] <= w.made && w.live[j].keys.Values == ks[j] && Stands(a, w.live[j], slots[j])
  }

  /** `cinv_structure_insert_struct` or `cinv_structure_insert_union_struct`, without a shared name. */
  method NestIn(a: Arch, s: Structure, child: Structure, union: bool, ghost slot: Slot, ghost childSlot: Slot)
    returns (ok: bool)
    requires Stands(a, s, slot) && Stands(a, child, childSlot) && s != child && s.owned !! child.owned
    requires childSlot.cursor.table != map[]
    requires slot.cursor.table.Keys !! childSlot.cursor.table.Keys || slot.finished || !childSlot.finished
    modifies s, child, child.owned
    ensures childSlot.cursor.align > 0
    ensures ok <==> !slot.finished && childSlot.finished
    ensures ok ==> Inserted(slot.cursor, childSlot.cursor, union).Some?
    ensures ok ==> Stands(a, s, Slot(Inserted(slot.cursor, childSlot.cursor, union).value, false))
    ensures ok ==> s.owned == old(s.owned) + old(child.owned) && s.keys.Values == old(s.keys.Values) + old(child.keys.Values)
    ensures ok ==> child.owned == {} && child.keys == map[]
    ensures !ok ==> Stands(a, s, RefusedInto(slot, childSlot, union)) && Stands(a, child, childSlot)
    ensures !ok ==> s.owned == old(s.owned) && s.keys == old(s.keys)
    ensures !ok ==> child.owned == old(child.owned) && child.keys == old(child.keys)
  {
    hide Recorded, Keyed, RoundUp, Listed, IsAlign, Shifted;
    s.SameNames();
    child.SameNames();
    ghost var taken;
    if union {
      ok, taken := s.InsertUnionStruct(child);
    } else {
      ok, taken := s.InsertStruct(child);
    }
    if ok {
      JoinedValues(old(s.keys), old(child.keys));
    }
  }

  method CallNest(a: Arch, w: World, i: nat, j: nat, union: bool, ghost slots: seq<Slot>,
                  ghost rs: seq<set<Member>>, ghost ks: seq<set<Name>>)
    returns (ok: bool)
    requires Bystanders(a, w, slots, i, j) && Own(w.live, rs, ks, i, j)
    requires i < |w.live| && j < |w.live| && w.live[i] != w.live[j] && w.live[i].owned !! w.live[j].owned
    requires forall k :: 0 <= k < |w.live| && k != i && k != j ==> w.live[k].owned !! w.live[j].owned
    requires Two(a, w, i, j, slots, rs, ks) && slots[j].cursor.table != map[]
    requires slots[i].cursor.table.Keys !! slots[j].cursor.table.Keys || slots[i].finished || !slots[j].finished
    modifies w.live[i], w.live[j], w.live[j].owned
    ensures Bystanders(a, w, slots, i, j) && Own(w.live, rs, ks, i, j)
    ensures slots[j].cursor.align > 0
    ensures ok <==> !slots[i].finished && slots[j].finished
    ensures ok ==> Inserted(slots[i].cursor, slots[j].cursor, union).Some?
    ensures ok ==> Stands(a, w.live[i], Slot(Inserted(slots[i].cursor, slots[j].cursor, union).value, false))
    ensures ok ==> w.live[i].owned == rs[i] + rs[j] && w.live[i].keys.Values == ks[i] + ks[j]
    ensures ok ==> w.live[j].owned == {} && w.live[j].keys == map[]
    ensures !ok ==> Two(a, w, i, j, slots[i := RefusedInto(slots[i], slots[j], union)], rs, ks)
  {
    hide Stands, Inserted, RefusedInto;
    ok := NestIn(a, w.live[i], w.live[j], union, slots[i], slots[j]);
  }

  lemma TwoIs(a: Arch, w: World, i: nat, j: nat, slots: seq<Slot>, rs: seq<set<Member>>, ks: seq<set<Name>>)
    requires i < |w.live| && j < |w.live| && |slots| == |rs| == |ks| == |w.live| && i != j
    requires Two(a, w, i, j, slots, rs, ks)
    ensures w.live[i].owned == rs[i] && w.live[i].keys.Values == ks[i] && Stands(a, w.live[i], slots[i])
    ensures Bystanders(a, w, slots, i, j) ==> Bystanders(a, w, slots, i, i)
    ensures Own(w.live, rs, ks, i, j) ==> Own(w.live, rs, ks, i, i)
  {
    hide Stands;
  }

  lemma BystandersSlot(a: Arch, w: World, slots: seq<Slot>, i: nat, j: nat, slot: Slot)
    requires Bystanders(a, w, slots, i, j) && i < |slots|
    ensures Bystanders(a, w, slots[i := slot], i, j)
  {
    hide Stands;
  }

  lemma TwoFrom(a: Arch, w: World, slots: seq<Slot>, i: nat, j: nat)
    requires Good(a, w, slots) && i < |w.live| && j < |w.live|
    ensures |slots| == |w.live| == |Records(w.live)| == |Keys(w.live)|
    ensures Two(a, w, i, j, slots, Records(w.live), Keys(w.live))
  {
    hide Stands;
    GoodParts(a, w, slots, i, j);
  }

  lemma StepNest(a: Arch, slots: seq<Slot>, c: Call)
    requires Sound(slots) && c.Nest? && Pair(slots, c.at, c.child)
    ensures var i, j := c.at, c.child;
            && i < |slots| && j < |slots| && i != j && slots[j].cursor.table != map[] && slots[j].cursor.align > 0
            && (slots[i].finished || !slots[j].finished ==>
                  Step(a, slots, c) == Outcome(slots[i := RefusedInto(slots[i], slots[j], c.union)], false))
            && (!slots[i].finished && slots[j].finished ==>
                  var r := Inserted(slots[i].cursor, slots[j].cursor, c.union);
                  && (r.Some? <==> slots[i].cursor.table.Keys !! slots[j].cursor.table.Keys)
                  && Step(a, slots, c) == if r.None? then Clash
                                          else Outcome(Without(slots[i := Slot(r.value, false)], j), true))
  {
    hide RoundUp, Shifted;
  }

  method PerformNest(a: Arch, w: World, c: Call, ghost slots: seq<Slot>)
    returns (ok: bool, w': World, ghost slots': seq<Slot>)
    requires Good(a, w, slots) && Sound(slots) && c.Nest? && Pair(slots, c.at, c.child)
    requires |w.live| == |slots| && Step(a, slots, c).Outcome?
    modifies w.live[c.at], w.live[c.child], w.live[c.child].owned
    ensures Good(a, w', slots') && Step(a, slots, c) == Outcome(slots', ok)
    ensures w'.made == w.made && w'.madeKeys == w.madeKeys && forall k :: 0 <= k < |w'.live| ==> w'.live[k] in w.live
  {
    hide *;
    var i, j := c.at, c.child;
    StepNest(a, slots, c);
    GoodParts(a, w, slots, i, j);
    TwoFrom(a, w, slots, i, j);
    ghost var rs, ks := Records(w.live), Keys(w.live);
    ok := CallNest(a, w, i, j, c.union, slots, rs, ks);
    if ok {
      ghost var slot := Slot(Inserted(slots[i].cursor, slots[j].cursor, c.union).value, false);
      Merges(a, w, slots, i, j, slot, rs, ks);
      WithoutAt(w.live, j);
      w' := w.(live := Without(w.live, j));
      slots' := Without(slots[i := slot], j);
    } else {
      ghost var slot := RefusedInto(slots[i], slots[j], c.union);
      BystandersSlot(a, w, slots, i, j, slot);
      TwoIs(a, w, i, j, slots[i := slot], rs, ks);
      Stays(a, w, slots[i := slot], i, slot, rs, ks);
      assert slots[i := slot][i := slot] == slots[i := slot];
      w', slots' := w, slots[i := slot];
    }
  }

  lemma StepFinish(a: Arch, slots: seq<Slot>, c: Call)
    requires Sound(slots) && c.Close? && c.at < |slots|
    ensures slots[c.at].cursor.align > 0
    ensures Step(a, slots, c) == if slots[c.at].finished then Outcome(slots[c.at := slots[c.at]], false)
                                 else Outcome(slots[c.at := Slot(Finish(slots[c.at].cursor), true)], true)
  {
    assert slots[c.at := slots[c.at]] == slots;
  }

  method CallFinish(a: Arch, w: World, i: nat, ghost slots: seq<Slot>, ghost rs: seq<set<Member>>, ghost ks: seq<set<Name>>)
    returns (ok: bool)
    requires Bystanders(a, w, slots, i, i) && Own(w.live, rs, ks, i, i) && i < |w.live|
    requires Stands(a, w.live[i], slots[i]) && w.live[i].owned == rs[i] <= w.made && w.live[i].keys.Values == ks[i]
    modifies w.live[i]
    ensures Bystanders(a, w, slots, i, i) && Own(w.live, rs, ks, i, i)
    ensures ok <==> !slots[i].finished
    ensures slots[i].cursor.align > 0
    ensures Stands(a, w.live[i], if ok then Slot(Finish(slots[i].cursor), true) else slots[i])
    ensures w.live[i].owned == rs[i] && w.live[i].keys.Values == ks[i]
  {
    hide Recorded, Keyed, Finish;
    ok := w.live[i].FinishStruct();
  }

  method PerformFinish(a: Arch, w: World, c: Call, ghost slots: seq<Slot>) returns (ok: bool, ghost slots': seq<Slot>)
    requires Good(a, w, slots) && Sound(slots) && c.Close? && c.at < |slots| == |w.live|
    modifies w.live[c.at]
    ensures Good(a, w, slots') && Step(a, slots, c) == Outcome(slots', ok)
  {
    hide *;
    GoodParts(a, w, slots, c.at, c.at);
    ghost var rs, ks := Records(w.live), Keys(w.live);
    ok := CallFinish(a, w, c.at, slots, rs, ks);
    StepFinish(a, slots, c);
    ghost var slot := if ok then Slot(Finish(slots[c.at].cursor), true) else slots[c.at];
    Stays(a, w, slots, c.at, slot, rs, ks);
    slots' := slots[c.at := slot];
  }

  method CallDelete(a: Arch, w: World, i: nat, ghost slots: seq<Slot>, ghost rs: seq<set<Member>>, ghost ks: seq<set<Name>>)
    returns (freedKeys: seq<Name>, freed: seq<Member>)
    requires Bystanders(a, w, slots, i, i) && Own(w.live, rs, ks, i, i) && i < |w.live|
    requires Stands(a, w.live[i], slots[i]) && w.live[i].owned == rs[i] && w.live[i].keys.Values == ks[i]
    modifies w.live[i]
    ensures Bystanders(a, w, slots, i, i) && Own(w.live, rs, ks, i, i)
    ensures w.live[i].owned == {} && w.live[i].keys == map[]
    ensures Released(rs[i], {}, freed) && Released(ks[i], {}, freedKeys)
  {
    hide Recorded, Keyed, Released;
    freedKeys, freed := w.live[i].Delete();
  }

  method PerformDelete(a: Arch, w: World, c: Call, ghost slots: seq<Slot>) returns (w': World, ghost slots': seq<Slot>)
    requires Good(a, w, slots) && Sound(slots) && c.Delete? && c.at < |slots| == |w.live|
    modifies w.live[c.at]
    ensures Good(a, w', slots') && Step(a, slots, c) == Outcome(slots', true)
    ensures w'.made == w.made && w'.madeKeys == w.madeKeys && forall k :: 0 <= k < |w'.live| ==> w'.live[k] in w.live
  {
    hide *;
    GoodParts(a, w, slots, c.at, c.at);
    ghost var rs, ks := Records(w.live), Keys(w.live);
    var freedKeys, freed := CallDelete(a, w, c.at, slots, rs, ks);
    Frees(a, w, slots, c.at, freed, freedKeys, rs, ks);
    WithoutAt(w.live, c.at);
    StepDelete(a, slots, c);
    w' := w.(live := Without(w.live, c.at), freed := w.freed + freed, freedKeys := w.freedKeys + freedKeys);
    slots' := Without(slots, c.at);
  }

  lemma StepDelete(a: Arch, slots: seq<Slot>, c: Call)
    requires Sound(slots) && c.Delete? && c.at < |slots|
    ensures Step(a, slots, c) == Outcome(Without(slots, c.at), true)
  {
  }

  method PerformCreate(a: Arch, w: World, ghost slots: seq<Slot>) returns (w': World, ghost slots': seq<Slot>)
    requires Good(a, w, slots) && Sound(slots)
    ensures Good(a, w', slots') && Step(a, slots, Create) == Outcome(slots', true)
    ensures w'.made == w.made && w'.madeKeys == w.madeKeys
    ensures forall k :: 0 <= k < |w'.live| ==> w'.live[k] in w.live || fresh(w'.live[k])
  {
    hide Good, Partition, Recorded, Keyed;
    var s := new Structure(a);
    Begins(a, w, slots, s);
    w', slots' := w.(live := w.live + [s]), slots + [Slot(START, false)];
  }

  /** The tests before an insert, on the heap and on the values. */
  lemma NestTests(a: Arch, w: World, slots: seq<Slot>, c: Call)
    requires Good(a, w, slots) && Sound(slots) && c.Nest?
    ensures |slots| == |w.live|
    ensures Pair(slots, c.at, c.child) <==>
              c.at < |w.live| && c.child < |w.live| && c.at != c.child && w.live[c.child].members != map[]
    ensures !Pair(slots, c.at, c.child) ==> Step(a, slots, c) == Outcome(slots, false)
    ensures Pair(slots, c.at, c.child) ==>
              var s, child := w.live[c.at], w.live[c.child];
              && child.owned <= w.made
              && (Step(a, slots, c).Clash? <==> !s.finished && child.finished && !(s.members.Keys !! child.members.Keys))
  {
    hide Partition, Inserted, RefusedInto, Recorded, Keyed, Step;
    if c.at < |w.live| && c.child < |w.live| {
      w.live[c.at].SameNames();
      w.live[c.child].SameNames();
      assert Stands(a, w.live[c.at], slots[c.at]) && Stands(a, w.live[c.child], slots[c.child]);
      assert w.live[c.child].members.Keys == slots[c.child].cursor.table.Keys;
      EmptyKeys(w.live[c.child].members, slots[c.child].cursor.table);
    }
    if Pair(slots, c.at, c.child) {
      StepNest(a, slots, c);
    } else {
      StepUnpaired(a, slots, c);
    }
  }

  lemma EmptyKeys<T, U>(m: map<string, T>, n: map<string, U>)
    requires m.Keys == n.Keys
    ensures m == map[] <==> n == map[]
  {
    if m == map[] {
      assert n.Keys == {};
    } else {
      var k :| k in m;
      assert k in n.Keys;
    }
  }

  lemma StepUnpaired(a: Arch, slots: seq<Slot>, c: Call)
    requires Sound(slots)
    ensures c.Nest? && !Pair(slots, c.at, c.child) ==> Step(a, slots, c) == Outcome(slots, false)
    ensures !c.Create? && !c.Nest? && c.at >= |slots| ==> Step(a, slots, c) == Outcome(slots, false)
    ensures !c.Nest? ==> Step(a, slots, c).Outcome?
  {
    hide Added, RefusedInto, Inserted;
  }

  /** `cinv_structure_insert_struct` or `cinv_structure_insert_union_struct`, where it is a call. */
  method TryNest(a: Arch, w: World, c: Call, ghost slots: seq<Slot>)
    returns (clash: bool, ok: bool, w': World, ghost slots': seq<Slot>)
    requires Good(a, w, slots) && Sound(slots) && c.Nest?
    modifies w.live, w.made
    ensures clash <==> Step(a, slots, c).Clash?
    ensures !clash ==> Step(a, slots, c) == Outcome(slots', ok)
    ensures clash ==> w' == w && slots' == slots
    ensures Good(a, w', slots') && w'.made == w.made && w'.madeKeys == w.madeKeys
    ensures forall k :: 0 <= k < |w'.live| ==> w'.live[k] in w.live
  {
    hide *;
    NestTests(a, w, slots, c);
    clash, ok, w', slots' := false, false, w, slots;
    if c.at < |w.live| && c.child < |w.live| && c.at != c.child && w.live[c.child].members != map[] {
      var s, child := w.live[c.at], w.live[c.child];
      if !s.finished && child.finished && !(s.members.Keys !! child.members.Keys) {
        clash := true;
      } else {
        ok, w', slots' := PerformNest(a, w, c, slots);
      }
    }
  }

  /** One call, unless it is an insert that meets a shared name: then `clash` says so and nothing is done. */
  method Perform(a: Arch, w: World, c: Call, ghost slots: seq<Slot>)
    returns (clash: bool, ok: bool, w': World, ghost slots': seq<Slot>)
    requires Good(a, w, slots) && Sound(slots)
    modifies w.live, w.made
    ensures clash <==> Step(a, slots, c).Clash?
    ensures !clash ==> Step(a, slots, c) == Outcome(slots', ok)
    ensures clash ==> w' == w && slots' == slots
    ensures Good(a, w', slots') && Sound(slots')
    ensures Grew(w, w', !clash && ok && Adds(c))
    ensures forall k :: 0 <= k < |w'.live| ==> w'.live[k] in w.live || fresh(w'.live[k])
  {
    hide Good, Partition, Step, Sound, Pair;
    SoundAfter(a, slots, c);
    StepUnpaired(a, slots, c);
    SameLength(a, w, slots);
    clash, ok, w', slots' := false, false, w, slots;
    if c.Create? {
      w', slots' := PerformCreate(a, w, slots);
      ok := true;
    } else if c.Nest? {
      clash, ok, w', slots' := TryNest(a, w, c, slots);
    } else if c.at < |w.live| {
      if c.Close? {
        ok, slots' := PerformFinish(a, w, c, slots);
      } else if c.Delete? {
        w', slots' := PerformDelete(a, w, c, slots);
        ok := true;
      } else {
        ok, w', slots' := PerformAdd(a, w, c, c.at, slots);
      }
    }
  }

  lemma SameLength(a: Arch, w: World, slots: seq<Slot>)
    requires Good(a, w, slots)
    ensures |slots| == |w.live|
  {
  }

  /** The number of addmember calls that succeeded. */
  function Additions(cs: seq<Call>, replies: seq<bool>): nat
    requires |replies| <= |cs|
  {
    if replies == [] then 0
    else
      var n := |replies| - 1;
      Additions(cs, replies[..n]) + (if replies[n] && Adds(cs[n]) then 1 else 0)
  }

  lemma AdditionsNext(cs: seq<Call>, replies: seq<bool>, ok: bool)
    requires |replies| < |cs|
    ensures Additions(cs, replies + [ok]) == Additions(cs, replies) + (if ok && Adds(cs[|replies|]) then 1 else 0)
  {
    hide Adds;
    assert (replies + [ok])[..|replies|] == replies;
  }

  lemma AfterNext(a: Arch, cs: seq<Call>, n: nat, slots: seq<Slot>, replies: seq<bool>)
    requires n < |cs| && After(a, cs[..n]) == Some(Story(slots, replies)) && Sound(slots)
    ensures After(a, cs[..n + 1]) == match Step(a, slots, cs[n]) {
                                       case Clash => None
                                       case Outcome(slots', ok) => Some(Story(slots', replies + [ok]))
                                     }
  {
    hide Step;
    assert cs[..n + 1][..n] == cs[..n];
  }

  lemma Nothing(a: Arch, w: World, cs: seq<Call>)
    requires w == World([], [], [], {}, {})
    ensures Good(a, w, []) && Sound([]) && Additions(cs, []) == 0 && After(a, cs[..0]) == Some(Story([], []))
  {
    assert Records(w.live) == [] && Keys(w.live) == [];
  }

  lemma NoneLeft(a: Arch, w: World, slots: seq<Slot>)
    requires Good(a, w, slots) && w.live == []
    ensures (forall m :: m in w.freed <==> m in w.made) && |w.freed| == |w.made|
    ensures (forall k :: k in w.freedKeys <==> k in w.madeKeys) && |w.freedKeys| == |w.madeKeys|
  {
    hide Partition;
    assert Records(w.live) == [] && Keys(w.live) == [];
    AllFreed(w.freed, w.made);
    AllFreed(w.freedKeys, w.madeKeys);
  }

  /** Every run of calls, up to an insert that meets a shared name: the structures answer and are as the
      values of `After`; each record and key string, one of each per member added, is owned by exactly
      one live structure or has been freed exactly once. */
  method Run(a: Arch, cs: seq<Call>) returns (done: nat, replies: seq<bool>, w: World, ghost slots: seq<Slot>)
    ensures done <= |cs| && After(a, cs[..done]) == Some(Story(slots, replies))
    ensures done < |cs| ==> After(a, cs[..done + 1]).None?
    ensures Good(a, w, slots) && Sound(slots)
    ensures |replies| == done && |w.made| == |w.madeKeys| == Additions(cs, replies)
    ensures w.live == [] ==> (forall m :: m in w.freed <==> m in w.made) && |w.freed| == |w.made|
    ensures w.live == [] ==> (forall k :: k in w.freedKeys <==> k in w.madeKeys) && |w.freedKeys| == |w.madeKeys|
  {
    hide Good, Sound, After, Step, Additions, Adds;
    done, replies, w, slots := 0, [], World([], [], [], {}, {}), [];
    Nothing(a, w, cs);
    while done < |cs|
      invariant 0 <= done == |replies| <= |cs|
      invariant After(a, cs[..done]) == Some(Story(slots, replies))
      invariant Good(a, w, slots) && Sound(slots)
      invariant |w.made| == |w.madeKeys| == Additions(cs, replies)
      invariant fresh(w.made) && fresh(w.madeKeys) && fresh(w.live)
    {
      AfterNext(a, cs, done, slots, replies);
      var clash, ok, w', slots' := Perform(a, w, cs[done], slots);
      if clash {
        break;
      }
      AdditionsNext(cs, replies, ok);
      replies := replies + [ok];
      w, slots, done := w', slots', done + 1;
    }
    if w.live == [] {
      NoneLeft(a, w, slots);
    }
  }
}
