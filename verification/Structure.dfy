/** `lib/structure.c` and the structure builder of the Tcl binding, on heap objects. */
module Structures {
  import opened Options
  import opened CTypes
  import opened Rounding
  import opened Definitions
  import opened Compile
  import CompileTheorem

  /** A copy of a member name (`strdup`), the key of a table entry. */
  class Name {
    const text: string

    constructor (text: string)
      ensures this.text == text
    {
      this.text := text;
    }
  }

  /** The key strings of a member table. */
  predicate Keyed(keys: map<string, Name>, members: map<string, Member>) {
    keys.Keys == members.Keys && forall k :: k in keys ==> keys[k].text == k
  }

  /** A `CInvStructMember` record; `insert_struct` updates it in place. */
  class Member {
    var ctype: CType
    var offset: nat
    var extent: nat

    constructor (ctype: CType, offset: nat, extent: nat)
      ensures View() == Info(ctype, offset, extent)
    {
      this.ctype, this.offset, this.extent := ctype, offset, extent;
    }

    /** What `insert_struct` does to a record: moves it, and grows its extent. */
    method Move(base: nat, grow: nat)
      modifies this
      ensures View() == Grown(old(View()), base, grow)
    {
      offset := offset + base;
      extent := extent + grow;
    }

    ghost function View(): Info
      reads this
    {
      Info(ctype, offset, extent)
    }
  }

  /** A `CInvStructure`: the member table with its records and key strings (one hash table in the
      source) and the cursors. */
  class Structure {
    const arch: Arch
    var members: map<string, Member>
    var keys: map<string, Name>
    var nextoffset: nat
    var lastoffset: nat
    var alignment: nat
    var finished: bool
    ghost var table: Table         // what the records say
    ghost var owned: set<Member>   // the records: `cinv_structure_delete` frees these

    ghost predicate Valid()
      reads this, owned
    {
      && IsAlign(alignment)
      && lastoffset <= nextoffset
      && Recorded(members, table, owned) && Keyed(keys, members)
    }

    ghost function View(): Cursor
      reads this
    {
      Cursor(table, nextoffset, lastoffset, alignment)
    }

    /** `cinv_structure_create`. */
    constructor (arch: Arch)
      ensures Valid() && !finished && this.arch == arch
      ensures View() == START && owned == {} && keys == map[]
    {
      this.arch := arch;
      members, keys := map[], map[];
      nextoffset, lastoffset, alignment, finished := 0, 0, 1, false;
      table, owned := map[], {};
    }

    /** `hashtable_insert` of a new name and a record not yet in the table. */
    method Insert(name: Name, member: Member)
      requires Valid() && name.text !in members && member !in owned
      modifies this`members, this`keys, this`table, this`owned
      ensures Valid() && members == old(members)[name.text := member] && keys == old(keys)[name.text := name]
      ensures owned == old(owned) + {member}
      ensures table == old(table)[name.text := member.View()]
    {
      hide Recorded, Keyed, IsAlign;
      AddRecorded(members, table, owned, name.text, member);
      AddKeyed(keys, members, name, member);
      members := members[name.text := member];
      keys := keys[name.text := name];
      table := table[name.text := member.View()];
      owned := owned + {member};
    }

    /** `hashtable_iterator_remove` of the entry of `name`. */
    method Drop(name: string)
      requires Valid() && name in members
      modifies this`members, this`keys, this`table, this`owned
      ensures Valid() && name in old(keys) && members == old(members) - {name} && keys == old(keys) - {name}
      ensures owned == old(owned) - {old(members)[name]}
    {
      hide Recorded, Keyed, IsAlign;
      RemoveRecord(members, table, owned, name);
      RemoveKey(keys, members, name);
      members, keys, table, owned := members - {name}, keys - {name}, table - {name}, owned - {members[name]};
    }

    lemma GiveRecords()
      requires Valid()
      ensures Recorded(members, table, owned)
    {
    }

    lemma GiveKeys()
      requires Valid()
      ensures Keyed(keys, members)
    {
    }

    lemma SameNames()
      requires Valid()
      ensures members.Keys == table.Keys == keys.Keys && IsAlign(alignment)
    {
    }

    /** Aligns `nextoffset`. */
    method PadNext(align: nat)
      requires Valid() && IsAlign(align)
      modifies this`nextoffset
      ensures Valid() && nextoffset == RoundUp(old(nextoffset), align) && nextoffset >= old(nextoffset)
    {
      RoundUpLeast(nextoffset, align);
      if nextoffset % align != 0 {
        nextoffset := nextoffset + (align - nextoffset % align);
      }
    }

    /** Exactly one record and one key string have come in, both just allocated. */
    twostate predicate Gained(name: string)
      reads this`members, this`keys, this`owned
    {
      && name !in old(members) && name !in old(keys) && name in members && name in keys
      && fresh(members[name]) && members == old(members)[name := members[name]]
      && owned == old(owned) + {members[name]}
      && fresh(keys[name]) && keys == old(keys)[name := keys[name]]
    }

    twostate predicate Unchanged()
      reads this
    {
      && members == old(members) && keys == old(keys) && table == old(table) && owned == old(owned)
      && nextoffset == old(nextoffset) && lastoffset == old(lastoffset) && alignment == old(alignment)
    }

    /** A copy of the name and a new record, put into the table. */
    method NewRecord(name: string, ctype: CType, offset: nat, extent: nat) returns (member: Member)
      requires Valid() && name !in members
      modifies this`members, this`keys, this`table, this`owned
      ensures Valid() && Gained(name) && members[name] == member
      ensures member.View() == Info(ctype, offset, extent) && table == old(table)[name := member.View()]
    {
      hide Recorded, Keyed, IsAlign;
      SameNames();
      var namecopy := new Name(name);
      member := new Member(ctype, offset, extent);
      Insert(namecopy, member);
    }

    /** The common tail of the value and array functions. */
    method AddRecord(name: string, ctype: CType, sz: nat, align: nat)
      requires Valid() && name !in members && IsAlign(align)
      modifies this
      ensures Valid() && finished == old(finished)
      ensures Gained(name)
      ensures var at := RoundUp(old(nextoffset), align);
              View() == Cursor(old(table)[name := Info(ctype, at, sz)], at + sz, at + sz,
                               Max(align, old(alignment)))
    {
      hide RoundUp, Recorded, Keyed, IsAlign;
      lastoffset := nextoffset;
      PadNext(align);
      var member := NewRecord(name, ctype, nextoffset, sz);
      Coarsen(align);
      nextoffset := nextoffset + sz;
      lastoffset := nextoffset;
    }

    /** `cinv_structure_addmember_value`. */
    method AddMemberValue(name: string, ctype: CType) returns (ok: bool)
      requires Valid()
      modifies this
      ensures Valid() && finished == old(finished)
      ensures ok <==> !finished && AddMember(arch, old(View()), Field(name, ctype, 0)).Some?
      ensures ok ==> View() == AddMember(arch, old(View()), Field(name, ctype, 0)).value
      ensures if ok then Gained(name) else Unchanged()
    {
      hide RoundUp, Recorded, MemSize, AlignSize;
      SameNames();
      if finished || name in members {
        return false;
      }
      AddRecord(name, ctype, MemSize(arch, ctype), AlignSize(arch, ctype));
      ok := true;
    }

    /** `cinv_structure_addmember_array`. */
    method AddMemberArray(name: string, ctype: CType, arraySize: nat) returns (ok: bool)
      requires Valid() && arraySize > 0
      modifies this
      ensures Valid() && finished == old(finished)
      ensures ok <==> !finished && AddMember(arch, old(View()), Field(name, ctype, arraySize)).Some?
      ensures ok ==> View() == AddMember(arch, old(View()), Field(name, ctype, arraySize)).value
      ensures if ok then Gained(name) else Unchanged()
    {
      hide RoundUp, Recorded, MemSize, AlignSize;
      SameNames();
      if finished || name in members {
        return false;
      }
      AddRecord(name, ctype, arraySize * MemSize(arch, ctype), AlignSize(arch, ctype));
      ok := true;
    }

    /** Aligns both cursors. */
    method PadBoth(align: nat)
      requires Valid() && IsAlign(align)
      modifies this`nextoffset, this`lastoffset
      ensures Valid() && nextoffset == RoundUp(old(nextoffset), align) && lastoffset == RoundUp(old(lastoffset), align)
    {
      RoundUpMono(lastoffset, nextoffset, align);
      if nextoffset % align != 0 {
        nextoffset := nextoffset + (align - nextoffset % align);
      }
      if lastoffset % align != 0 {
        lastoffset := lastoffset + (align - lastoffset % align);
      }
    }

    /** `cinv_structure_addmember_union`. */
    method AddMemberUnion(name: string, ctype: CType) returns (ok: bool)
      requires Valid()
      modifies this
      ensures Valid() && finished == old(finished)
      ensures ok <==> !finished && AddUnionMember(arch, old(View()), Field(name, ctype, 0)).Some?
      ensures ok ==> View() == AddUnionMember(arch, old(View()), Field(name, ctype, 0)).value
      ensures if ok then Gained(name) else Unchanged()
    {
      hide RoundUp, Recorded, MemSize, AlignSize;
      SameNames();
      if finished || name in members {
        return false;
      }
      AddUnionRecord(name, ctype, MemSize(arch, ctype), AlignSize(arch, ctype));
      ok := true;
    }

    /** The tail of `cinv_structure_addmember_union`. */
    method AddUnionRecord(name: string, ctype: CType, sz: nat, align: nat)
      requires Valid() && name !in members && IsAlign(align)
      modifies this
      ensures Valid() && finished == old(finished)
      ensures Gained(name)
      ensures var next, last := RoundUp(old(nextoffset), align), RoundUp(old(lastoffset), align);
              var next' := if sz > next - last then last + sz else next;
              last <= next
              && View() == Cursor(old(table)[name := Info(ctype, last, next' - last)], next', last,
                                  Max(align, old(alignment)))
    {
      hide RoundUp, Recorded, Keyed, IsAlign;
      PadBoth(align);
      var member := NewRecord(name, ctype, lastoffset, 0);
      Coarsen(align);
      if sz > nextoffset - lastoffset {
        nextoffset := lastoffset + sz;
      }
      SetExtent(name, member, nextoffset - lastoffset, old(table));
    }

    /** The alignment is the largest one so far. */
    method Coarsen(align: nat)
      requires Valid() && IsAlign(align)
      modifies this`alignment
      ensures Valid() && alignment == Max(align, old(alignment))
    {
      if align > alignment {
        alignment := align;
      }
    }

    method SetExtent(name: string, member: Member, extent: nat, ghost before: Table)
      requires Valid() && name in members && members[name] == member
      requires table == before[name := member.View()]
      modifies this`table, member`extent
      ensures Valid() && table == before[name := Info(member.ctype, member.offset, extent)]
    {
      hide Keyed, IsAlign;
      member.extent := extent;
      table := table[name := member.View()];
    }

    /** The state of the loop in `TakeMembers`: `done` is taken over, `rest` is still to take. */
    ghost predicate Taking(p: Progress, todo: map<string, Member>)
      reads this, owned, p.left
    {
      && Valid() && Recorded(todo, p.rest, p.left) && owned !! p.left
      && owned + p.left == p.all && p.owned0 <= owned
      && p.done.Keys !! p.rest.Keys && p.done + p.rest == p.whole
      && table == p.table0 + Shifted(p.done, p.base, p.grow) && p.table0.Keys !! p.done.Keys
    }

    /** What the two structures list at that point. */
    ghost predicate Lists(p: Progress, l: Listing, todo: map<string, Member>)
      reads this
    {
      && Keyed(l.childKeys, l.childMembers)
      && Listed(l.keys, l.childKeys, keys, p.done.Keys) && Listed(l.members, l.childMembers, members, p.done.Keys)
      && forall k :: k in todo ==> k in l.childMembers && todo[k] == l.childMembers[k]
    }

    /** One turn of the loop of the two insert functions: takes one record and its key string over,
        in place. */
    method TakeNext(name: Name, todo: map<string, Member>, base: nat, grow: nat, ghost p: Progress, ghost l: Listing)
      requires Taking(p, todo) && Lists(p, l, todo) && p.base == base && p.grow == grow
      requires name.text in todo && name.text !in members
      requires name.text in l.childKeys && name == l.childKeys[name.text]
      modifies this`members, this`keys, this`table, this`owned, todo[name.text]
      ensures name.text in p.rest && todo[name.text] in p.left
      ensures var p', todo' := p.Next(name.text, todo[name.text]), todo - {name.text};
              Taking(p', todo') && Lists(p', l, todo')
    {
      hide *;
      var member := todo[name.text];
      TakingOne(p, todo, name.text);
      ListsOne(p, l, todo, name.text);
      member.Move(base, grow);
      Insert(name, member);
      TakenOne(p, p.Next(name.text, member), todo - {name.text});
      ListsNext(p, l, todo, name.text);
    }

    lemma TakingOne(p: Progress, todo: map<string, Member>, name: string)
      requires Taking(p, todo) && name in todo && name !in members
      ensures Valid() && name in p.rest && todo[name] in p.left && todo[name] !in owned
      ensures todo[name].View() == p.rest[name]
      ensures var p' := p.Next(name, todo[name]);
              && Recorded(todo - {name}, p'.rest, p'.left) && todo[name] !in p'.left
              && owned + {todo[name]} !! p'.left && owned + {todo[name]} + p'.left == p'.all
              && p'.owned0 <= owned + {todo[name]}
              && p'.done.Keys !! p'.rest.Keys && p'.done + p'.rest == p'.whole
              && table[name := Grown(p.rest[name], p.base, p.grow)] == p'.table0 + Shifted(p'.done, p'.base, p'.grow)
              && p'.table0.Keys !! p'.done.Keys
    {
      RemoveRecord(todo, p.rest, p.left, name);
      MoveOver(p.done, p.rest, name);
      ShiftedAdd(p.table0, p.done, name, p.rest[name], p.base, p.grow);
      MoveOwned(owned, p.left, todo[name]);
    }

    lemma TakenOne(p: Progress, p': Progress, todo: map<string, Member>)
      requires Valid() && Recorded(todo, p'.rest, p'.left) && owned !! p'.left && owned + p'.left == p'.all
      requires p'.owned0 <= owned
      requires p'.done.Keys !! p'.rest.Keys && p'.done + p'.rest == p'.whole
      requires table == p'.table0 + Shifted(p'.done, p'.base, p'.grow) && p'.table0.Keys !! p'.done.Keys
      ensures Taking(p', todo)
    {
    }

    lemma ListsOne(p: Progress, l: Listing, todo: map<string, Member>, name: string)
      requires Lists(p, l, todo) && name in todo && name in l.childKeys && name !in members && Valid()
      ensures Keyed(l.childKeys, l.childMembers)
      ensures forall k :: k in todo ==> k in l.childMembers && todo[k] == l.childMembers[k]
      ensures Listed(l.keys, l.childKeys, keys[name := l.childKeys[name]], p.done.Keys + {name})
      ensures Listed(l.members, l.childMembers, members[name := todo[name]], p.done.Keys + {name})
    {
      hide Listed, Recorded, IsAlign;
      OneListed(l.keys, l.childKeys, keys, p.done.Keys, name);
      OneListed(l.members, l.childMembers, members, p.done.Keys, name);
    }

    lemma ListsNext(p: Progress, l: Listing, todo: map<string, Member>, name: string)
      requires Keyed(l.childKeys, l.childMembers) && name in p.rest && name in todo
      requires Listed(l.keys, l.childKeys, keys, p.done.Keys + {name})
      requires Listed(l.members, l.childMembers, members, p.done.Keys + {name})
      requires forall k :: k in todo ==> k in l.childMembers && todo[k] == l.childMembers[k]
      ensures Lists(p.Next(name, todo[name]), l, todo - {name})
    {
      hide Listed, Keyed;
      assert p.Next(name, todo[name]).done.Keys == p.done.Keys + {name};
    }

    /** The loop of the two insert functions, from any point of it on. */
    method TakeRest(start: map<string, Member>, childKeys: map<string, Name>, base: nat, grow: nat,
                    ghost p0: Progress, ghost l: Listing)
      returns (ok: bool, ghost p: Progress, todo: map<string, Member>)
      requires Taking(p0, start) && Lists(p0, l, start)
      requires p0.base == base && p0.grow == grow && childKeys == l.childKeys
      modifies this`members, this`keys, this`table, this`owned, p0.left
      ensures Taking(p, todo) && Lists(p, l, todo) && p.Since(p0)
      ensures ok ==> todo == map[]
      ensures !ok ==> exists k :: k in p.whole && k in p.table0
    {
      hide *;
      p, todo := p0, start;
      SinceStart(p);
      while todo != map[]
        invariant Taking(p, todo) && Lists(p, l, todo) && p.Since(p0)
        decreases |todo|
      {
        var name :| name in todo;
        TakingNames(p, l, todo);
        FewerNames(todo, name);
        if name in members {
          return false, p, todo;
        }
        SinceNext(p, p0, name, todo[name]);
        ghost var p' := p.Next(name, todo[name]);
        TakeNext(childKeys[name], todo, base, grow, p, l);
        p, todo := p', todo - {name};
      }
      ok := true;
    }

    /** The loop of the two insert functions: takes over every record and key string of `child`, in
        the order the iterator gives, adding `base` to its offset and `grow` to its extent.  It stops
        at a shared name; what it has `taken` by then is listed by both structures. */
    method TakeMembers(child: Structure, base: nat, grow: nat) returns (ok: bool, ghost taken: Table)
      requires Valid() && child.Valid() && child != this
      requires child.members != map[] && owned !! child.owned
      modifies this`members, this`keys, this`table, this`owned, child.owned
      ensures Valid() && old(owned) <= owned <= old(owned + child.owned)
      ensures ok <==> old(table).Keys !! old(child.table).Keys
      ensures ok ==> owned == old(owned + child.owned) && keys == old(keys + child.keys)
      ensures ok ==> table == old(table) + Shifted(old(child.table), base, grow)
      ensures Half(Listing(old(members), old(keys), old(child.members), old(child.keys)), old(table),
                   old(child.table), taken, base, grow)
    {
      hide *;
      ghost var p := Progress(owned + child.owned, owned, table, child.table, base, grow, map[], child.table, child.owned);
      ghost var l := Listing(members, keys, child.members, child.keys);
      StartTaking(child, p, l);
      ghost var q;
      var todo;
      ok, q, todo := TakeRest(child.members, child.keys, base, grow, p, l);
      SinceParts(q, p);
      if ok {
        AllTaken(q, l, todo);
      }
      TakenHalf(q, l, todo);
      taken := q.done;
    }

    /** What `TakeMembers` leaves, also when it stops half way: what was taken, moved to `base`, is
        listed here as well. */
    ghost predicate Half(l: Listing, table0: Table, childTable: Table, taken: Table, base: nat, grow: nat)
      reads this
    {
      && (forall k :: k in taken ==> k in childTable && taken[k] == childTable[k] && k !in table0)
      && table == table0 + Shifted(taken, base, grow)
      && Listed(l.keys, l.childKeys, keys, taken.Keys) && Listed(l.members, l.childMembers, members, taken.Keys)
    }

    lemma TakenHalf(p: Progress, l: Listing, todo: map<string, Member>)
      requires Taking(p, todo) && Lists(p, l, todo)
      ensures Half(l, p.table0, p.whole, p.done, p.base, p.grow) && Valid()
      ensures p.owned0 <= owned <= p.all
    {
      hide Recorded, Shifted, Listed, Keyed;
      assert forall k :: k in p.done ==> (p.done + p.rest)[k] == p.done[k];
    }

    /** What a refused insert leaves of the child and of the ownership here: nothing has moved. */
    twostate predicate Refused(child: Structure)
      requires old(child.Valid())
      reads this, child, child.owned
    {
      && members == old(members) && keys == old(keys) && owned == old(owned) && table == old(table)
      && child.members == old(child.members) && child.keys == old(child.keys) && child.owned == old(child.owned)
      && child.finished == old(child.finished) && child.Valid() && child.View() == old(child.View())
    }

    /** What an insert leaves that stops at a shared name: the child itself is untouched, so the records
        and key strings `taken` by then, moved to `base`, are listed by both structures. */
    twostate predicate HalfMoved(child: Structure, taken: Table, base: nat, grow: nat)
      reads this, child
    {
      && child.members == old(child.members) && child.keys == old(child.keys) && child.owned == old(child.owned)
      && child.nextoffset == old(child.nextoffset) && child.lastoffset == old(child.lastoffset)
      && child.alignment == old(child.alignment) && child.finished == old(child.finished)
      && Half(Listing(old(members), old(keys), old(child.members), old(child.keys)), old(table),
              old(child.table), taken, base, grow)
    }

    /** `cinv_structure_insert_struct`: on success the child's records and key strings are owned here,
        each still by one structure only, and the child is freed with nothing left in it. */
    method InsertStruct(child: Structure) returns (ok: bool, ghost taken: Table)
      requires Valid() && child.Valid() && child != this
      requires child.members != map[] && owned !! child.owned
      modifies this, child, child.owned
      ensures Valid() && finished == old(finished) && old(owned) <= owned <= old(owned + child.owned)
      ensures ok <==> !old(finished) && old(child.finished) && Compile.InsertStruct(old(View()), old(child.View())).Some?
      ensures ok ==> View() == Compile.InsertStruct(old(View()), old(child.View())).value
      ensures ok ==> owned == old(owned + child.owned) && keys == old(keys + child.keys)
      ensures ok ==> child.owned == {} && child.members == map[] && child.keys == map[]
      ensures old(finished) || !old(child.finished) ==> Refused(child) && View() == old(View())
      ensures !ok && !old(finished) && old(child.finished) ==>
                HalfMoved(child, taken, RoundUp(old(nextoffset), old(child.alignment)), 0)
                && nextoffset == RoundUp(old(nextoffset), old(child.alignment)) && lastoffset == old(nextoffset)
                && alignment == old(alignment)
    {
      hide RoundUp, Recorded, Listed, Keyed, Shifted;
      taken := map[];
      if finished || !child.finished {
        return false, map[];
      }
      var align := child.alignment;
      lastoffset := nextoffset;
      PadNext(align);
      ok, taken := TakeMembers(child, nextoffset, 0);
      if !ok {
        return;
      }
      Coarsen(align);
      nextoffset := nextoffset + child.nextoffset;
      lastoffset := nextoffset;
      child.Clear();
    }

    /** `cinv_structure_insert_union_struct`, after the alignment its two callers do first. */
    method InsertUnionStruct(child: Structure) returns (ok: bool, ghost taken: Table)
      requires Valid() && child.Valid() && child != this
      requires child.members != map[] && owned !! child.owned
      modifies this, child, child.owned
      ensures Valid() && finished == old(finished) && old(owned) <= owned <= old(owned + child.owned)
      ensures ok <==> !old(finished) && old(child.finished) && Compile.InsertUnion(old(View()), old(child.View())).Some?
      ensures ok ==> View() == Compile.InsertUnion(old(View()), old(child.View())).value
      ensures ok ==> owned == old(owned + child.owned) && keys == old(keys + child.keys)
      ensures ok ==> child.owned == {} && child.members == map[] && child.keys == map[]
      ensures old(finished) || !old(child.finished) ==>
                Refused(child) && View() == Realigned(old(View()), old(child.View()))
      ensures !ok && !old(finished) && old(child.finished) ==>
                var base := RoundUp(old(lastoffset), old(child.alignment));
                HalfMoved(child, taken, base, base)
                && nextoffset == lastoffset == base && alignment == Max(old(child.alignment), old(alignment))
    {
      hide RoundUp, Recorded, Listed, Keyed, Shifted;
      taken := map[];
      // in CreateStruct and CreateUnion
      var align := child.alignment;
      SetLast(align);
      Coarsen(align);
      // in cinv_structure_insert_union_struct
      if finished || !child.finished {
        return false, map[];
      }
      var sz := child.nextoffset;
      nextoffset := lastoffset;
      ok, taken := TakeMembers(child, nextoffset, nextoffset);
      if !ok {
        return;
      }
      if sz > nextoffset - lastoffset {
        nextoffset := lastoffset + sz;
      }
      child.Clear();
    }

    /** Aligns `lastoffset` and goes back to it. */
    method SetLast(align: nat)
      requires Valid() && IsAlign(align)
      modifies this`nextoffset, this`lastoffset
      ensures Valid() && nextoffset == lastoffset == RoundUp(old(lastoffset), align)
    {
      if lastoffset % align != 0 {
        lastoffset := lastoffset + (align - lastoffset % align);
      }
      nextoffset := lastoffset;
    }

    /** `hashtable_destroy` with keys and values kept, and `free` of the structure. */
    method Clear()
      modifies this`members, this`keys, this`table, this`owned
      ensures owned == {} && members == map[] && keys == map[] && table == map[]
    {
      members, keys, table, owned := map[], map[], map[], {};
    }

    /** `cinv_structure_finish`. */
    method FinishStruct() returns (ok: bool)
      requires Valid()
      modifies this`nextoffset, this`lastoffset, this`finished
      ensures Valid() && finished
      ensures ok <==> !old(finished)
      ensures View() == if ok then Finish(old(View())) else old(View())
    {
      hide Recorded;
      if finished {
        return false;
      }
      PadNext(alignment);
      finished := true;
      lastoffset := nextoffset;
      ok := true;
    }

    /** The drain loop of `cinv_structure_delete`: the key strings and records passed to `free`. */
    method Delete() returns (freedKeys: seq<Name>, freed: seq<Member>)
      requires Valid()
      modifies this`members, this`keys, this`table, this`owned
      ensures owned == {} && members == map[] && keys == map[]
      ensures Released(old(owned), owned, freed) && Released(old(keys.Values), {}, freedKeys)
    {
      hide *;
      freedKeys, freed := [], [];
      NoneReleased(owned);
      NoneReleased(keys.Values);
      while members != map[]
        invariant Valid()
        invariant Released(old(owned), owned, freed) && Released(old(keys.Values), keys.Values, freedKeys)
        decreases |members|
      {
        var name :| name in members;
        GiveRecords();
        GiveKeys();
        Drawn(owned, members, table, keys, name);
        ReleaseOne(old(owned), owned, freed, members[name]);
        ReleaseOne(old(keys.Values), keys.Values, freedKeys, keys[name]);
        FewerNames(members, name);
        freedKeys, freed := freedKeys + [keys[name]], freed + [members[name]];
        Drop(name);
      }
      GiveRecords();
      GiveKeys();
      NoRecords(members, table, owned);
      NoKeys(keys, members);
    }

    lemma StartTaking(child: Structure, p: Progress, l: Listing)
      requires Valid() && child.Valid() && owned !! child.owned
      requires p == Progress(owned + child.owned, owned, table, child.table, p.base, p.grow, map[], child.table,
                             child.owned)
      requires l == Listing(members, keys, child.members, child.keys)
      ensures Taking(p, child.members) && Lists(p, l, child.members) && child.keys.Keys == p.whole.Keys
    {
      ShiftedNone(table, p.base, p.grow);
    }

    lemma TakingNames(p: Progress, l: Listing, todo: map<string, Member>)
      requires Taking(p, todo) && Lists(p, l, todo)
      ensures Valid() && owned <= p.all
      ensures forall k :: k in todo ==> todo[k] in p.left && (k in members <==> k in p.table0) && k in p.whole
      ensures forall k :: k in todo ==> k in p.rest
      ensures forall k :: k in todo ==> k in l.childKeys && l.childKeys[k].text == k
    {
      hide Listed;
      forall k | k in todo ensures k in p.whole && k !in p.done {
        assert k in p.rest && k in p.done + p.rest;
      }
    }

    lemma AllTaken(p: Progress, l: Listing, todo: map<string, Member>)
      requires Taking(p, todo) && Lists(p, l, todo) && todo == map[] && l.childKeys.Keys == p.whole.Keys
      ensures Valid() && owned == p.all && table == p.table0 + Shifted(p.whole, p.base, p.grow)
      ensures p.table0.Keys !! p.whole.Keys && keys == l.keys + l.childKeys
    {
      hide Shifted, Listed, Keyed;
      NoRecords(todo, p.rest, p.left);
      assert p.done == p.whole;
      AllListed(l.keys, l.childKeys, keys, p.done.Keys);
    }
  }

  /** `all` is `own` with the entries of `child` for `names` added; nothing else. */
  ghost predicate Listed<T>(own: map<string, T>, child: map<string, T>, all: map<string, T>, names: set<string>) {
    && names <= child.Keys && all.Keys == own.Keys + names
    && forall k :: k in all ==> all[k] == if k in names then child[k] else own[k]
  }

  lemma OneListed<T>(own: map<string, T>, child: map<string, T>, all: map<string, T>, names: set<string>, name: string)
    requires Listed(own, child, all, names) && name in child && name !in all
    ensures Listed(own, child, all[name := child[name]], names + {name})
  {
  }

  lemma AllListed<T>(own: map<string, T>, child: map<string, T>, all: map<string, T>, names: set<string>)
    requires Listed(own, child, all, names) && names == child.Keys
    ensures all == own + child
  {
  }

  /** Bookkeeping of `TakeMembers`. */
  datatype Progress = Progress(all: set<Member>, owned0: set<Member>, table0: Table, whole: Table, base: nat, grow: nat,
                               done: Table, rest: Table, left: set<Member>)
  {
    ghost function Next(name: string, member: Member): Progress
      requires name in rest
    {
      this.(done := done[name := rest[name]], rest := rest - {name}, left := left - {member})
    }

    /** `this` is a later point of the loop than `p`. */
    ghost predicate Since(p: Progress) {
      this == p.(done := done, rest := rest, left := left) && left <= p.left
    }
  }

  lemma SinceStart(p: Progress)
    ensures p.Since(p)
  {
  }

  lemma SinceNext(p: Progress, p0: Progress, name: string, member: Member)
    requires p.Since(p0)
    ensures p.left <= p0.left && p.base == p0.base && p.grow == p0.grow
    ensures name in p.rest ==> p.Next(name, member).Since(p0)
  {
  }

  lemma SinceParts(p: Progress, p0: Progress)
    requires p.Since(p0)
    ensures p == Progress(p0.all, p0.owned0, p0.table0, p0.whole, p0.base, p0.grow, p.done, p.rest, p.left)
  {
  }

  /** What the two structures listed before `TakeMembers`. */
  datatype Listing = Listing(members: map<string, Member>, keys: map<string, Name>,
                             childMembers: map<string, Member>, childKeys: map<string, Name>)

  /** The records hold what the table says, and no record is listed twice. */
  ghost predicate Recorded(members: map<string, Member>, table: Table, owned: set<Member>)
    reads owned
  {
    && members.Keys == table.Keys
    && (forall k :: k in members ==> members[k] in owned && members[k].View() == table[k])
    && (forall j, k :: j in members && k in members && j != k ==> members[j] != members[k])
    && (forall m :: m in owned ==> exists k :: k in members && members[k] == m)
  }

  /** `freed` lists, each once, exactly the records of `all` that are not `left`. */
  ghost predicate Released<T>(all: set<T>, left: set<T>, freed: seq<T>) {
    && left <= all
    && (forall m :: m in all ==> (m in freed <==> m !in left))
    && (forall i :: 0 <= i < |freed| ==> freed[i] in all)
    && (forall i, j :: 0 <= i < j < |freed| ==> freed[i] != freed[j])
  }

  lemma NoneReleased<T>(all: set<T>)
    ensures Released(all, all, [])
  {
  }

  lemma ReleaseOne<T>(all: set<T>, left: set<T>, freed: seq<T>, x: T)
    requires Released(all, left, freed) && x in left
    ensures Released(all, left - {x}, freed + [x])
  {
  }

  /** Removing one entry takes exactly its record and its key string out of the table. */
  lemma Drawn(owned: set<Member>, members: map<string, Member>, table: Table, keys: map<string, Name>, name: string)
    requires Recorded(members, table, owned) && Keyed(keys, members) && name in members
    ensures name in keys && members[name] in owned && keys[name] in keys.Values
    ensures (keys - {name}).Values == keys.Values - {keys[name]}
  {
    hide Recorded;
    RemoveRecord(members, table, owned, name);
    forall k ensures k in (keys - {name}).Values <==> k in keys.Values && k != keys[name] {
      if k in keys.Values && k != keys[name] {
        var n :| n in keys && keys[n] == k;
        assert n in keys - {name} && (keys - {name})[n] == k;
      }
      if k in (keys - {name}).Values {
        var n :| n in keys - {name} && (keys - {name})[n] == k;
        assert keys[n] == k && k.text == n;
      }
    }
  }

  lemma AddKeyed(keys: map<string, Name>, members: map<string, Member>, name: Name, member: Member)
    requires Keyed(keys, members)
    ensures Keyed(keys[name.text := name], members[name.text := member])
  {
  }

  lemma RemoveKey(keys: map<string, Name>, members: map<string, Member>, name: string)
    requires Keyed(keys, members) && name in members
    ensures name in keys && Keyed(keys - {name}, members - {name})
  {
  }

  lemma NoKeys(keys: map<string, Name>, members: map<string, Member>)
    requires Keyed(keys, members) && members == map[]
    ensures keys == map[] && keys.Values == {}
  {
  }

  lemma FewerNames(members: map<string, Member>, name: string)
    requires name in members
    ensures |members - {name}| < |members|
  {
    assert members == (members - {name})[name := members[name]];
  }

  lemma NoRecords(members: map<string, Member>, table: Table, owned: set<Member>)
    requires Recorded(members, table, owned) && members == map[]
    ensures table == map[] && owned == {}
  {
  }

  lemma RemoveRecord(members: map<string, Member>, table: Table, owned: set<Member>, name: string)
    requires Recorded(members, table, owned) && name in members
    ensures Recorded(members - {name}, table - {name}, owned - {members[name]})
    ensures name in table && members[name] in owned && members[name].View() == table[name]
  {
    forall m | m in owned && m != members[name]
      ensures exists k :: k in members - {name} && (members - {name})[k] == m
    {
      var k :| k in members && members[k] == m;
      assert k in members - {name} && (members - {name})[k] == m;
    }
  }

  lemma AddRecorded(members: map<string, Member>, table: Table, owned: set<Member>, name: string, member: Member)
    requires Recorded(members, table, owned) && name !in members && member !in owned
    ensures Recorded(members[name := member], table[name := member.View()], owned + {member})
  {
    var members' := members[name := member];
    forall m | m in owned + {member} ensures exists k :: k in members' && members'[k] == m {
      if m == member {
        assert members'[name] == m;
      } else {
        var k :| k in members && members[k] == m;
        assert members'[k] == m;
      }
    }
  }

  lemma MoveOwned(own: set<Member>, left: set<Member>, m: Member)
    requires own !! left && m in left
    ensures own + {m} !! left - {m} && (own + {m}) + (left - {m}) == own + left && m !in own
  {
  }

  lemma MoveOver(done: Table, rest: Table, name: string)
    requires name in rest && done.Keys !! rest.Keys
    ensures done[name := rest[name]] + (rest - {name}) == done + rest
    ensures done[name := rest[name]].Keys !! (rest - {name}).Keys
  {
  }

  function Grown(m: Info, base: nat, grow: nat): Info {
    Info(m.ctype, m.offset + base, m.extent + grow)
  }

  lemma ShiftedNone(t: Table, base: nat, grow: nat)
    ensures t + Shifted(map[], base, grow) == t
  {
  }

  lemma ShiftedAdd(t: Table, done: Table, k: string, m: Info, base: nat, grow: nat)
    ensures k !in t ==>
              t + Shifted(done[k := m], base, grow) == (t + Shifted(done, base, grow))[k := Grown(m, base, grow)]
  {
  }

  // ----- the Tcl binding's builder

  /** A failing list stays failing: what follows the first bad element does not matter. */
  lemma {:induction false} LoopFails(a: Arch, ds: seq<Def>, n: nat)
    requires n <= |ds|
    ensures StructLoop(a, ds[..n]).None? ==> StructLoop(a, ds).None?
    ensures UnionLoop(a, ds[..n]).None? ==> UnionLoop(a, ds).None?
    decreases |ds| - n
  {
    if n < |ds| {
      LoopNext(a, ds, n);
      LoopFails(a, ds, n + 1);
    } else {
      assert ds[..n] == ds;
    }
  }

  lemma LoopNext(a: Arch, ds: seq<Def>, n: nat)
    requires n < |ds|
    ensures var c := StructLoop(a, ds[..n]);
            StructLoop(a, ds[..n + 1]) == if c.None? then None else StructStep(a, c.value, ds[n])
    ensures var u := UnionLoop(a, ds[..n]);
            UnionLoop(a, ds[..n + 1]) == if u.None? then None else UnionStep(a, u.value, ds[n])
  {
    assert ds[..n + 1][..n] == ds[..n];
  }

  /** `CreateStruct`. */
  method CreateStruct(arch: Arch, deflist: seq<Def>) returns (ok: bool, tstruct: Structure)
    ensures ok <==> CompileStruct(arch, deflist).Some?
    ensures ok ==> tstruct.Valid() && tstruct.finished && tstruct.arch == arch && fresh(tstruct) && fresh(tstruct.owned)
    ensures ok ==> tstruct.View() == CompileStruct(arch, deflist).value && tstruct.members != map[]
    decreases deflist, 2
  {
    hide RoundUp, Recorded, Keyed, Listed, IsAlign;
    tstruct := new Structure(arch);
    if deflist == [] {
      return false, tstruct;
    }
    var i := 0;
    assert deflist[..0] == [];
    while i < |deflist|
      invariant 0 <= i <= |deflist|
      invariant tstruct.Valid() && !tstruct.finished && tstruct.arch == arch && fresh(tstruct) && fresh(tstruct.owned)
      invariant StructLoop(arch, deflist[..i]) == Some(tstruct.View())
    {
      LoopNext(arch, deflist, i);
      LoopFails(arch, deflist, i + 1);
      ok := AddElement(tstruct, deflist[i]);
      if !ok {
        return;
      }
      i := i + 1;
    }
    assert deflist[..i] == deflist;
    ok := tstruct.FinishStruct();
    CompileTheorem.CompiledNotEmpty(arch, deflist);
    tstruct.SameNames();
  }

  /** One turn of the loop in `CreateStruct`. */
  method AddElement(tstruct: Structure, d: Def) returns (ok: bool)
    requires tstruct.Valid() && !tstruct.finished
    modifies tstruct
    ensures tstruct.Valid() && !tstruct.finished
    ensures tstruct.owned >= old(tstruct.owned) && fresh(tstruct.owned - old(tstruct.owned))
    ensures ok <==> StructStep(tstruct.arch, old(tstruct.View()), d).Some?
    ensures ok ==> tstruct.View() == StructStep(tstruct.arch, old(tstruct.View()), d).value
    decreases d, 0
  {
    hide RoundUp, Recorded, Keyed, Listed, IsAlign;
    match d {
      case Leaf(t, e) =>
        var f := FieldOf(t, e);
        if f.count > 0 {
          ok := tstruct.AddMemberArray(f.name, f.ctype, f.count);
        } else {
          ok := tstruct.AddMemberValue(f.name, f.ctype);
        }
      case Sub(items) =>
        var substruct: Structure;
        ok, substruct := CreateStruct(tstruct.arch, items);
        if ok {
          ghost var taken;
          ok, taken := tstruct.InsertStruct(substruct);
        }
      case Uni(items) =>
        var substruct := new Structure(tstruct.arch);
        ok := CreateUnion(substruct, items);
        if ok {
          var finished := substruct.FinishStruct();
          ghost var taken;
          ok, taken := tstruct.InsertUnionStruct(substruct);
        }
    }
  }

  /** `CreateUnion`, on a structure its caller has just created. */
  method CreateUnion(outstruct: Structure, deflist: seq<Def>) returns (ok: bool)
    requires outstruct.Valid() && !outstruct.finished && outstruct.View() == START
    modifies outstruct
    ensures outstruct.Valid() && !outstruct.finished
    ensures outstruct.owned >= old(outstruct.owned) && fresh(outstruct.owned - old(outstruct.owned))
    ensures ok <==> UnionBody(outstruct.arch, deflist).Some?
    ensures ok ==> outstruct.View() == UnionBody(outstruct.arch, deflist).value && outstruct.members != map[]
    decreases deflist, 2
  {
    hide RoundUp, Recorded, Keyed, Listed, IsAlign;
    var maxoffset: nat := 0;
    if deflist == [] {
      return false;
    }
    var i := 0;
    assert deflist[..0] == [];
    while i < |deflist|
      invariant 0 <= i <= |deflist|
      invariant outstruct.Valid() && !outstruct.finished
      invariant outstruct.owned >= old(outstruct.owned) && fresh(outstruct.owned - old(outstruct.owned))
      invariant UnionLoop(outstruct.arch, deflist[..i]) == Some(UnionState(outstruct.View(), maxoffset))
    {
      LoopNext(outstruct.arch, deflist, i);
      LoopFails(outstruct.arch, deflist, i + 1);
      ok, maxoffset := AddAlternative(outstruct, maxoffset, deflist[i]);
      if !ok {
        return;
      }
      i := i + 1;
    }
    assert deflist[..i] == deflist;
    if maxoffset > outstruct.nextoffset - outstruct.lastoffset {
      outstruct.nextoffset := outstruct.lastoffset + maxoffset;
    }
    CompileTheorem.CompiledNotEmpty(outstruct.arch, deflist);
    outstruct.SameNames();
    ok := true;
  }

  /** One turn of the loop in `CreateUnion`. */
  method AddAlternative(tstruct: Structure, maxoffset: nat, d: Def) returns (ok: bool, maxoffset': nat)
    requires tstruct.Valid() && !tstruct.finished && tstruct.lastoffset == 0
    modifies tstruct
    ensures tstruct.Valid() && !tstruct.finished
    ensures tstruct.owned >= old(tstruct.owned) && fresh(tstruct.owned - old(tstruct.owned))
    ensures ok <==> UnionStep(tstruct.arch, UnionState(old(tstruct.View()), maxoffset), d).Some?
    ensures ok ==> UnionState(tstruct.View(), maxoffset') ==
                     UnionStep(tstruct.arch, UnionState(old(tstruct.View()), maxoffset), d).value
    decreases d, 0
  {
    hide RoundUp, Recorded, Keyed, Listed, IsAlign;
    maxoffset' := maxoffset;
    match d {
      case Leaf(t, e) =>
        var f := FieldOf(t, e);
        if f.count > 0 {
          return false, maxoffset;
        }
        ok := tstruct.AddMemberUnion(f.name, f.ctype);
        if ok {
          maxoffset' := Max(maxoffset, tstruct.nextoffset - tstruct.lastoffset);
        }
      case Sub(items) =>
        var substruct: Structure;
        ok, substruct := CreateStruct(tstruct.arch, items);
        if ok {
          var align := substruct.alignment;
          ghost var taken;
          ok, taken := tstruct.InsertUnionStruct(substruct);
          if ok {
            maxoffset' := Max(Max(maxoffset, tstruct.nextoffset - tstruct.lastoffset), align);
          }
        }
      case Uni(items) =>
        var substruct := new Structure(tstruct.arch);
        ok := CreateUnion(substruct, items);
        if ok {
          var finished := substruct.FinishStruct();
          ghost var taken;
          ok, taken := tstruct.InsertUnionStruct(substruct);
          if ok {
            maxoffset' := Max(maxoffset, tstruct.nextoffset - tstruct.lastoffset);
          }
        }
    }
  }
}
