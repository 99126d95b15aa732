/** `get_type_from_name`: finding a member's type again in the definition text. */
module TypeLookup {
  import opened Options
  import opened CTypes
  import opened Definitions
  import opened Compile
  import CompileTheorem
  import Layout

  /** The name text as `CreateStruct` leaves it: `removeChar` edits the definition in place. */
  function Edited(elem: string): string {
    if elem != [] && elem[0] == '*' then Without(elem, '*') else elem
  }

  /** The type written in the definition and the element count, -1 when it is not an array. */
  datatype Found = Found(ctype: CType, asArray: int)

  /** The first element whose cut name matches, nested lists included. */
  function LookupDef(d: Def, name: string): Option<Found>
    decreases d
  {
    match d
    case Leaf(t, e) =>
      var (base, n) := ParseArray(Edited(e));
      if base == name then Some(Found(t, if n > 0 then n else -1)) else None
    case Sub(items) => Lookup(items, name)
    case Uni(items) => Lookup(items, name)
  }

  function Lookup(ds: seq<Def>, name: string): Option<Found>
    decreases ds
  {
    if ds == [] then None
    else
      var r := Lookup(ds[..|ds| - 1], name);
      if r.Some? then r else LookupDef(ds[|ds| - 1], name)
  }

  // ----- the members a definition is made of

  /** A member of type `t` with the text `e` is written in the definition, at any depth. */
  ghost predicate Written(d: Def, t: CType, e: string)
    decreases d
  {
    match d
    case Leaf(u, f) => u == t && f == e
    case Sub(items) => ListWritten(items, t, e)
    case Uni(items) => ListWritten(items, t, e)
  }

  ghost predicate ListWritten(ds: seq<Def>, t: CType, e: string)
    decreases ds
  {
    exists i :: 0 <= i < |ds| && Written(ds[i], t, e)
  }

  lemma WrittenLast(ds: seq<Def>, t: CType, e: string)
    requires ds != []
    ensures var n := |ds| - 1;
            ListWritten(ds, t, e) <==> ListWritten(ds[..n], t, e) || Written(ds[n], t, e)
  {
    hide Written;
    var n := |ds| - 1;
    if ListWritten(ds, t, e) {
      var i :| 0 <= i < |ds| && Written(ds[i], t, e);
      assert i < n ==> ds[..n][i] == ds[i];
    }
    if ListWritten(ds[..n], t, e) {
      var i :| 0 <= i < n && Written(ds[..n][i], t, e);
      assert ds[..n][i] == ds[i];
    }
  }

  /** What is found is the type written before a text that is cut to the name, and its count. */
  ghost predicate FoundAt(ds: seq<Def>, name: string, found: Found, e: string) {
    && ListWritten(ds, found.ctype, e)
    && ParseArray(Edited(e)).0 == name
    && var n := ParseArray(Edited(e)).1; found.asArray == if n > 0 then n else -1
  }

  lemma {:induction false} DefFinds(d: Def, name: string) returns (e: string)
    ensures LookupDef(d, name).Some? ==>
              var found := LookupDef(d, name).value;
              && Written(d, found.ctype, e)
              && ParseArray(Edited(e)).0 == name
              && var n := ParseArray(Edited(e)).1; found.asArray == if n > 0 then n else -1
    decreases d
  {
    match d
    case Leaf(_, f) => e := f;
    case Sub(items) => e := Finds(items, name);
    case Uni(items) => e := Finds(items, name);
  }

  lemma {:induction false} Finds(ds: seq<Def>, name: string) returns (e: string)
    ensures Lookup(ds, name).Some? ==> FoundAt(ds, name, Lookup(ds, name).value, e)
    decreases ds
  {
    e := "";
    if Lookup(ds, name).Some? {
      var n := |ds| - 1;
      if Lookup(ds[..n], name).Some? {
        e := Finds(ds[..n], name);
      } else {
        e := DefFinds(ds[n], name);
      }
      WrittenLast(ds, Lookup(ds, name).value.ctype, e);
    }
  }

  lemma {:induction false} DefMisses(d: Def, t: CType, e: string)
    requires Written(d, t, e)
    ensures LookupDef(d, ParseArray(Edited(e)).0).Some?
    decreases d
  {
    match d
    case Leaf(_, _) =>
    case Sub(items) => Misses(items, t, e);
    case Uni(items) => Misses(items, t, e);
  }

  lemma {:induction false} Misses(ds: seq<Def>, t: CType, e: string)
    requires ListWritten(ds, t, e)
    ensures Lookup(ds, ParseArray(Edited(e)).0).Some?
    decreases ds
  {
    var n := |ds| - 1;
    WrittenLast(ds, t, e);
    if ListWritten(ds[..n], t, e) {
      Misses(ds[..n], t, e);
    } else {
      DefMisses(ds[n], t, e);
    }
  }

  /** `get_type_from_name`. */
  method GetTypeFromName(deflist: seq<Def>, name: string) returns (r: Option<Found>)
    ensures r == Lookup(deflist, name)
    ensures r.Some? ==> exists e :: FoundAt(deflist, name, r.value, e)
    ensures r.None? ==> forall t, e :: ListWritten(deflist, t, e) ==> ParseArray(Edited(e)).0 != name
    decreases deflist
  {
    ghost var text := Finds(deflist, name);
    forall t, e | ListWritten(deflist, t, e) && ParseArray(Edited(e)).0 == name
      ensures Lookup(deflist, name).Some?
    {
      Misses(deflist, t, e);
    }
    hide Lookup, ListWritten, FoundAt, ParseArray;
    var i := 0;
    NothingFound(name);
    while i < |deflist|
      invariant 0 <= i <= |deflist|
      invariant Lookup(deflist[..i], name) == None
    {
      LookupNext(deflist, name, i);
      LookupStays(deflist, name, i + 1);
      match deflist[i] {
        case Leaf(t, e) =>
          var (base, n) := ParseArray(Edited(e));
          if base == name {
            return Some(Found(t, if n > 0 then n else -1));
          }
        case Sub(items) =>
          r := GetTypeFromName(items, name);
          if r.Some? {
            return;
          }
        case Uni(items) =>
          r := GetTypeFromName(items, name);
          if r.Some? {
            return;
          }
      }
      i := i + 1;
    }
    assert deflist[..i] == deflist;
    r := None;
  }

  lemma NothingFound(name: string)
    ensures Lookup([], name) == None
  {
  }

  lemma LookupNext(ds: seq<Def>, name: string, n: nat)
    requires n < |ds|
    ensures Lookup(ds[..n], name) == None ==> Lookup(ds[..n + 1], name) == LookupDef(ds[n], name)
  {
    assert ds[..n + 1][..n] == ds[..n];
  }

  lemma {:induction false} LookupStays(ds: seq<Def>, name: string, n: nat)
    requires n <= |ds|
    ensures Lookup(ds[..n], name).Some? ==> Lookup(ds, name) == Lookup(ds[..n], name)
    decreases |ds| - n
  {
    if n < |ds| {
      assert ds[..n + 1][..n] == ds[..n];
      LookupStays(ds, name, n + 1);
    } else {
      assert ds[..n] == ds;
    }
  }

  // ----- the members of the table

  function Fields(d: Def): (m: map<string, Field>)
    ensures m.Keys == Names(d)
    decreases d
  {
    match d
    case Leaf(t, e) => map[FieldOf(t, e).name := FieldOf(t, e)]
    case Sub(items) => ListFields(items)
    case Uni(items) => ListFields(items)
  }

  function ListFields(ds: seq<Def>): (m: map<string, Field>)
    ensures m.Keys == ListNames(ds)
    decreases ds
  {
    if ds == [] then map[] else ListFields(ds[..|ds| - 1]) + Fields(ds[|ds| - 1])
  }

  /** A lookup gives what the table holds: found or not, the copied size, the element count. */
  predicate Matches(a: Arch, r: Option<Found>, fields: map<string, Field>, name: string) {
    && (r.Some? <==> name in fields)
    && (r.Some? ==>
          && MemSize(a, r.value.ctype) == MemSize(a, fields[name].ctype)
          && r.value.asArray == if fields[name].count > 0 then fields[name].count else -1)
  }

  /** The name text is a plain name or `name(n)` with a positive count. */
  predicate WellNamed(e: string) {
    var (base, n) := ParseArray(Edited(e));
    n > 0 || base == Edited(e)
  }

  /** A member the two agree on: well named, and a `*` only in front of a pointer-sized type. */
  predicate Plain(a: Arch, t: CType, e: string) {
    WellNamed(e) && (Edited(e) != e ==> MemSize(a, t) == MemSize(a, Ptr))
  }

  predicate AllPlain(a: Arch, d: Def)
    decreases d
  {
    match d
    case Leaf(t, e) => Plain(a, t, e)
    case Sub(items) => ListPlain(a, items)
    case Uni(items) => ListPlain(a, items)
  }

  predicate ListPlain(a: Arch, ds: seq<Def>)
    decreases ds
  {
    ds == [] || (ListPlain(a, ds[..|ds| - 1]) && AllPlain(a, ds[|ds| - 1]))
  }

  lemma LeafMatches(a: Arch, t: CType, e: string, name: string)
    ensures Plain(a, t, e) ==> Matches(a, LookupDef(Leaf(t, e), name), Fields(Leaf(t, e)), name)
    ensures WellNamed(e) ==> (LookupDef(Leaf(t, e), name).Some? <==> name == FieldOf(t, e).name)
    ensures WellNamed(e) && !Plain(a, t, e) ==>
              var own := FieldOf(t, e).name; !Matches(a, LookupDef(Leaf(t, e), own), Fields(Leaf(t, e)), own)
  {
    CharGone(e, '*');
    assert Edited(e) == e <==> !(e != [] && e[0] == '*');
  }

  lemma {:induction false} PlainMatches(a: Arch, d: Def, name: string, inUnion: bool)
    requires AcceptedDef(d, inUnion) && AllPlain(a, d)
    ensures Matches(a, LookupDef(d, name), Fields(d), name)
    decreases d
  {
    match d
    case Leaf(t, e) => LeafMatches(a, t, e, name);
    case Sub(items) => ListPlainMatches(a, items, name, false);
    case Uni(items) => ListPlainMatches(a, items, name, true);
  }

  lemma {:induction false} ListPlainMatches(a: Arch, ds: seq<Def>, name: string, inUnion: bool)
    requires AcceptedList(ds, inUnion) && ListPlain(a, ds)
    ensures Matches(a, Lookup(ds, name), ListFields(ds), name)
    decreases ds
  {
    if ds != [] {
      ListPlainMatches(a, ds[..|ds| - 1], name, inUnion);
      PlainMatches(a, ds[|ds| - 1], name, inUnion);
    }
  }

  // ----- and where they disagree

  /** A badly formed name is found nowhere: every name a lookup compares with is already cut. */
  lemma {:induction false} CutNamesOnly(d: Def, name: string)
    requires ParseArray(name).0 != name
    ensures LookupDef(d, name) == None
    decreases d
  {
    match d
    case Leaf(t, e) => ParseArrayIdempotent(Edited(e));
    case Sub(items) => ListCutNamesOnly(items, name);
    case Uni(items) => ListCutNamesOnly(items, name);
  }

  lemma {:induction false} ListCutNamesOnly(ds: seq<Def>, name: string)
    requires ParseArray(name).0 != name
    ensures Lookup(ds, name) == None
    decreases ds
  {
    if ds != [] {
      ListCutNamesOnly(ds[..|ds| - 1], name);
      CutNamesOnly(ds[|ds| - 1], name);
    }
  }

  /** Some member of `d` is not plain: then some name is looked up wrongly, either because it is
      not cut, or because the size differs. */
  lemma {:induction false} NotPlainName(a: Arch, d: Def, inUnion: bool) returns (name: string)
    requires AcceptedDef(d, inUnion) && !AllPlain(a, d)
    ensures name in Names(d)
    ensures ParseArray(name).0 != name || (LookupDef(d, name).Some? && !Matches(a, LookupDef(d, name), Fields(d), name))
    decreases d
  {
    match d
    case Leaf(t, e) =>
      name := FieldOf(t, e).name;
      LeafMatches(a, t, e, name);
    case Sub(items) => name := ListNotPlainName(a, items, false);
    case Uni(items) => name := ListNotPlainName(a, items, true);
  }

  lemma {:induction false} ListNotPlainName(a: Arch, ds: seq<Def>, inUnion: bool) returns (name: string)
    requires AcceptedList(ds, inUnion) && !ListPlain(a, ds)
    ensures name in ListNames(ds)
    ensures ParseArray(name).0 != name || (Lookup(ds, name).Some? && !Matches(a, Lookup(ds, name), ListFields(ds), name))
    decreases ds
  {
    var init, d := ds[..|ds| - 1], ds[|ds| - 1];
    if !ListPlain(a, init) {
      name := ListNotPlainName(a, init, inUnion);
    } else {
      name := NotPlainName(a, d, inUnion);
      ListPlainMatches(a, init, name, inUnion);
    }
  }

  // ----- the type that is found

  /** In a plain list every member is found under its name, with the type and the count of its text;
      the table has the same type unless a `*` makes it a pointer there. */
  lemma {:induction false} DefFoundHere(a: Arch, d: Def, inUnion: bool, t: CType, e: string)
    requires AcceptedDef(d, inUnion) && AllPlain(a, d) && Written(d, t, e)
    ensures Fields(d).Keys == Names(d) && FieldOf(t, e).name in Names(d)
    ensures LookupDef(d, FieldOf(t, e).name) == Some(Found(t, if FieldOf(t, e).count > 0 then FieldOf(t, e).count else -1))
    ensures Fields(d)[FieldOf(t, e).name] == FieldOf(t, e)
    decreases d
  {
    match d
    case Leaf(_, _) => LeafMatches(a, t, e, FieldOf(t, e).name);
    case Sub(items) => FoundHere(a, items, false, t, e);
    case Uni(items) => FoundHere(a, items, true, t, e);
  }

  lemma {:induction false} FoundHere(a: Arch, ds: seq<Def>, inUnion: bool, t: CType, e: string)
    requires AcceptedList(ds, inUnion) && ListPlain(a, ds) && ListWritten(ds, t, e)
    ensures ListFields(ds).Keys == ListNames(ds) && FieldOf(t, e).name in ListNames(ds)
    ensures Lookup(ds, FieldOf(t, e).name) == Some(Found(t, if FieldOf(t, e).count > 0 then FieldOf(t, e).count else -1))
    ensures ListFields(ds)[FieldOf(t, e).name] == FieldOf(t, e)
    decreases ds
  {
    hide FieldOf;
    var n, name := |ds| - 1, FieldOf(t, e).name;
    WrittenLast(ds, t, e);
    if ListWritten(ds[..n], t, e) {
      FoundHere(a, ds[..n], inUnion, t, e);
    } else {
      DefFoundHere(a, ds[n], inUnion, t, e);
      ListPlainMatches(a, ds[..n], name, inUnion);
    }
  }

  /** The lookup and the member table of an accepted plain list, in the types themselves: a member
      written `t e` is found as `t`; the table has `t` too, or a pointer where the text has a `*`. */
  lemma TypeFound(a: Arch, ds: seq<Def>, t: CType, e: string)
    requires CompileStruct(a, ds).Some? && ListPlain(a, ds) && ListWritten(ds, t, e)
    ensures var f := FieldOf(t, e); var table := CompileStruct(a, ds).value.table;
            && Lookup(ds, f.name) == Some(Found(t, if f.count > 0 then f.count else -1))
            && f.name in table
            && table[f.name].ctype == if e != [] && e[0] == '*' then Ptr else t
  {
    hide FieldOf, ListPlain, ListWritten, Lookup, ListFields;
    CompileTheorem.StructAccepts(a, ds);
    FoundHere(a, ds, false, t, e);
    LookupTheorem(a, ds);
    StarredIsPtr(t, e);
  }

  lemma StarredIsPtr(t: CType, e: string)
    ensures FieldOf(t, e).ctype == if e != [] && e[0] == '*' then Ptr else t
  {
  }

  /** Every name that is found in an accepted plain list: the type is the one written before the
      name's text, and the table's own type unless that text has a `*`. */
  lemma FoundType(a: Arch, ds: seq<Def>, name: string) returns (t: CType, e: string)
    requires CompileStruct(a, ds).Some? && ListPlain(a, ds) && Lookup(ds, name).Some?
    ensures ListWritten(ds, t, e) && FieldOf(t, e).name == name && Lookup(ds, name).value.ctype == t
    ensures name in CompileStruct(a, ds).value.table
    ensures !(e != [] && e[0] == '*') ==> CompileStruct(a, ds).value.table[name].ctype == t
    ensures e != [] && e[0] == '*' ==> CompileStruct(a, ds).value.table[name].ctype == Ptr
  {
    t := Lookup(ds, name).value.ctype;
    e := Finds(ds, name);
    WrittenPlain(a, ds, t, e);
    TypeFound(a, ds, t, e);
  }

  lemma {:induction false} WrittenPlain(a: Arch, ds: seq<Def>, t: CType, e: string)
    requires ListPlain(a, ds) && ListWritten(ds, t, e)
    ensures Plain(a, t, e) && FieldOf(t, e).name == ParseArray(Edited(e)).0
    decreases ds
  {
    hide ParseArray;
    var n := |ds| - 1;
    WrittenLast(ds, t, e);
    if ListWritten(ds[..n], t, e) {
      WrittenPlain(a, ds[..n], t, e);
    } else {
      match ds[n]
      case Leaf(_, _) =>
      case Sub(items) => WrittenPlain(a, items, t, e);
      case Uni(items) => WrittenPlain(a, items, t, e);
    }
  }

  // ----- the table's types are the fields' types

  predicate TypesOf(ref: map<string, Layout.Slot>, fields: map<string, Field>) {
    ref.Keys == fields.Keys && forall k :: k in ref ==> ref[k].ctype == fields[k].ctype
  }

  lemma {:induction false} PlaceTypes(a: Arch, d: Def, base: nat)
    ensures TypesOf(Layout.Place(a, d, base), Fields(d))
    decreases d
  {
    match d
    case Leaf(_, _) =>
    case Sub(items) => PlaceListTypes(a, items, base);
    case Uni(items) => PlaceListTypes(a, items, base);
  }

  lemma TypesJoin(m: map<string, Layout.Slot>, n: map<string, Layout.Slot>, f: map<string, Field>, g: map<string, Field>)
    requires TypesOf(m, f) && TypesOf(n, g)
    ensures TypesOf(m + n, f + g)
  {
  }

  lemma NoTypes(a: Arch, base: nat)
    ensures TypesOf(map[], ListFields([]))
  {
  }

  lemma LastFields(ds: seq<Def>)
    requires ds != []
    ensures ListFields(ds) == ListFields(ds[..|ds| - 1]) + Fields(ds[|ds| - 1])
  {
  }

  lemma {:induction false} PlaceListTypes(a: Arch, ds: seq<Def>, base: nat)
    ensures TypesOf(Layout.PlaceStruct(a, ds, base), ListFields(ds))
    ensures TypesOf(Layout.PlaceUnion(a, ds, base), ListFields(ds))
    decreases ds
  {
    hide *;
    if ds == [] {
      Layout.ListEmpty(a, base);
      NoTypes(a, base);
      return;
    }
    var init, d := ds[..|ds| - 1], ds[|ds| - 1];
    var start := Layout.StartOf(a, ds, |ds| - 1);
    LastFields(ds);
    Layout.ListStep(a, ds, base);
    PlaceListTypes(a, init, base);
    PlaceTypes(a, d, base);
    PlaceTypes(a, d, base + start);
    TypesJoin(Layout.PlaceStruct(a, init, base), Layout.Place(a, d, base + start), ListFields(init), Fields(d));
    TypesJoin(Layout.PlaceUnion(a, init, base), Layout.Place(a, d, base), ListFields(init), Fields(d));
  }

  /** For every definition `CreateStruct` accepts, looking a name up in the definition agrees with
      the member table on every name, byte size and array count if and only if every member has a
      plain or `name(n)` text and only pointer-sized types carry a `*`. */
  lemma LookupTheorem(a: Arch, ds: seq<Def>)
    requires CompileStruct(a, ds).Some?
    ensures var t, fields := CompileStruct(a, ds).value.table, ListFields(ds);
            t.Keys == fields.Keys && forall k :: k in t ==> t[k].ctype == fields[k].ctype
    ensures (forall name :: Matches(a, Lookup(ds, name), ListFields(ds), name)) <==> ListPlain(a, ds)
  {
    CompileTheorem.StructAccepts(a, ds);
    CompileTheorem.StructHolds(a, ds);
    PlaceListTypes(a, ds, 0);
    if ListPlain(a, ds) {
      forall name ensures Matches(a, Lookup(ds, name), ListFields(ds), name) {
        ListPlainMatches(a, ds, name, false);
      }
    } else {
      var name := ListNotPlainName(a, ds, false);
      if ParseArray(name).0 != name {
        ListCutNamesOnly(ds, name);
      }
      assert !Matches(a, Lookup(ds, name), ListFields(ds), name);
    }
  }
}
