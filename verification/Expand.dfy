/** `ParseStruct`: replaces references to declared structures by their members. */
module Expansion {
  import opened Options
  import opened Definitions

  const MAX_DEPTH := 32

  /** Two consecutive words of a definition list, a type and a member name.  `sub` is the list the
      second word reads as. */
  datatype Entry = Entry(kind: string, elem: string, sub: Listing)

  /** A text as a list of entries; `NoList` stands for malformed lists and odd lengths. */
  datatype Listing = NoList | List(items: seq<Entry>)

  /** The declared structures. */
  type Registry = map<string, seq<Entry>>

  /** How Tcl spells a list. */
  type Speller = seq<Entry> -> string

  predicate Starred(elem: string) {
    elem != "" && elem[0] == '*'
  }

  predicate IsKeyword(kind: string) {
    kind == "struct" || kind == "union"
  }

  /** A declared type is looked up before the keywords, and never for a `*` member. */
  predicate IsReference(reg: Registry, e: Entry) {
    !Starred(e.elem) && e.kind in reg
  }

  function Join(name: string, elem: string): string {
    if name == "" then elem else name + "." + elem
  }

  function Group(spell: Speller, kind: string, items: seq<Entry>): Entry {
    Entry(kind, spell(items), List(items))
  }

  /** What `ParseStruct` makes of one entry. */
  function ExpandEntry(spell: Speller, reg: Registry, e: Entry, name: string, depth: nat): Option<Entry>
    decreases MAX_DEPTH + 1 - depth, 0
    requires depth <= MAX_DEPTH
  {
    if IsReference(reg, e) then
      match Expand(spell, reg, List(reg[e.kind]), Join(name, e.elem), depth + 1)
      case None => None
      case Some(items) => Some(Group(spell, "struct", items))
    else if IsKeyword(e.kind) then
      match Expand(spell, reg, e.sub, name, depth + 1)
      case None => None
      case Some(items) => Some(Group(spell, e.kind, items))
    else if Starred(e.elem) then
      Some(Entry("ptr." + e.kind, Join(name, Without(e.elem, '*')), NoList))
    else
      Some(Entry(e.kind, Join(name, e.elem), NoList))
  }

  /** `ParseStruct`; None is an error return.  The depth bound alone makes it terminate: nothing
      keeps a structure from referring to itself. */
  function Expand(spell: Speller, reg: Registry, def: Listing, name: string, depth: nat): (r: Option<seq<Entry>>)
    ensures r.Some? ==> def.List? && 0 < |r.value| == |def.items|
    decreases MAX_DEPTH + 1 - depth, 1
  {
    if depth > MAX_DEPTH || def.NoList? || def.items == [] then None
    else if forall i :: 0 <= i < |def.items| ==> ExpandEntry(spell, reg, def.items[i], name, depth).Some? then
      Some(seq(|def.items|, i requires 0 <= i < |def.items| && ExpandEntry(spell, reg, def.items[i], name, depth).Some?
        => ExpandEntry(spell, reg, def.items[i], name, depth).value))
    else None
  }

  /** An expansion, entry by entry. */
  lemma ExpandAt(spell: Speller, reg: Registry, items: seq<Entry>, name: string, depth: nat, i: nat)
    requires i < |items| && Expand(spell, reg, List(items), name, depth).Some?
    ensures depth <= MAX_DEPTH
    ensures ExpandEntry(spell, reg, items[i], name, depth) == Some(Expand(spell, reg, List(items), name, depth).value[i])
  {
  }

  lemma ExpandIs(spell: Speller, reg: Registry, items: seq<Entry>, name: string, depth: nat, r: seq<Entry>)
    requires depth <= MAX_DEPTH && |r| == |items| > 0
    requires forall i :: 0 <= i < |items| ==> ExpandEntry(spell, reg, items[i], name, depth) == Some(r[i])
    ensures Expand(spell, reg, List(items), name, depth) == Some(r)
  {
    assert Expand(spell, reg, List(items), name, depth).value == r;
  }

  /** The loop of `ParseStruct`, which appends to a result list. */
  method ParseStruct(spell: Speller, reg: Registry, def: Listing, name: string, depth: nat)
    returns (result: Option<seq<Entry>>)
    ensures result == Expand(spell, reg, def, name, depth)
    decreases MAX_DEPTH + 1 - depth
  {
    if depth > MAX_DEPTH || def.NoList? || |def.items| == 0 {
      return None;
    }
    var list: seq<Entry>, i := [], 0;
    while i < |def.items|
      invariant 0 <= i == |list| <= |def.items|
      invariant forall j :: 0 <= j < i ==> ExpandEntry(spell, reg, def.items[j], name, depth) == Some(list[j])
    {
      var e := def.items[i];
      if !Starred(e.elem) && e.kind in reg {
        var obj := ParseStruct(spell, reg, List(reg[e.kind]), Join(name, e.elem), depth + 1);
        if obj.None? {
          return None;
        }
        list := list + [Group(spell, "struct", obj.value)];
      } else if IsKeyword(e.kind) {
        var obj := ParseStruct(spell, reg, e.sub, name, depth + 1);
        if obj.None? {
          return None;
        }
        list := list + [Group(spell, e.kind, obj.value)];
      } else if Starred(e.elem) {
        list := list + [Entry("ptr." + e.kind, Join(name, Without(e.elem, '*')), NoList)];
      } else {
        list := list + [Entry(e.kind, Join(name, e.elem), NoList)];
      }
      i := i + 1;
    }
    ExpandIs(spell, reg, def.items, name, depth, list);
    result := Some(list);
  }

  // ----- references that never end

  /** A list that refers, directly or inside a nested list, to one of the names `ks`. */
  predicate Reaches(reg: Registry, items: seq<Entry>, ks: set<string>)
    decreases items
  {
    exists i :: 0 <= i < |items| && ReachesEntry(reg, items[i], ks)
  }

  predicate ReachesEntry(reg: Registry, e: Entry, ks: set<string>)
    decreases e
  {
    if IsReference(reg, e) then e.kind in ks
    else IsKeyword(e.kind) && e.sub.List? && Reaches(reg, e.sub.items, ks)
  }

  /** Structures that only lead to one another cannot be expanded, however deep the bound. */
  lemma {:induction false} CyclesFail(spell: Speller, reg: Registry, items: seq<Entry>, ks: set<string>, name: string, depth: nat)
    requires forall k :: k in ks ==> k in reg && Reaches(reg, reg[k], ks)
    requires Reaches(reg, items, ks)
    ensures Expand(spell, reg, List(items), name, depth).None?
    decreases MAX_DEPTH + 1 - depth
  {
    if Expand(spell, reg, List(items), name, depth).Some? {
      var i :| 0 <= i < |items| && ReachesEntry(reg, items[i], ks);
      ExpandAt(spell, reg, items, name, depth, i);
      var e := items[i];
      if IsReference(reg, e) {
        CyclesFail(spell, reg, reg[e.kind], ks, Join(name, e.elem), depth + 1);
      } else {
        CyclesFail(spell, reg, e.sub.items, ks, name, depth + 1);
      }
    }
  }

  /** The list an entry is replaced by: the referenced structure's, or its own. */
  function Below(reg: Registry, e: Entry): Option<Listing> {
    if IsReference(reg, e) then Some(List(reg[e.kind]))
    else if IsKeyword(e.kind) then Some(e.sub)
    else None
  }

  predicate Leads(reg: Registry, l: Listing, l': Listing) {
    l.List? && exists i :: 0 <= i < |l.items| && Below(reg, l.items[i]) == Some(l')
  }

  /** A chain of references and groups. */
  predicate IsWalk(reg: Registry, w: seq<Listing>) {
    w != [] && forall j :: 0 <= j < |w| - 1 ==> Leads(reg, w[j], w[j + 1])
  }

  predicate WellFormed(l: Listing) {
    l.List? && l.items != []
  }

  /** Every chain from `def` takes at most `steps` steps, and every list on the way is well formed. */
  ghost predicate Bounded(reg: Registry, def: Listing, steps: int) {
    forall w :: IsWalk(reg, w) && w[0] == def ==> |w| - 1 <= steps && WellFormed(w[|w| - 1])
  }

  lemma {:induction false} ExpandBounds(spell: Speller, reg: Registry, def: Listing, name: string, depth: nat, w: seq<Listing>)
    requires Expand(spell, reg, def, name, depth).Some? && IsWalk(reg, w) && w[0] == def
    ensures |w| - 1 <= MAX_DEPTH - depth && WellFormed(w[|w| - 1])
    decreases |w|
  {
    if |w| > 1 {
      assert Leads(reg, w[0], w[1]);
      var i :| 0 <= i < |def.items| && Below(reg, def.items[i]) == Some(w[1]);
      ExpandAt(spell, reg, def.items, name, depth, i);
      var e := def.items[i];
      ExpandBounds(spell, reg, w[1], if IsReference(reg, e) then Join(name, e.elem) else name, depth + 1, w[1..]);
    }
  }

  lemma {:induction false} TooLong(spell: Speller, reg: Registry, def: Listing, name: string, depth: nat) returns (w: seq<Listing>)
    requires Expand(spell, reg, def, name, depth).None?
    ensures IsWalk(reg, w) && w[0] == def && !(|w| - 1 <= MAX_DEPTH - depth && WellFormed(w[|w| - 1]))
    decreases MAX_DEPTH + 1 - depth
  {
    w := [def];
    if depth <= MAX_DEPTH && WellFormed(def) {
      var i :| 0 <= i < |def.items| && ExpandEntry(spell, reg, def.items[i], name, depth).None?;
      var e := def.items[i];
      var below := Below(reg, e).value;
      var rest := TooLong(spell, reg, below, if IsReference(reg, e) then Join(name, e.elem) else name, depth + 1);
      assert Leads(reg, def, below);
      w := [def] + rest;
    }
  }

  /** For every registry, definition and depth, expansion succeeds exactly when no chain of references
      and groups is longer than the depth that is left and every list on the way is well formed. */
  lemma ExpandExact(spell: Speller, reg: Registry, def: Listing, name: string, depth: nat)
    ensures Expand(spell, reg, def, name, depth).Some? <==> Bounded(reg, def, 32 - depth)
  {
    if Expand(spell, reg, def, name, depth).Some? {
      forall w | IsWalk(reg, w) && w[0] == def ensures |w| - 1 <= MAX_DEPTH - depth && WellFormed(w[|w| - 1]) {
        ExpandBounds(spell, reg, def, name, depth, w);
      }
    } else {
      var w := TooLong(spell, reg, def, name, depth);
    }
  }

  /** A smaller starting depth changes nothing. */
  lemma {:induction false} ExpandShallower(spell: Speller, reg: Registry, items: seq<Entry>, name: string, d: nat, d': nat)
    requires d' <= d && Expand(spell, reg, List(items), name, d).Some?
    ensures Expand(spell, reg, List(items), name, d') == Expand(spell, reg, List(items), name, d)
    decreases MAX_DEPTH + 1 - d
  {
    var r := Expand(spell, reg, List(items), name, d).value;
    forall i | 0 <= i < |items| ensures ExpandEntry(spell, reg, items[i], name, d') == Some(r[i]) {
      ExpandAt(spell, reg, items, name, d, i);
      var e := items[i];
      if IsReference(reg, e) {
        ExpandShallower(spell, reg, reg[e.kind], Join(name, e.elem), d + 1, d' + 1);
      } else if IsKeyword(e.kind) {
        ExpandShallower(spell, reg, e.sub.items, name, d + 1, d' + 1);
      }
    }
    ExpandIs(spell, reg, items, name, d', r);
  }

  /** Whether an expansion succeeds does not depend on the path it is under. */
  lemma {:induction false} AnyName(spell: Speller, reg: Registry, items: seq<Entry>, n: string, q: string, depth: nat)
    requires Expand(spell, reg, List(items), n, depth).Some?
    ensures Expand(spell, reg, List(items), q, depth).Some?
    decreases MAX_DEPTH + 1 - depth
  {
    forall i | 0 <= i < |items| ensures ExpandEntry(spell, reg, items[i], q, depth).Some? {
      ExpandAt(spell, reg, items, n, depth, i);
      var e := items[i];
      if IsReference(reg, e) {
        AnyName(spell, reg, reg[e.kind], Join(n, e.elem), Join(q, e.elem), depth + 1);
      } else if IsKeyword(e.kind) {
        AnyName(spell, reg, e.sub.items, n, q, depth + 1);
      }
    }
  }

  // ----- the shape of an expansion

  /** Only keyword groups and plain members are left. */
  predicate Expanded(e: Entry)
    decreases e
  {
    if IsKeyword(e.kind) then e.sub.List? && e.sub.items != [] && ExpandedList(e.sub.items)
    else e.sub.NoList? && !Starred(e.elem)
  }

  predicate ExpandedList(items: seq<Entry>)
    decreases items
  {
    forall i :: 0 <= i < |items| ==> Expanded(items[i])
  }

  lemma PointerKind(k: string)
    ensures !IsKeyword("ptr." + k)
  {
    assert ("ptr." + k)[0] == 'p';
  }

  lemma {:induction false} ExpandShape(spell: Speller, reg: Registry, items: seq<Entry>, name: string, depth: nat)
    requires !Starred(name) && Expand(spell, reg, List(items), name, depth).Some?
    ensures ExpandedList(Expand(spell, reg, List(items), name, depth).value)
    decreases MAX_DEPTH + 1 - depth
  {
    var r := Expand(spell, reg, List(items), name, depth).value;
    forall i | 0 <= i < |items| ensures Expanded(r[i]) {
      ExpandAt(spell, reg, items, name, depth, i);
      var e := items[i];
      if IsReference(reg, e) {
        ExpandShape(spell, reg, reg[e.kind], Join(name, e.elem), depth + 1);
      } else if IsKeyword(e.kind) {
        ExpandShape(spell, reg, e.sub.items, name, depth + 1);
      } else {
        CharGone(e.elem, '*');
        PointerKind(e.kind);
      }
    }
  }

  // ----- expanding twice

  /** No declared structure hides a keyword or the name of a pointer type. */
  predicate NoKeywords(reg: Registry) {
    "struct" !in reg && "union" !in reg
  }

  ghost predicate NoPointerNames(reg: Registry) {
    forall k :: !IsKeyword(k) ==> "ptr." + k !in reg
  }

  /** An expansion is not expanded any further. */
  lemma {:induction false} ExpandTwice(spell: Speller, reg: Registry, items: seq<Entry>, name: string, depth: nat)
    requires NoKeywords(reg) && NoPointerNames(reg)
    requires !Starred(name) && Expand(spell, reg, List(items), name, depth).Some?
    ensures var r := Expand(spell, reg, List(items), name, depth);
            Expand(spell, reg, List(r.value), "", depth) == r
    decreases MAX_DEPTH + 1 - depth
  {
    var r := Expand(spell, reg, List(items), name, depth).value;
    forall i | 0 <= i < |items| ensures ExpandEntry(spell, reg, r[i], "", depth) == Some(r[i]) {
      ExpandAt(spell, reg, items, name, depth, i);
      var e := items[i];
      if IsReference(reg, e) {
        ExpandTwice(spell, reg, reg[e.kind], Join(name, e.elem), depth + 1);
      } else if IsKeyword(e.kind) {
        ExpandTwice(spell, reg, e.sub.items, name, depth + 1);
      } else {
        CharGone(e.elem, '*');
        PointerKind(e.kind);
      }
    }
    ExpandIs(spell, reg, r, "", depth, r);
  }

  /** Over all definitions, the second expansion changes nothing exactly when no declared structure
      has the name of a pointer type. */
  lemma ExpandTwiceExact(spell: Speller, reg: Registry)
    requires NoKeywords(reg)
    ensures NoPointerNames(reg) <==>
            forall items :: var r := Expand(spell, reg, List(items), "", 0);
              r.Some? ==> Expand(spell, reg, List(r.value), "", 0) == r
  {
    if NoPointerNames(reg) {
      forall items | Expand(spell, reg, List(items), "", 0).Some?
        ensures var r := Expand(spell, reg, List(items), "", 0); Expand(spell, reg, List(r.value), "", 0) == r
      {
        ExpandTwice(spell, reg, items, "", 0);
      }
    } else {
      var k :| !IsKeyword(k) && "ptr." + k in reg;
      var items, once := [Entry(k, "*p", NoList)], [Entry("ptr." + k, "p", NoList)];
      assert Without("*p", '*') == "p" by {
        assert "*p"[1..] == "p" && "p"[1..] == "";
      }
      ExpandIs(spell, reg, items, "", 0, once);
      assert IsReference(reg, once[0]);
      if Expand(spell, reg, List(once), "", 0) == Some(once) {
        ExpandAt(spell, reg, once, "", 0, 0);
      }
    }
  }

  // ----- runs of declarations

  datatype Declaration = Declaration(name: string, def: Listing)

  /** `CStructDeclareCmd`: the definition is expanded before it replaces an older one. */
  function Declare(spell: Speller, reg: Registry, d: Declaration): Registry {
    match Expand(spell, reg, d.def, "", 0)
    case None => reg
    case Some(r) => reg[d.name := r]
  }

  function DeclareAll(spell: Speller, ds: seq<Declaration>): Registry {
    if ds == [] then map[] else Declare(spell, DeclareAll(spell, ds[..|ds| - 1]), ds[|ds| - 1])
  }

  /** Over every run of declarations the registry holds expansions only, so that no declared text is
      ever rewritten in place. */
  lemma {:induction false} RegistryExpanded(spell: Speller, ds: seq<Declaration>, k: string)
    requires k in DeclareAll(spell, ds)
    ensures DeclareAll(spell, ds)[k] != [] && ExpandedList(DeclareAll(spell, ds)[k])
  {
    var reg, d := DeclareAll(spell, ds[..|ds| - 1]), ds[|ds| - 1];
    if Expand(spell, reg, d.def, "", 0).Some? && k == d.name {
      ExpandShape(spell, reg, d.def.items, "", 0);
    } else {
      RegistryExpanded(spell, ds[..|ds| - 1], k);
    }
  }

  /** Chains through declared structures meet well-formed lists only. */
  lemma {:induction false} WalkExpanded(spell: Speller, ds: seq<Declaration>, w: seq<Listing>)
    requires IsWalk(DeclareAll(spell, ds), w) && WellFormed(w[0]) && ExpandedList(w[0].items)
    ensures WellFormed(w[|w| - 1])
    decreases |w|
  {
    var reg := DeclareAll(spell, ds);
    if |w| > 1 {
      assert Leads(reg, w[0], w[1]);
      var i :| 0 <= i < |w[0].items| && Below(reg, w[0].items[i]) == Some(w[1]);
      var e := w[0].items[i];
      assert Expanded(e);
      if IsReference(reg, e) {
        RegistryExpanded(spell, ds, e.kind);
      }
      WalkExpanded(spell, ds, w[1..]);
    }
  }

  /** After every run of declarations a declared structure can be used at a depth exactly when the
      chains of references from it are no longer than the depth that is left below it. */
  lemma DeclaredUsable(spell: Speller, ds: seq<Declaration>, e: Entry, name: string, depth: nat)
    requires IsReference(DeclareAll(spell, ds), e)
    ensures var reg := DeclareAll(spell, ds);
            Expand(spell, reg, List([e]), name, depth).Some? <==>
            (depth < 32
             && forall w :: IsWalk(reg, w) && w[0] == List(reg[e.kind]) ==> |w| <= 32 - depth)
  {
    var reg := DeclareAll(spell, ds);
    var own := List(reg[e.kind]);
    RegistryExpanded(spell, ds, e.kind);
    OneReference(spell, reg, e, name, depth);
    if depth < MAX_DEPTH {
      ExpandExact(spell, reg, own, Join(name, e.elem), depth + 1);
      forall w | IsWalk(reg, w) && w[0] == own ensures WellFormed(w[|w| - 1]) {
        WalkExpanded(spell, ds, w);
      }
    }
  }

  lemma OneReference(spell: Speller, reg: Registry, e: Entry, name: string, depth: nat)
    requires IsReference(reg, e) && reg[e.kind] != []
    ensures Expand(spell, reg, List([e]), name, depth).Some? <==>
            depth < MAX_DEPTH && Expand(spell, reg, List(reg[e.kind]), Join(name, e.elem), depth + 1).Some?
  {
    if Expand(spell, reg, List([e]), name, depth).Some? {
      ExpandAt(spell, reg, [e], name, depth, 0);
    }
  }

  /** Yet a type name declared after its first use closes a cycle: from then on the later structure
      cannot be used any more. */
  lemma LateDeclaration(spell: Speller, items: seq<Entry>, name: string, depth: nat)
    requires |items| == 1 && items[0].kind == "Foo" && !Starred(items[0].elem)
    ensures var reg := DeclareAll(spell, [Declaration("A", List([Entry("Foo", "f", NoList)])),
                                          Declaration("Foo", List([Entry("A", "a", NoList)]))]);
            "Foo" in reg && Expand(spell, reg, List(items), name, depth).None?
  {
    var useFoo, useA := Entry("Foo", "f", NoList), Entry("A", "a", NoList);
    var d0, d1 := Declaration("A", List([useFoo])), Declaration("Foo", List([useA]));
    var ds := [d0, d1];
    ExpandIs(spell, map[], [useFoo], "", 0, [useFoo]);
    assert ds[..1] == [d0] && [d0][..0] == [];
    var reg1 := DeclareAll(spell, [d0]);
    assert DeclareAll(spell, []) == map[];
    assert reg1 == Declare(spell, map[], d0) == map["A" := [useFoo]];
    var inner := [Entry("Foo", "a.f", NoList)];
    assert Join("a", "f") == "a.f" && Join("", "a") == "a";
    ExpandIs(spell, reg1, [useFoo], "a", 1, inner);
    var late := [Group(spell, "struct", inner)];
    ExpandIs(spell, reg1, [useA], "", 0, late);
    var reg := DeclareAll(spell, ds);
    assert reg == reg1["Foo" := late];
    assert ReachesEntry(reg, inner[0], {"Foo"});
    assert ReachesEntry(reg, late[0], {"Foo"});
    assert ReachesEntry(reg, items[0], {"Foo"});
    CyclesFail(spell, reg, items, {"Foo"}, name, depth);
  }

  // ----- an expansion, word by word

  lemma StarOff(s: string)
    requires s == "*y" || s == "*s" || s == "*q"
    ensures Starred(s) && Without(s, '*') == s[1..]
  {
    NothingGone(s[1..], '*');
  }

  lemma PointInside(spell: Speller, reg: Registry)
    requires "short" !in reg && "int" !in reg
    ensures Expand(spell, reg, List([Entry("short", "x", NoList), Entry("int", "*y", NoList)]), "p", 1)
            == Some([Entry("short", "p.x", NoList), Entry("ptr.int", "p.y", NoList)])
  {
    StarOff("*y");
    assert Join("p", "x") == "p.x" && Join("p", "y") == "p.y" && "ptr." + "int" == "ptr.int" && "*y"[1..] == "y";
    ExpandIs(spell, reg, [Entry("short", "x", NoList), Entry("int", "*y", NoList)], "p", 1,
      [Entry("short", "p.x", NoList), Entry("ptr.int", "p.y", NoList)]);
  }

  lemma PointersStay(spell: Speller, reg: Registry)
    ensures ExpandEntry(spell, reg, Entry("char", "*s", NoList), "", 0) == Some(Entry("ptr.char", "s", NoList))
    ensures ExpandEntry(spell, reg, Entry("point", "*q", NoList), "", 0) == Some(Entry("ptr.point", "q", NoList))
  {
    StarOff("*s");
    StarOff("*q");
    assert "ptr." + "char" == "ptr.char" && "ptr." + "point" == "ptr.point" && "*s"[1..] == "s" && "*q"[1..] == "q";
  }

  /** `{point p char *s point *q union {float f} char c}` where `point` is `{short x int *y}`: the
      reference becomes a structure whose members have the path in front, pointers lose their `*` and
      get another type, a pointer to a declared structure is no reference, and groups stay. */
  lemma PointExpanded(spell: Speller)
    ensures var reg := map["point" := [Entry("short", "x", NoList), Entry("int", "*y", NoList)]];
            var point, floats := [Entry("short", "p.x", NoList), Entry("ptr.int", "p.y", NoList)], [Entry("float", "f", NoList)];
            Expand(spell, reg, List([Entry("point", "p", NoList), Entry("char", "*s", NoList), Entry("point", "*q", NoList),
                                     Entry("union", "g", List(floats)), Entry("char", "c", NoList)]), "", 0)
            == Some([Entry("struct", spell(point), List(point)), Entry("ptr.char", "s", NoList), Entry("ptr.point", "q", NoList),
                     Entry("union", spell(floats), List(floats)), Entry("char", "c", NoList)])
  {
    hide Expand, Starred, Without;
    var reg := map["point" := [Entry("short", "x", NoList), Entry("int", "*y", NoList)]];
    var point, floats := [Entry("short", "p.x", NoList), Entry("ptr.int", "p.y", NoList)], [Entry("float", "f", NoList)];
    PointInside(spell, reg);
    PointersStay(spell, reg);
    NoStars();
    ExpandIs(spell, reg, floats, "", 1, floats);
    ExpandIs(spell, reg,
      [Entry("point", "p", NoList), Entry("char", "*s", NoList), Entry("point", "*q", NoList),
       Entry("union", "g", List(floats)), Entry("char", "c", NoList)], "", 0,
      [Entry("struct", spell(point), List(point)), Entry("ptr.char", "s", NoList), Entry("ptr.point", "q", NoList),
       Entry("union", spell(floats), List(floats)), Entry("char", "c", NoList)]);
  }

  lemma NoStars()
    ensures !Starred("p") && !Starred("g") && !Starred("c") && !Starred("f")
  {
  }
}
