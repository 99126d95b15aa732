/** `Natives.getNativeStruct`: native structure descriptions of Java classes, built depth first and
    remembered, with a null placeholder for every class whose description is under construction. */
module Natives {
  import opened Options
  import opened CTypes

  type Class = nat

  /** The type of a public field: arrays, interfaces and strings are refused, the basic types and
      their wrappers have a C type, and anything else is a nested structure. */
  datatype FieldType = Unsupported | Basic(ctype: CType) | Nested(cls: Class)

  datatype JavaField = JavaField(name: string, ftype: FieldType)

  /** The loaded classes, each with its public fields in the order of their names. */
  type World = map<Class, seq<JavaField>>

  predicate Closed(w: World) {
    forall c, i :: c in w && 0 <= i < |w[c]| && w[c][i].ftype.Nested? ==> w[c][i].ftype.cls in w
  }

  /** A finished description. */
  datatype NativeStruct = NativeStruct(members: seq<Member>)
  datatype Member = Value(name: string, ctype: CType) | Struct(name: string, st: NativeStruct)

  /** `s` is the finished description of class `c`. */
  predicate Describes(w: World, c: Class, s: NativeStruct)
    decreases s
  {
    && c in w && |s.members| == |w[c]|
    && (forall i, j :: 0 <= i < j < |s.members| ==> s.members[i].name != s.members[j].name)
    && (forall i :: 0 <= i < |s.members| ==> DescribesField(w, w[c][i], s.members[i]))
  }

  predicate DescribesField(w: World, f: JavaField, m: Member)
    decreases m
  {
    match m
    case Value(name, t) => name == f.name && f.ftype == Basic(t)
    case Struct(name, st) => name == f.name && f.ftype.Nested? && Describes(w, f.ftype.cls, st)
  }

  /** A class has at most one description. */
  lemma {:induction false} DescribesOnce(w: World, c: Class, s: NativeStruct, t: NativeStruct)
    requires Describes(w, c, s) && Describes(w, c, t)
    ensures s == t
    decreases s
  {
    forall i | 0 <= i < |s.members| ensures s.members[i] == t.members[i] {
      assert DescribesField(w, w[c][i], s.members[i]) && DescribesField(w, w[c][i], t.members[i]);
      if s.members[i].Struct? {
        DescribesOnce(w, w[c][i].ftype.cls, s.members[i].st, t.members[i].st);
      }
    }
  }

  /** Member `i` of a description is field `i` in name order: under its name, with its C type or with
      the description of its class. */
  lemma MemberOfField(w: World, c: Class, s: NativeStruct, i: nat)
    requires Describes(w, c, s) && i < |s.members|
    ensures c in w && |s.members| == |w[c]| && s.members[i].name == w[c][i].name
    ensures match w[c][i].ftype
            case Unsupported => false
            case Basic(t) => s.members[i] == Value(w[c][i].name, t)
            case Nested(d) => s.members[i].Struct? && Describes(w, d, s.members[i].st)
  {
    assert DescribesField(w, w[c][i], s.members[i]);
  }

  // ----- reference paths

  predicate Refers(w: World, c: Class, d: Class) {
    c in w && exists i :: 0 <= i < |w[c]| && w[c][i].ftype == Nested(d)
  }

  /** Every class on the path has a field of the next one. */
  predicate IsPath(w: World, p: seq<Class>) {
    p != [] && forall i :: 0 <= i < |p| - 1 ==> Refers(w, p[i], p[i + 1])
  }

  /** How many structures deep a description is nested. */
  function Height(ms: seq<Member>): nat
    decreases ms
  {
    if ms == [] then 0
    else
      var rest, m := Height(ms[..|ms| - 1]), ms[|ms| - 1];
      var h := if m.Struct? then 1 + Height(m.st.members) else 0;
      if h > rest then h else rest
  }

  lemma {:induction false} HeightOfMember(ms: seq<Member>, i: nat)
    requires i < |ms| && ms[i].Struct?
    ensures Height(ms[i].st.members) < Height(ms)
    decreases |ms|
  {
    if i < |ms| - 1 {
      HeightOfMember(ms[..|ms| - 1], i);
    }
  }

  /** A described class hands a smaller description to every class it leads to. */
  lemma {:induction false} PathShrinks(w: World, p: seq<Class>, s: NativeStruct) returns (t: NativeStruct)
    requires IsPath(w, p) && Describes(w, p[0], s)
    ensures Describes(w, p[|p| - 1], t)
    ensures if |p| > 1 then Height(t.members) < Height(s.members) else t == s
    decreases p
  {
    t := s;
    if |p| > 1 {
      assert Refers(w, p[0], p[1]);
      var i :| 0 <= i < |w[p[0]]| && w[p[0]][i].ftype == Nested(p[1]);
      assert DescribesField(w, w[p[0]][i], s.members[i]);
      HeightOfMember(s.members, i);
      t := PathShrinks(w, p[1..], s.members[i].st);
    }
  }

  /** A class on a cycle has no description. */
  lemma CycleUndescribed(w: World, p: seq<Class>, s: NativeStruct)
    requires IsPath(w, p) && |p| > 1 && p[0] == p[|p| - 1]
    ensures !Describes(w, p[0], s)
  {
    var c := p[0];
    if Describes(w, c, s) {
      var t := PathShrinks(w, p, s);
      DescribesOnce(w, c, s, t);
    }
  }

  // ----- when a description exists

  predicate NamesDistinct(fs: seq<JavaField>) {
    forall i, j :: 0 <= i < j < |fs| ==> fs[i].name != fs[j].name
  }

  predicate Supported(fs: seq<JavaField>) {
    NamesDistinct(fs) && forall i :: 0 <= i < |fs| ==> !fs[i].ftype.Unsupported?
  }

  ghost predicate Reaches(w: World, c: Class, d: Class) {
    exists p :: IsPath(w, p) && p[0] == c && p[|p| - 1] == d
  }

  ghost predicate OnCycle(w: World, c: Class) {
    exists p :: IsPath(w, p) && |p| > 1 && p[0] == c && p[|p| - 1] == c
  }

  /** No cycle and no refused field anywhere a class leads to. */
  ghost predicate Sound(w: World, c: Class) {
    c in w && forall d :: Reaches(w, c, d) ==> d in w && Supported(w[d]) && !OnCycle(w, d)
  }

  lemma PathExtend(w: World, p: seq<Class>, d: Class)
    requires IsPath(w, p) && Refers(w, p[|p| - 1], d)
    ensures IsPath(w, p + [d])
  {
  }

  lemma PathFrom(w: World, p: seq<Class>, i: nat)
    requires IsPath(w, p) && i < |p|
    ensures IsPath(w, p[i..]) && p[i..][0] == p[i] && p[i..][|p[i..]| - 1] == p[|p| - 1]
  {
  }

  lemma SoundStep(w: World, c: Class, d: Class)
    requires Closed(w) && Sound(w, c) && Refers(w, c, d)
    ensures Sound(w, d)
  {
    forall e | Reaches(w, d, e) ensures e in w && Supported(w[e]) && !OnCycle(w, e) {
      var p :| IsPath(w, p) && p[0] == d && p[|p| - 1] == e;
      assert IsPath(w, [c] + p);
      assert Reaches(w, c, e);
    }
    var i :| 0 <= i < |w[c]| && w[c][i].ftype == Nested(d);
    assert w[c][i].ftype.cls in w;
  }

  lemma RepeatCloses(w: World, path: seq<Class>)
    requires IsPath(w, path) && path[|path| - 1] in path[..|path| - 1]
    ensures OnCycle(w, path[|path| - 1])
  {
    var i :| 0 <= i < |path| - 1 && path[i] == path[|path| - 1];
    PathFrom(w, path, i);
  }

  /** A sound class has a description: the path to it never closes, so it is at most as long as
      there are classes. */
  lemma {:induction false} SoundDescribed(w: World, path: seq<Class>, seen: set<Class>) returns (s: NativeStruct)
    requires Closed(w) && IsPath(w, path) && Sound(w, path[|path| - 1])
    requires seen <= w.Keys && forall c :: c in seen ==> c in path[..|path| - 1]
    ensures Describes(w, path[|path| - 1], s)
    decreases |w.Keys - seen|
  {
    var c := path[|path| - 1];
    assert IsPath(w, [c]);
    assert Reaches(w, c, c);
    if c in seen {
      RepeatCloses(w, path);
    }
    assert w.Keys - (seen + {c}) < w.Keys - seen;
    SetSmaller(w.Keys - (seen + {c}), w.Keys - seen);
    var ms: seq<Member> := [];
    while |ms| < |w[c]|
      invariant |ms| <= |w[c]|
      invariant forall i :: 0 <= i < |ms| ==> DescribesField(w, w[c][i], ms[i])
    {
      var f := w[c][|ms|];
      assert !f.ftype.Unsupported?;
      if f.ftype.Basic? {
        OneMore(w, w[c], ms, Value(f.name, f.ftype.ctype));
        ms := ms + [Value(f.name, f.ftype.ctype)];
      } else {
        assert Refers(w, c, f.ftype.cls);
        SoundStep(w, c, f.ftype.cls);
        PathExtend(w, path, f.ftype.cls);
        var st := SoundDescribed(w, path + [f.ftype.cls], seen + {c});
        OneMore(w, w[c], ms, Struct(f.name, st));
        ms := ms + [Struct(f.name, st)];
      }
    }
    s := NativeStruct(ms);
    forall i, j | 0 <= i < j < |ms| ensures ms[i].name != ms[j].name {
      assert DescribesField(w, w[c][i], ms[i]) && DescribesField(w, w[c][j], ms[j]);
    }
  }

  lemma OneMore(w: World, fs: seq<JavaField>, ms: seq<Member>, m: Member)
    requires |ms| < |fs| && DescribesField(w, fs[|ms|], m)
    requires forall i :: 0 <= i < |ms| ==> DescribesField(w, fs[i], ms[i])
    ensures forall i :: 0 <= i < |ms + [m]| ==> DescribesField(w, fs[i], (ms + [m])[i])
  {
    hide DescribesField;
  }

  lemma SetSmaller(a: set<Class>, b: set<Class>)
    requires a < b
    ensures |a| < |b|
  {
    var x :| x in b && x !in a;
    assert a <= b - {x};
    SetAtMost(a, b - {x});
  }

  lemma SetAtMost(a: set<Class>, b: set<Class>)
    requires a <= b
    ensures |a| <= |b|
  {
    if a != {} {
      var x :| x in a;
      SetAtMost(a - {x}, b - {x});
    }
  }

  lemma DescribedSupported(w: World, c: Class, s: NativeStruct)
    requires Describes(w, c, s)
    ensures Supported(w[c])
  {
    forall i | 0 <= i < |w[c]| ensures w[c][i].name == s.members[i].name && !w[c][i].ftype.Unsupported? {
      assert DescribesField(w, w[c][i], s.members[i]);
    }
  }

  lemma DescribedSound(w: World, c: Class, s: NativeStruct)
    requires Describes(w, c, s)
    ensures Sound(w, c)
  {
    forall d | Reaches(w, c, d) ensures d in w && Supported(w[d]) && !OnCycle(w, d) {
      var p :| IsPath(w, p) && p[0] == c && p[|p| - 1] == d;
      var t := PathShrinks(w, p, s);
      DescribedSupported(w, d, t);
      forall q | IsPath(w, q) && |q| > 1 && q[0] == d ensures q[|q| - 1] != d {
        if q[|q| - 1] == d {
          CycleUndescribed(w, q, t);
        }
      }
    }
  }

  /** A class has a description exactly when it leads to no cycle and to no refused field. */
  lemma DescribedIffSound(w: World, c: Class)
    requires Closed(w) && c in w
    ensures (exists s :: Describes(w, c, s)) <==> Sound(w, c)
  {
    if Sound(w, c) {
      assert IsPath(w, [c]);
      var s := SoundDescribed(w, [c], {});
      assert Describes(w, c, s);
    }
    forall s | Describes(w, c, s) ensures Sound(w, c) {
      DescribedSound(w, c, s);
    }
  }

  // ----- the memoised search

  lemma UnsupportedSpoils(w: World, c: Class, i: nat)
    requires c in w && i < |w[c]| && w[c][i].ftype.Unsupported?
    ensures forall s :: !Describes(w, c, s)
  {
    forall s | Describes(w, c, s) ensures false {
      DescribedSupported(w, c, s);
    }
  }

  lemma NestedSpoils(w: World, c: Class, i: nat)
    requires c in w && i < |w[c]| && w[c][i].ftype.Nested? && forall s :: !Describes(w, w[c][i].ftype.cls, s)
    ensures forall s :: !Describes(w, c, s)
  {
    forall s ensures !Describes(w, c, s) {
      if Describes(w, c, s) && s.members[i].Struct? {
        assert !DescribesField(w, w[c][i], s.members[i]);
      }
    }
  }

  /** The members so far describe the first fields. */
  ghost predicate DescribesSome(w: World, fs: seq<JavaField>, ms: seq<Member>) {
    && |ms| <= |fs| && NamesDistinct(fs[..|ms|])
    && forall i :: 0 <= i < |ms| ==> DescribesField(w, fs[i], ms[i]) && ms[i].name == fs[i].name
  }

  lemma NoMembers(w: World, fs: seq<JavaField>)
    ensures DescribesSome(w, fs, [])
  {
  }

  lemma NextMember(w: World, fs: seq<JavaField>, ms: seq<Member>, m: Member)
    requires DescribesSome(w, fs, ms) && |ms| < |fs| && DescribesField(w, fs[|ms|], m)
    requires forall j :: 0 <= j < |ms| ==> ms[j].name != fs[|ms|].name
    ensures DescribesSome(w, fs, ms + [m])
  {
  }

  lemma DuplicateSpoils(w: World, c: Class, ms: seq<Member>, i: nat)
    requires c in w && i == |ms| < |w[c]| && DescribesSome(w, w[c], ms)
    requires exists j :: 0 <= j < i && ms[j].name == w[c][i].name
    ensures forall s :: !Describes(w, c, s)
  {
    var j :| 0 <= j < i && ms[j].name == w[c][i].name;
    assert w[c][j].name == w[c][i].name;
    forall s | Describes(w, c, s) ensures false {
      DescribedSupported(w, c, s);
    }
  }

  lemma MembersDescribe(w: World, c: Class, ms: seq<Member>)
    requires c in w && |ms| == |w[c]| && DescribesSome(w, w[c], ms)
    ensures Describes(w, c, NativeStruct(ms))
  {
    assert w[c][..|ms|] == w[c];
  }

  /** A placeholder can only be met through the chain of calls, which then closes a cycle. */
  lemma StackCloses(w: World, stack: seq<Class>, cls: Class)
    requires IsPath(w, stack + [cls]) && cls in stack
    ensures forall s :: !Describes(w, cls, s)
  {
    var path := stack + [cls];
    var i :| 0 <= i < |stack| && stack[i] == cls;
    PathFrom(w, path, i);
    forall s ensures !Describes(w, cls, s) {
      CycleUndescribed(w, path[i..], s);
    }
  }

  /** What the memo maps a class to: null while its description is under construction. */
  type Memo = map<Class, Option<NativeStruct>>

  /** The classes under construction. */
  ghost function Placeholders(m: Memo): set<Class> {
    set c | c in m && m[c].None?
  }

  /** Every entry is a placeholder or the finished description of its class. */
  ghost predicate Entries(w: World, m: Memo) {
    forall c :: c in m ==> c in w && (m[c].Some? ==> Describes(w, c, m[c].value))
  }

  /** Nothing is forgotten or replaced. */
  ghost predicate Extends(m: Memo, m': Memo) {
    forall c :: c in m ==> c in m' && m'[c] == m[c]
  }

  ghost function Elements(s: seq<Class>): set<Class> {
    set c | c in s
  }

  /** The chain of calls on the stack: each caller is building a class with a field of the next. */
  ghost predicate Calling(w: World, m: Memo, stack: seq<Class>, cls: Class) {
    IsPath(w, stack + [cls]) && Placeholders(m) == Elements(stack)
  }

  lemma Enter(w: World, m: Memo, stack: seq<Class>, cls: Class)
    requires Entries(w, m) && cls in w && cls !in m && Placeholders(m) == Elements(stack)
    ensures var m' := m[cls := None];
            && Entries(w, m') && Placeholders(m') == Elements(stack + [cls])
            && |w.Keys - m'.Keys| < |w.Keys - m.Keys|
  {
    var m' := m[cls := None];
    forall c ensures c in Placeholders(m') <==> c in Elements(stack + [cls]) {
      assert c in Placeholders(m) <==> c in Elements(stack);
    }
    assert cls in w.Keys - m.Keys && cls !in w.Keys - m'.Keys;
    SetSmaller(w.Keys - m'.Keys, w.Keys - m.Keys);
  }

  lemma LeaveDone(w: World, m: Memo, cls: Class, m': Memo, s: NativeStruct)
    requires cls !in m && Entries(w, m') && Describes(w, cls, s)
    requires Extends(m[cls := None], m') && Placeholders(m') == Placeholders(m) + {cls}
    ensures var n := m'[cls := Some(s)];
            Entries(w, n) && Extends(m, n) && Placeholders(n) == Placeholders(m)
  {
    var n := m'[cls := Some(s)];
    forall c ensures c in Placeholders(n) <==> c in Placeholders(m) {
      assert c in Placeholders(m') <==> c in Placeholders(m) + {cls};
    }
  }

  lemma LeaveThrown(w: World, m: Memo, cls: Class, m': Memo)
    requires cls !in m && Entries(w, m')
    requires Extends(m[cls := None], m') && Placeholders(m') == Placeholders(m) + {cls}
    ensures var n := m' - {cls};
            Entries(w, n) && Extends(m, n) && Placeholders(n) == Placeholders(m)
  {
    var n := m' - {cls};
    assert forall c :: c in m ==> m[cls := None][c] == m[c];
    forall c ensures c in Placeholders(n) <==> c in Placeholders(m) {
      assert c in Placeholders(m') <==> c in Placeholders(m) + {cls};
    }
  }

  lemma PlaceholderOfCaller(m: Memo, stack: seq<Class>, cls: Class)
    requires Placeholders(m) == Elements(stack) && cls in m && m[cls].None?
    ensures cls in stack
  {
    assert cls in Placeholders(m);
  }

  lemma ExtendsMeasure(w: World, m: Memo, m': Memo)
    requires Extends(m, m')
    ensures |w.Keys - m'.Keys| <= |w.Keys - m.Keys|
  {
    SetAtMost(w.Keys - m'.Keys, w.Keys - m.Keys);
  }

  lemma NestedCall(w: World, stack: seq<Class>, cls: Class, i: nat)
    requires Closed(w) && IsPath(w, stack + [cls]) && cls in w && i < |w[cls]| && w[cls][i].ftype.Nested?
    ensures w[cls][i].ftype.cls in w && IsPath(w, (stack + [cls]) + [w[cls][i].ftype.cls])
  {
    PathExtend(w, stack + [cls], w[cls][i].ftype.cls);
  }

  lemma FieldDone(w: World, f: JavaField, s: NativeStruct)
    ensures f.ftype.Nested? && Describes(w, f.ftype.cls, s) ==> DescribesField(w, f, Struct(f.name, s))
    ensures f.ftype.Basic? ==> DescribesField(w, f, Value(f.name, f.ftype.ctype))
  {
  }

  class Natives {
    const world: World
    var structs: Memo

    constructor (w: World)
      ensures world == w && structs == map[]
    {
      world := w;
      structs := map[];
    }

    /** `getNativeStruct`.  It returns exactly when the class has a description, and on return and
        on throw alike the only placeholders left are those of the callers. */
    method GetNativeStruct(cls: Class, ghost stack: seq<Class>) returns (r: Option<NativeStruct>)
      requires Closed(world) && cls in world && Entries(world, structs) && Calling(world, structs, stack, cls)
      modifies this
      ensures Entries(world, structs) && Placeholders(structs) == old(Placeholders(structs))
      ensures Extends(old(structs), structs)
      ensures r.Some? ==> Describes(world, cls, r.value) && cls in structs && structs[cls] == r
      ensures r.None? ==> forall s :: !Describes(world, cls, s)
      decreases |world.Keys - structs.Keys|, 0
    {
      hide Describes, IsPath, Closed, Placeholders, Elements;
      ghost var m := structs;
      if cls in structs {
        r := structs[cls];
        if r.None? {
          PlaceholderOfCaller(m, stack, cls);
          StackCloses(world, stack, cls);
        }
        return;
      }
      Enter(world, m, stack, cls);
      structs := structs[cls := None];
      r := Build(cls, stack);
      ghost var m' := structs;
      ElementsAdd(m, stack, cls);
      if r.Some? {
        LeaveDone(world, m, cls, m', r.value);
        structs := structs[cls := r];
      } else {
        LeaveThrown(world, m, cls, m');
        structs := structs - {cls};
      }
    }

    /** The body of its `try`, with the placeholder of `cls` in place: None is a throw. */
    method Build(cls: Class, ghost stack: seq<Class>) returns (r: Option<NativeStruct>)
      requires Closed(world) && cls in world && Entries(world, structs) && IsPath(world, stack + [cls])
      requires Placeholders(structs) == Elements(stack + [cls])
      modifies this
      ensures Entries(world, structs) && Placeholders(structs) == old(Placeholders(structs))
      ensures Extends(old(structs), structs)
      ensures r.Some? ==> Describes(world, cls, r.value)
      ensures r.None? ==> forall s :: !Describes(world, cls, s)
      decreases |world.Keys - structs.Keys|, 2
    {
      hide *;
      var members: seq<Member>, i := [], 0;
      var fields := world[cls];
      ghost var m := structs;
      ExtendsSelf(m);
      NoMembers(world, fields);
      while i < |fields|
        invariant 0 <= i == |members| <= |fields|
        invariant Entries(world, structs) && Placeholders(structs) == Placeholders(m) && Extends(m, structs)
        invariant DescribesSome(world, fields, members)
      {
        ExtendsMeasure(world, m, structs);
        ghost var n := structs;
        var mem := BuildMember(cls, stack, i);
        ExtendsTrans(m, n, structs);
        if mem.None? {
          return None;
        }
        if exists j :: 0 <= j < |members| && members[j].name == fields[i].name {
          DuplicateSpoils(world, cls, members, i);
          return None;
        }
        NextMember(world, fields, members, mem.value);
        members := members + [mem.value];
        i := i + 1;
      }
      MembersDescribe(world, cls, members);
      r := Some(NativeStruct(members));
    }

    /** One turn of the field loop, up to the name check. */
    method BuildMember(cls: Class, ghost stack: seq<Class>, i: nat) returns (r: Option<Member>)
      requires Closed(world) && cls in world && Entries(world, structs) && IsPath(world, stack + [cls])
      requires Placeholders(structs) == Elements(stack + [cls]) && i < |world[cls]|
      modifies this
      ensures Entries(world, structs) && Placeholders(structs) == old(Placeholders(structs))
      ensures Extends(old(structs), structs)
      ensures r.Some? ==> DescribesField(world, world[cls][i], r.value)
      ensures r.None? ==> forall s :: !Describes(world, cls, s)
      decreases |world.Keys - structs.Keys|, 1
    {
      hide *;
      var f := world[cls][i];
      ghost var m := structs;
      ExtendsSelf(m);
      if f.ftype.Unsupported? {
        UnsupportedSpoils(world, cls, i);
        return None;
      }
      if f.ftype.Basic? {
        FieldDone(world, f, NativeStruct([]));
        return Some(Value(f.name, f.ftype.ctype));
      }
      NestedCall(world, stack, cls, i);
      CallingIs(world, m, stack + [cls], f.ftype.cls);
      var st := GetNativeStruct(f.ftype.cls, stack + [cls]);
      if st.None? {
        NestedSpoils(world, cls, i);
        return None;
      }
      FieldDone(world, f, st.value);
      r := Some(Struct(f.name, st.value));
    }
  }

  lemma ElementsAdd(m: Memo, stack: seq<Class>, cls: Class)
    requires Placeholders(m) == Elements(stack)
    ensures Elements(stack + [cls]) == Placeholders(m) + {cls}
  {
  }

  lemma ExtendsSelf(m: Memo)
    ensures Extends(m, m)
  {
  }

  lemma ExtendsTrans(m: Memo, n: Memo, k: Memo)
    requires Extends(m, n) && Extends(n, k)
    ensures Extends(m, k)
  {
  }

  lemma CallingIs(w: World, m: Memo, stack: seq<Class>, cls: Class)
    requires IsPath(w, stack + [cls]) && Placeholders(m) == Elements(stack)
    ensures Calling(w, m, stack, cls)
  {
  }

  /** A search from the outside leaves no placeholder, and succeeds exactly when the class leads to
      no cycle and no refused field. */
  method Describe(n: Natives, cls: Class) returns (r: Option<NativeStruct>)
    requires Closed(n.world) && cls in n.world && Entries(n.world, n.structs) && Placeholders(n.structs) == {}
    modifies n
    ensures Entries(n.world, n.structs) && Placeholders(n.structs) == {} && Extends(old(n.structs), n.structs)
    ensures r.Some? <==> Sound(n.world, cls)
    ensures r.Some? ==> Describes(n.world, cls, r.value)
  {
    assert [] + [cls] == [cls];
    r := n.GetNativeStruct(cls, []);
    DescribedIffSound(n.world, cls);
  }
}
