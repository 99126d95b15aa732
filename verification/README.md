# C/Invoke: a verified model

C/Invoke calls C functions whose prototypes are only known at run time, and lays out C structures
from textual definitions. This project models its core and proves what it promises:

* **Structures.** The Tcl binding expands a definition (`Expand.dfy`), compiles it with three cursors
  into a flat table of members (`Structure.dfy`, whose meaning is `Compile.dfy`), and reads and writes
  instances by member name (`Instances.dfy`). The reference is section 6.7.2.1 of ISO C11
  (`Layout.dfy`); `CompileTheorem.dfy` says exactly when the compiler meets it. `Ownership.dfy` runs
  calls on several structures at once; `Guards.dfy` says which array accesses the compiled table lets
  through, `Placing.dfy` where it has put every leaf, and `PortLayouts.dfy` gives the offsets of every
  port and type as numbers. `Unions.dfy`, `FlatStructs.dfy` and
  `TypeLookup.dfy` build on that; `Paths.dfy`, `PathNames.dfy` and `PathLayout.dfy` follow references to
  declared structures, whose members get dotted names, from the text to the table.
* **The member index.** The chained hash table with heap-linked entries, its growth, and iterators
  that remove while iterating (`Chains.dfy`, `HashTable.dfy`, `Iterators.dfy`).
* **Calls.** The stack side of a call and of a callback (`Calls.dfy`) and the register side of four
  ports (`Sparc.dfy`, `X64.dfy`, `Ppc.dfy`, `X86Win.dfy`). For each port one method carries every
  parameter through the whole path, out through `invoke` and back in through the callback thunk.
  `Numbers.dfy` says which numbers machine words stand for.
* **The Java binding.** The memoised search that builds native descriptions of classes
  (`Natives.dfy`) and the marshalling of arrays (`Marshalling.dfy`).
* **The debug allocator** (`MemDebug.dfy`) and the **text of tagged pointers** (`PointerText.dfy`).

`CTypes.dfy`, `Definitions.dfy` and `Memory.dfy` hold what they share: types and sizes, definition
trees and names, bytes and machine words. `dafny verify dfyconfig.toml` checks everything.

## Where the code departs from its intent

Each departure is proved, with the exact condition under which the code does what it is for.

* A union placed after another union restarts at the first one's offset. The compiled table equals the
  C11 layout if and only if the definition is `Separated`: every union starts past the end of the
  member before it (`LayoutTheorem`, `AdjacentUnionsOverlap`).
* `insert_union_struct` adds the base offset to each byte extent, and a direct member of a union gets
  the union's extent so far. So every recorded extent is the member's own size plus an excess that
  `Excess` reads off the definition, and the bounds check of that member is sound if and only if the
  excess is below its element count (`GuardTheorem`; it fails in `ShiftedPairUnguarded` by the base and
  in `LongOrCharUnguarded` without one).
* The bounds check `(sz + 1) * index > extent` takes a C `int` and lets every negative index through,
  which always leaves the member (`NegativeEscapes`). Outside unions what it lets through stays inside
  the member if and only if the index is not negative (`AdmittedInside`), and it admits all elements
  only up to one more than the element size (`AdmitsAll`).
* An insert that meets a shared name stops half way: the child keeps everything it had, and what was
  taken by then is listed by both structures (`Structures.Structure.InsertStruct`). Over every run of
  calls up to such an insert each record and key string has one owner (`Ownership.Run`).
* `get_type_from_name` does not strip `*`, so it agrees with the member table if and only if the
  definition is `ListPlain` (`LookupTheorem`).
* A failed growth in `hashtable_insert` leaves the count one too high; the model carries that excess
  as `lost`. A run refuses nothing, and the count stays the number of entries, if and only if the same
  calls on a plain map stay within the load limit of the largest table (`NothingRefused`). The removing
  loop reads through null exactly on an empty table with a positive count, the visiting loop on any
  empty table (`RemoveAll`, `VisitAll`).
* The x64 register test calls a floating parameter past the eighth a register parameter while fewer
  than six integers precede it. Exactly these are never delivered (`X64.CallThrough`, `NinthDoubleLost`).
* On SPARC and PPC an 8-byte value in two registers, and on the 32-bit ports an 8-byte return value,
  is recombined with a sign-extended low word. It is right if and only if the low word's top bit is
  clear or the high word is all ones (`SpillExact`, and the `Delivered` lemmas).
* A declared structure named like a pointer type (`ptr.X`) makes a second expansion differ
  (`ExpandTwiceExact`), and so does one named `struct` or `union` (`KeywordDeclared`). A reference with
  an empty name loses its path (`PathExact`).
* A reference written as an array, `Pt pts(3)`, loses its members: `parseArray` cuts `pts(3).x` to an
  array `pts` (`ArrayOfReferencesLost`, `ArrayOfReferencesRefused`). Every member of a referenced
  structure is in the table under the reference's name, with its own type and count, if and only if
  that name `Carries` each member text: a name with a parenthesis after its first token must not read
  as an array, and the structure must then have no array member; and without such a parenthesis only a
  member text that itself begins with one can be misread (`CarriesExact`, `ReferenceExact`).
* A type name declared after its first use can make a structure unusable (`LateDeclaration`). An
  expansion succeeds if and only if no chain of references and groups is longer than the depth that is
  left and every list on it is well formed (`ExpandExact`), and a declared structure can be used if and
  only if the chains from it are short enough (`DeclaredUsable`).
* A null pointer or boxed number in a field is handed to native code, which asks for its class; a null
  object, or a null number as an array element, throws. The first null in field order decides which
  (`FieldsFate`), and marshalling succeeds if and only if there is none (`DoneExactly`).
* A debug block of 2^32 - 1 bytes passes for freed and can never be freed (`MemDebug.Heap.Free`). The
  recorded maximum is the largest value of the size counter so far if and only if no release takes the
  counter below zero (`total % 2^32 < room % 2^32`) and so to a value above it (`MemDebug.TopExact`;
  `MaximumMissed` frees the first of 3 GB and 3.75 GB); it is the true peak while that fits in 32 bits
  (`MemDebug.Run`).
* Going through its text gives a pointer without a tag an empty tag, which changes what it unwraps as
  in exactly the cases `TextKeepsUnwrapping` states.

## Model

| member | source | states |
|---|---|---|
| CompileTheorem.LayoutTheorem | cinvoke-1.0/bindings/tcl/cinvoke_tclcmd.c:2331-2431 | For every definition list: it compiles exactly when it is non-empty, has no array directly in a union and no name twice; then the table holds exactly its names, and every leaf has its C11 offset and type if and only if the list is Separated, in which case the size is the C11 size as well |
| CompileTheorem.UnionHolds | cinvoke-1.0/bindings/tcl/cinvoke_tclcmd.c:2223-2330 | The same for a compiled union and everything nested in it |
| CompileTheorem.StructAccepts | cinvoke-1.0/bindings/tcl/cinvoke_tclcmd.c:2343-2424 | `CreateStruct` succeeds exactly on acceptable lists, and the table then has exactly the names of the list |
| CompileTheorem.UnionAccepts | cinvoke-1.0/bindings/tcl/cinvoke_tclcmd.c:2235-2325 | `CreateUnion` succeeds exactly on acceptable lists |
| CompileTheorem.UnionSize | cinvoke-1.0/bindings/tcl/cinvoke_tclcmd.c:2318-2325 | The finished size of a compiled union is that of its largest member rounded up to the union's alignment |
| CompileTheorem.PlaceStructMoved | cinvoke-1.0/lib/structure.c:335-361 | Moving a nested structure moves each of its leaves by the same distance: flattening by adding the base preserves places |
| CompileTheorem.CompiledNotEmpty | cinvoke-1.0/lib/structure.c:335-341 | A compiled child has at least one member, so the insert loops never start on an empty table |
| Layout.StartLeast | cinvoke-1.0/bindings/tcl/cinvoke_tclcmd.c:2331-2431 | In the reference each member starts at the least offset that is aligned for it and past the end of the one before |
| Layout.PlaceFits | cinvoke-1.0/bindings/tcl/cinvoke_tclcmd.c:2331-2431 | In the reference every leaf is aligned for its type and lies within what contains it |
| Layout.PlaceApart | cinvoke-1.0/bindings/tcl/cinvoke_tclcmd.c:2331-2431 | In the reference no two leaves of a union-free definition share a byte |
| Layout.SizeMultiple | cinvoke-1.0/lib/structure.c:433-451 | Every reference size is a multiple of its alignment |
| Rounding.RoundUpLeast | cinvoke-1.0/lib/structure.c:112-113 | The padding arithmetic yields the least multiple of the alignment that is not below the offset |
| Structures.Structure.constructor | cinvoke-1.0/lib/structure.c:60-80 | A new structure is empty, unfinished, with all cursors at their start |
| Structures.Structure.AddMemberValue | cinvoke-1.0/lib/structure.c:137-194 | Fails exactly when finished or the name is taken, and then changes nothing; otherwise the whole new state is that of `AddMember`, with one fresh record and one fresh key string owned in addition |
| Structures.Structure.AddMemberArray | cinvoke-1.0/lib/structure.c:81-136 | The same for an array of `n` elements |
| Structures.Structure.AddMemberUnion | cinvoke-1.0/lib/structure.c:195-251 | The same for an alternative of a union, with both cursors aligned |
| Structures.Structure.TakeMembers | cinvoke-1.0/lib/structure.c:335-361 | Takes over every record and key string of the child, in place and in any order: offsets move by the base, extents grow, names, records and keys are exactly those of both; it fails exactly on a shared name, and then states what has been taken and that both structures list it |
| Structures.Structure.InsertStruct | cinvoke-1.0/lib/structure.c:310-369 | Success condition and whole new state; ownership of the child's records and key strings moves here and the child is left with none; a refusal moves nothing; a shared name leaves the child as it was, what was taken listed by both, and the parent's cursors padded |
| Structures.Structure.InsertUnionStruct | cinvoke-1.0/lib/structure.c:370-432 | The same, including the restart at `lastoffset`, the grown extents, and the alignment and cursors that stay after a refusal or a shared name |
| Structures.Structure.FinishStruct | cinvoke-1.0/lib/structure.c:433-451 | Rounds the size up to the alignment once; a second call changes nothing and fails |
| Structures.Structure.Delete | cinvoke-1.0/lib/structure.c:658-677 | The drain loop ends with nothing owned and frees every record and every key string that was owned exactly once |
| Ownership.Run | cinvoke-1.0/lib/structure.c:60-677 | Over every run of create, addmember, insert, finish and delete calls on any number of structures, up to an insert that meets a shared name: every reply and every state is that of the run on values; each record and key string ever made, one of each per member added, is owned by exactly one live structure or was freed exactly once; with no structure left everything has been freed once |
| Ownership.Perform | cinvoke-1.0/lib/structure.c:60-677 | One call of such a run: it answers and changes the live structures as on values and keeps the ownership |
| Ownership.AddPlaces | cinvoke-1.0/lib/structure.c:81-251 | A call that adds a member adds its name and type, at the end of what is there padded up, or for a union at its start padded up |
| Ownership.NestPlaces | cinvoke-1.0/lib/structure.c:310-432 | An insert adds the child's names and types and moves each offset by the same distance, to the padded end of the parent, or for a union to the padded start of its last one |
| Ownership.Merges | cinvoke-1.0/lib/structure.c:345-366 | After an insert the child's records and key strings are the parent's and nobody else's |
| Ownership.Frees | cinvoke-1.0/lib/structure.c:658-677 | After a delete what the structure owned is in the list of what was freed, once, and nobody else's is |
| Ownership.AllFreed | cinvoke-1.0/lib/structure.c:658-677 | When no structure owns anything, what was freed is all that was made, without repetition |
| Structures.CreateStruct | cinvoke-1.0/bindings/tcl/cinvoke_tclcmd.c:2331-2431 | The loop computes `CompileStruct`, so that LayoutTheorem applies, and with it the offsets and sizes of PortLayouts in numbers; all records of the result are fresh and owned by it alone |
| PortLayouts.AfterChar | cinvoke-1.0/lib/arch/gcc_x64_unix.c:278-324 | For each port and each of the eight types: `CreateStruct` puts the second member of `{char c; T x}` at the offset that is written out as a number, records its size in bytes, and finishes with the size that is written out (on PPC with the clamping of later alignments off); on x64 the offsets are 1, 2, 4, 8, 8, 4, 8, 8 |
| PortLayouts.ArrayAfterChar | cinvoke-1.0/lib/structure.c:107-125 | The same for an array of n elements behind a char: same offset, n times the bytes, and the size rounded up to the same number |
| PortLayouts.OffsetsSuit | cinvoke-1.0/lib/structure.c:81-432 | In the table of every accepted definition, whatever is nested in it, the offset of every leaf is a multiple of the number that belongs to its type on its port |
| Structures.AddElement | cinvoke-1.0/bindings/tcl/cinvoke_tclcmd.c:2348-2424 | One turn of the loop: value, array, nested structure or union |
| Structures.CreateUnion | cinvoke-1.0/bindings/tcl/cinvoke_tclcmd.c:2223-2330 | The loop with `maxoffset` computes `UnionBody` |
| Structures.AddAlternative | cinvoke-1.0/bindings/tcl/cinvoke_tclcmd.c:2243-2317 | One turn of the union loop |
| Structures.LoopFails | cinvoke-1.0/bindings/tcl/cinvoke_tclcmd.c:2348-2424 | Leaving the loop at the first bad element gives the result of the whole list |
| Unions.UnionTheorem | cinvoke-1.0/bindings/tcl/cinvoke_tclcmd.c:2223-2330 | Every acceptable union compiles; its direct members are all at offset 0, its alignment is the largest one, its size the largest member rounded up to it |
| Unions.UnionOrderIrrelevant | cinvoke-1.0/bindings/tcl/cinvoke_tclcmd.c:2223-2330 | Whether a union compiles, its size and its alignment are the same for every order of the members |
| Unions.AcceptedAnyOrder | cinvoke-1.0/bindings/tcl/cinvoke_tclcmd.c:2235-2325 | Acceptance of a member list does not depend on its order |
| Unions.AdjacentUnionsOverlap | cinvoke-1.0/bindings/tcl/cinvoke_tclcmd.c:2382-2386 | Two adjacent one-int unions share offset 0 in the code and are 4 apart in C11 |
| Placing.CodePlaces | cinvoke-1.0/bindings/tcl/cinvoke_tclcmd.c:2331-2431 | For every accepted definition, adjacent unions included: the compiled table puts each leaf at the sum of the code's starts on the way to it, which depend on the definition alone |
| Placing.PutListC11 | cinvoke-1.0/bindings/tcl/cinvoke_tclcmd.c:2331-2431 | By the starts of C11 the same sums are the reference layout |
| FlatStructs.FlatWellPlaced | cinvoke-1.0/bindings/tcl/cinvoke_tclcmd.c:2331-2431 | Every accepted union-free definition compiles to aligned, pairwise disjoint ranges inside the finished size |
| FlatStructs.ExtentsExact | cinvoke-1.0/lib/structure.c:116-121 | Outside unions each recorded extent is the element count times the element size |
| FlatStructs.UnionFreeSeparated | cinvoke-1.0/bindings/tcl/cinvoke_tclcmd.c:2331-2431 | Without unions the condition of LayoutTheorem always holds |
| Layout.UnionFreeIs | cinvoke-1.0/bindings/tcl/cinvoke_tclcmd.c:2331-2431 | A definition counts as union-free exactly when no union occurs in it at any depth |
| Instances.LensLaw | cinvoke-1.0/lib/structure.c:521-651 | Without unions: every run of set, zero, set-element and zero-element calls with indices that are not negative stays inside the instance, and each element reads back the last bytes written to it by an accepted call, and otherwise what it held |
| Instances.ByteLaw | cinvoke-1.0/lib/structure.c:521-651 | On any structure and for every run of calls that stays in memory, each byte is what the last accepted call that covers it wrote |
| Instances.ElementLaw | cinvoke-1.0/lib/structure.c:521-651 | On any structure, unions and negative indices included: an element that every accepted call of a run writes as a whole or not at all reads back the last bytes written to it |
| Instances.StepRead | cinvoke-1.0/lib/structure.c:521-651 | One call changes the element it addresses to the bytes it copies, and no element that it does not touch |
| Instances.ElementsApart | cinvoke-1.0/lib/structure.c:596-600 | Without unions different elements never overlap |
| Instances.AdmittedInside | cinvoke-1.0/lib/structure.c:592-596 | Outside unions an admitted access stays inside its member exactly when the index is not negative |
| Instances.NegativeEscapes | cinvoke-1.0/lib/structure.c:592-596 | Every negative index is admitted and addresses bytes below the member |
| Instances.AdmitsAll | cinvoke-1.0/lib/structure.c:592-596 | The check admits all `n` elements exactly when `n` is at most the element size plus one |
| Instances.ExcessGuard | cinvoke-1.0/lib/structure.c:592-596 | A record whose extent exceeds its own size by an excess is guarded exactly when the excess is below the element count |
| Guards.GuardTheorem | cinvoke-1.0/lib/structure.c:195-432 | For every accepted definition and every leaf of it: the recorded extent is the leaf's size plus the excess that its enclosing unions give it, and the bounds check is sound for it exactly when that excess is below its element count |
| Guards.BaseIsOffset | cinvoke-1.0/lib/structure.c:389-393 | The base that is added is the C11 offset of the union, wherever the layout is the C11 layout |
| Guards.ShiftedPairUnguarded | cinvoke-1.0/lib/structure.c:413-414 | In `double x; union {struct {char y(2)}}` the two-byte array gets extent 10, and index 5 is admitted |
| Guards.LongOrCharUnguarded | cinvoke-1.0/lib/structure.c:241-244 | In `union {long x; char y}` on x64 `y` gets extent 8, and index 4 is admitted |
| Instances.GetMember | cinvoke-1.0/lib/structure.c:500-520 | Finds exactly the recorded names, with their offset, size and extent |
| Instances.SetElement | cinvoke-1.0/lib/structure.c:541-606 | `setvalue` and `setarrayvalue` do exactly one step of the lens, or nothing and report failure; in bytes: on success the element's bytes are the first of the value and every other byte of memory is as before; success is exactly an existing member and, with an index, the check against its extent |
| Instances.ZeroElement | cinvoke-1.0/lib/structure.c:521-632 | `zerovalue` and `zeroarrayvalue` likewise, with bytes 0 |
| Instances.ZeroIn | cinvoke-1.0/lib/structure.c:533-537 | The zeroing loop writes zeros to the member's bytes and nothing else |
| Instances.GetElement | cinvoke-1.0/lib/structure.c:564-651 | Yields the position of an existing, admitted element, below the member for a negative index, and null otherwise |
| TypeLookup.LookupTheorem | cinvoke-1.0/bindings/tcl/cinvoke_tclcmd.c:950-1014 | Types in the member table are those of the definition; and the type lookup agrees with the table on every name, array count and byte size if and only if the definition is ListPlain |
| TypeLookup.GetTypeFromName | cinvoke-1.0/bindings/tcl/cinvoke_tclcmd.c:950-1014 | For every definition list and name: what is found is the type written before some member text, at any depth, that is cut to the name, with the count in that text; nothing is found exactly when no member text is cut to it; the recursive search takes the first one |
| TypeLookup.TypeFound | cinvoke-1.0/bindings/tcl/cinvoke_tclcmd.c:976-1006 | In an accepted ListPlain definition each member is found under its name with the very type written before it and with its count; the table has that type too, or a pointer where the text has a star |
| TypeLookup.FoundType | cinvoke-1.0/bindings/tcl/cinvoke_tclcmd.c:994-1003 | Conversely, for every name that is found there: the answer is the type written before a member text with that name, and the type the table records unless that text has a star |
| Definitions.RemoveChar | cinvoke-1.0/bindings/tcl/cinvoke_tclcmd.c:825-841 | Deletes every occurrence of a character in place and moves the terminator along |
| Definitions.WithoutJoins | cinvoke-1.0/bindings/tcl/cinvoke_tclcmd.c:825-841 | What is left of a text is what is left of its parts, whichever way it is cut in two |
| Definitions.CharGone | cinvoke-1.0/bindings/tcl/cinvoke_tclcmd.c:825-841 | No occurrence of the character is left |
| Definitions.NothingGone | cinvoke-1.0/bindings/tcl/cinvoke_tclcmd.c:825-841 | A text without the character stays as it is |
| Definitions.MemberTexts | cinvoke-1.0/bindings/tcl/cinvoke_tclcmd.c:2394-2424 | The four kinds of member text: `x`, `x(n)`, `*x` and `*x(n)` give a plain value, an array of n, a pointer and an array of n pointers, all named x |
| Definitions.ArrayNameReads | cinvoke-1.0/bindings/tcl/cinvoke_tclcmd.c:727-756 | `parseArray` reads `base(n)` back as the base and the number, for every base without parentheses |
| Definitions.CountReads | cinvoke-1.0/bindings/tcl/cinvoke_tclcmd.c:744-754 | For every text between the parentheses: none is no array, a leading space gives 0, any other text gives the number it starts with; a missing last parenthesis does not matter |
| Definitions.SignedReads | cinvoke-1.0/bindings/tcl/cinvoke_tclcmd.c:748 | Numbers in text: a sign may precede the digits and blanks the sign |
| Definitions.ParseArrayIdempotent | cinvoke-1.0/bindings/tcl/cinvoke_tclcmd.c:727-756 | A name that has been cut is not cut again |
| Expansion.ParseStruct | cinvoke-1.0/bindings/tcl/cinvoke_tclcmd.c:1947-2051 | The recursive loop computes `Expand`, entry by entry, and terminates for every registry |
| Expansion.ExpandExact | cinvoke-1.0/bindings/tcl/cinvoke_tclcmd.c:1947-2051 | For every registry, definition and depth: expansion succeeds exactly when no chain of references and groups from the definition is longer than the depth that is left and every list on the way is non-empty and well formed |
| Expansion.DeclaredUsable | cinvoke-1.0/bindings/tcl/cinvoke_tclcmd.c:2856-2892 | After every run of declarations a declared structure can be used at a depth exactly when the chains of references from it fit in the depth below |
| Expansion.CyclesFail | cinvoke-1.0/bindings/tcl/cinvoke_tclcmd.c:1959-1963 | A definition that leads into structures that only lead to one another is refused, whatever the depth it starts at |
| Expansion.ExpandShallower | cinvoke-1.0/bindings/tcl/cinvoke_tclcmd.c:1959-1963 | The starting depth decides on success only, never on the result |
| Expansion.ExpandShape | cinvoke-1.0/bindings/tcl/cinvoke_tclcmd.c:1977-2046 | A result consists of non-empty `struct` and `union` groups and unstarred members only |
| Expansion.PointExpanded | cinvoke-1.0/bindings/tcl/cinvoke_tclcmd.c:1977-2046 | A whole expansion, word by word: a reference to a declared structure, two pointers, a union and a plain member |
| Expansion.ExpandTwice | cinvoke-1.0/bindings/tcl/cinvoke_tclcmd.c:1947-2051 | Expanding a result again under the same registry returns it unchanged, if no declared structure is named like a keyword or a pointer type |
| Expansion.ExpandTwiceExact | cinvoke-1.0/bindings/tcl/cinvoke_tclcmd.c:2025-2027 | Over all definitions, and registries that declare no structure named `struct` or `union`, that holds exactly when no declared structure has the name of a pointer type |
| Expansion.RegistryExpanded | cinvoke-1.0/bindings/tcl/cinvoke_tclcmd.c:2856-2892 | After every run of declarations the registry holds fully expanded definitions only |
| Expansion.LateDeclaration | cinvoke-1.0/bindings/tcl/cinvoke_tclcmd.c:2856-2892 | The witness: declaring `A {Foo f}` and then `Foo {A a}` makes every use of `Foo` fail |
| Paths.ExpandUnder | cinvoke-1.0/bindings/tcl/cinvoke_tclcmd.c:1989-2003 | Expanding under a path puts the path in front of each leaf and changes nothing else |
| Paths.PathExact | cinvoke-1.0/bindings/tcl/cinvoke_tclcmd.c:1989-2003 | That holds for every path exactly when no reference of the definition has an empty member name |
| Paths.KeywordDeclared | cinvoke-1.0/bindings/tcl/cinvoke_tclcmd.c:1977-2012 | With a structure declared as `struct` or `union`, expanding a group of that keyword a second time gives a different result, given that the text of a list does not begin with a star and is longer than the path in front of its names |
| PathNames.CarriesExact | cinvoke-1.0/bindings/tcl/cinvoke_tclcmd.c:727-756 | For every path and every unstarred member text: the path ends up in front of the member's name and leaves type and count alone if and only if it carries the text, which one can read off the two texts |
| PathNames.OnlyCarried | cinvoke-1.0/bindings/tcl/cinvoke_tclcmd.c:727-756 | A path that does not carry a member text makes the name and count it should have given unreachable: no text of any other member gives them |
| PathNames.KeptCarried | cinvoke-1.0/bindings/tcl/cinvoke_tclcmd.c:2394-2424 | If all members of a structure are found under a path in any table, the path carries them all |
| PathNames.OneName | cinvoke-1.0/bindings/tcl/cinvoke_tclcmd.c:727-756 | A path that itself reads as an array gives all members one and the same name |
| PathLayout.PutListUnder | cinvoke-1.0/bindings/tcl/cinvoke_tclcmd.c:2014-2046 | A path that carries all member texts leaves all places, types and sizes as they are, by the code's rule and by that of C11 |
| PathLayout.NestedPart | cinvoke-1.0/lib/structure.c:335-361 | Wherever in a definition an element is nested, its leaves lie where its own layout puts them, moved by the sum of the starts on the way, by the code's rule and by that of C11 |
| PathLayout.PathOffset | cinvoke-1.0/lib/structure.c:345-352 | By either rule the offset of `p.x` is the offset of `p` plus the offset of `x` in its own structure, for a `p` anywhere inside structures and unions that carries the structure's members |
| PathLayout.PathSum | cinvoke-1.0/lib/structure.c:345-352 | By either rule the offset of `p.q. .. .x` is the sum of the offsets of the references along the path plus that of `x` in the last structure |
| PathLayout.ReferencedMember | cinvoke-1.0/bindings/tcl/cinvoke_tclcmd.c:1989-2008 | From text to finished table, along any path of references that carry the members referred to, each at any nesting inside groups: the recorded offset is the sum of the code's offsets on the way plus the recorded offset of the member in the compiled structure referred to last, and the type is its own; adjacent unions make no difference |
| PathLayout.ReferencedMemberC11 | cinvoke-1.0/bindings/tcl/cinvoke_tclcmd.c:1989-2008 | Where the definition is Separated, these are sums of C11 offsets |
| PathLayout.ReferenceExact | cinvoke-1.0/bindings/tcl/cinvoke_tclcmd.c:1989-2008 | For every definition that compiles and refers to a declared structure anywhere: all members of that structure are in the table under the reference's name, with their own types and counts, if and only if the name carries their texts |
| PathLayout.ArrayOfReferencesLost | cinvoke-1.0/bindings/tcl/cinvoke_tclcmd.c:727-756 | With `Pt {int x}` declared, `Pt pts(3)` compiles to a table whose only member is an array `pts` of three ints |
| PathLayout.ArrayOfReferencesRefused | cinvoke-1.0/bindings/tcl/cinvoke_tclcmd.c:727-756 | With `Pt {int x int y}` declared it is refused for a repeated name |
| HashTables.CreateHashtable | cinvoke-1.0/lib/hashtable.c:59-84 | Null exactly for a minimum size above 2^30; otherwise a new table models the empty map and is longer than the minimum size |
| HashTables.PrimesSuit | cinvoke-1.0/lib/hashtable.c:46-54 | The table lengths start at 53 and about double from each to the next, and none has a factor below 47 |
| HashTables.HashTable.Locate | cinvoke-1.0/lib/hashtable.c:207-222 | Walks one bucket and finds the entry of a key, with its predecessor, exactly when the map has the key |
| HashTables.HashTable.Search | cinvoke-1.0/lib/hashtable.c:206-222 | Search agrees with the map on every key |
| HashTables.HashTable.Insert | cinvoke-1.0/lib/hashtable.c:183-203 | A fresh key is added to the map unless growth was needed and impossible; then nothing changes but the count |
| HashTables.HashTable.Expand | cinvoke-1.0/lib/hashtable.c:113-168 | Growth moves to the next prime, keeps the same entries and the same map, and gives the chains of `Rehashed` |
| HashTables.MoveChain | cinvoke-1.0/lib/hashtable.c:127-137 | One old chain is moved entry by entry to the heads of the new chains |
| HashTables.RehashKeepsEntries | cinvoke-1.0/lib/hashtable.c:126-138 | Expansion keeps the multiset of entries |
| HashTables.PickedReverses | cinvoke-1.0/lib/hashtable.c:127-137 | Entries of one old chain that stay together come out in reverse order |
| HashTables.HashTable.Remove | cinvoke-1.0/lib/hashtable.c:224-255 | Removes exactly the key and returns its value, null when absent |
| HashTables.Run | cinvoke-1.0/lib/hashtable.c:177-255 | Over every run of insertions of names just searched for, searches and removals, across any number of expansions, every reply is that of the model, which is a map, an excess and a table length, and the count is the map's size plus the excess |
| HashTables.NothingRefused | cinvoke-1.0/lib/hashtable.c:177-203 | A run refuses nothing exactly when the same calls on a plain map stay within the load limit of the largest table; then its map is the plain one and the count its size |
| HashTables.LoadFactorGrows | cinvoke-1.0/lib/hashtable.c:56-82 | The load limits of a factor of 0.65, rounded up, grow with the table's length, as NothingRefused asks |
| HashTables.RepliesPlain | cinvoke-1.0/lib/hashtable.c:177-255 | In a run that refuses nothing every reply is that of a plain map after the calls before it, across all growth |
| HashTables.StepRoomy | cinvoke-1.0/lib/hashtable.c:181-187 | An insertion into a table that has refused nothing is refused exactly when the key is new and the count exceeds the limit of the largest table |
| HashTables.Call | cinvoke-1.0/lib/structure.c:147-181 | One such call; an insertion is refused exactly when the key is new, the count with it exceeds the load limit and the table has its last length |
| HashTables.CutOut | cinvoke-1.0/lib/hashtable.c:236-247 | Unlinks one entry at a chain head or in mid-chain and leaves the other links alone |
| Chains.BucketedDrop | cinvoke-1.0/lib/hashtable.c:236-247 | Without one entry the chains remain disjoint, in their buckets and without duplicates |
| Iterators.Iterator.constructor | cinvoke-1.0/lib/hashtable.c:289-310 | A new iterator stands at the first entry, with all entries still to come |
| Iterators.Iterator.Advance | cinvoke-1.0/lib/hashtable.c:328-364 | Moves along the chain or to the head of the next non-empty bucket, and keeps the parent link |
| Iterators.Iterator.Step | cinvoke-1.0/lib/hashtable.c:328-364 | Exactly one entry leaves the list of those still to come |
| Iterators.Iterator.Remove | cinvoke-1.0/lib/hashtable.c:373-399 | Removes exactly the current entry, at chain heads, in mid-chain and after a search, and stands at the next one with a right parent link |
| Iterators.Iterator.Find | cinvoke-1.0/lib/hashtable.c:402-429 | Finds a key exactly when it is there and knows its parent; otherwise the iterator stays put |
| Iterators.VisitAll | cinvoke-1.0/lib/structure.c:335-361 | The visiting loop meets every entry of the table exactly once; it reads through null exactly on an empty table |
| Iterators.RemoveAll | cinvoke-1.0/lib/structure.c:662-672 | The removing loop terminates, frees every entry exactly once and leaves an empty table; it reads through null exactly on an empty table with a positive count |
| Iterators.FlatExact | cinvoke-1.0/lib/hashtable.c:289-364 | The order of iteration lists every entry of the table once |
| Calls.ComputeStackSize | cinvoke-1.0/lib/cinvoke.c:291-312 | Creation fails exactly when the true byte sum exceeds 32767; otherwise the 16-bit counter holds the true sum |
| Calls.PutStack | cinvoke-1.0/lib/cinvoke.c:372-408 | All writes stay within the stack size and every stack parameter ends up, padded, at its position |
| Calls.PutParam | cinvoke-1.0/lib/cinvoke.c:398-404 | One parameter is written with zero padding at its most significant end, in either byte order |
| Calls.ReadFrame | cinvoke-1.0/lib/cinvoke.c:446-494 | The thunk reads each stack parameter from its position; register parameters keep their buffers |
| Calls.StackDelivers | cinvoke-1.0/lib/cinvoke.c:372-494 | For every prototype, both byte orders, registers counted or not, what invoke puts on the stack is what the thunk reads |
| Calls.StackBytes | cinvoke-1.0/lib/cinvoke.c:394-406 | Every byte of a parameter's room on the stack: its value, and zeros at the other end |
| Memory.Put | cinvoke-1.0/lib/cinvoke.c:329-335 | The copy loop writes exactly the given bytes |
| Memory.SpillExact | cinvoke-1.0/lib/arch/gcc_sparc_unix.c:226-227 | Combining a high word shifted by 32 with a signed low word gives the right value exactly when its top bit is clear or the high word is all ones |
| Numbers.WidenedNumber | cinvoke-1.0/lib/arch/gcc_sparc_unix.c:160-188 | C's conversion to a wider signed type, in both byte orders: the wider word stands for the same two's-complement number |
| Sparc.IsRegisterParm | cinvoke-1.0/lib/arch/gcc_sparc_unix.c:147-159 | A parameter is a register parameter exactly when the words up to and including it are at most six |
| Sparc.SetParm | cinvoke-1.0/lib/arch/gcc_sparc_unix.c:160-188 | The register file after one parameter: a narrow value's register stands for the same two's-complement number, a 4-byte value is loaded byte for byte, of an 8-byte value the high word goes first and the low word only where there is a next register; every other register keeps its contents |
| Sparc.SetRegisterParms | cinvoke-1.0/lib/arch/gcc_sparc_unix.c:190-205 | For every parameter list: the parameter whose words start at w is in register w as far as it fits, in the sense of SetParm; registers past the last word are untouched |
| Sparc.StackInNumbers | cinvoke-1.0/lib/arch/gcc_sparc_unix.c:308-354 | The stack side in numbers, for every parameter list: the first parameter is at 0, and each one takes 8 bytes for ExtraLong and Double and 4 for every other type, register parameters included; the value lies at the end of its room, with zeros before it |
| Sparc.GetRegisterParms | cinvoke-1.0/lib/arch/gcc_sparc_unix.c:239-254 | What each buffer holds after the register read |
| Sparc.Delivered | cinvoke-1.0/lib/arch/gcc_sparc_unix.c:206-238 | A parameter comes back exactly, unless it is an 8-byte one wholly in registers whose low word spills |
| Sparc.GarbledIs | cinvoke-1.0/lib/arch/gcc_sparc_unix.c:206-238 | That exception: an ExtraLong or Double within the first six words whose byte 4 has its top bit set and whose first four bytes are not all ones |
| Sparc.CallThrough | cinvoke-1.0/lib/cinvoke.c:346-408 | For every parameter list that fits: every parameter, including one split between the last register and the stack, is returned, with that one exception |
| X64.IsRegisterParm | cinvoke-1.0/lib/arch/gcc_x64_unix.c:114-125 | The register test: a Float or Double with fewer than eight such types before it, or any parameter with fewer than six other types before it |
| X64.TestMeetsRule | cinvoke-1.0/lib/arch/gcc_x64_unix.c:124 | The test follows section 3.2.3 of the System V AMD64 ABI for exactly the parameters that are not lost |
| X64.LostIs | cinvoke-1.0/lib/arch/gcc_x64_unix.c:124 | Lost is exactly a Float or Double with eight or more such types and fewer than six others before it |
| X64.NinthDoubleLost | cinvoke-1.0/lib/arch/gcc_x64_unix.c:124 | With nine doubles the last one is lost |
| X64.SetRegisterParms | cinvoke-1.0/lib/arch/gcc_x64_unix.c:127-175 | For every parameter list: a Float or Double with fewer than eight such types before it is in the SSE register of that number, byte for byte; any other parameter with fewer than six such before it is in the integer register of that number, which then stands for the number the parameter stands for; a list of floating types only leaves the integer registers alone, and one without any the SSE registers |
| X64.StackInNumbers | cinvoke-1.0/lib/arch/gcc_x64_unix.c:278-324 | The stack side in numbers, for every parameter list: the first parameter is at 0, and each one takes 4 bytes for a Float and 8 for every other type, none for a register parameter; the value lies at the start of its room, with zeros behind it |
| X64.GetRegisterParms | cinvoke-1.0/lib/arch/gcc_x64_unix.c:176-224 | What each buffer holds after the register read |
| X64.Delivered | cinvoke-1.0/lib/arch/gcc_x64_unix.c:127-224 | Each parameter is read from the place it was put, except a lost one, which was put nowhere |
| X64.CallThrough | cinvoke-1.0/lib/cinvoke.c:346-408 | For every parameter list that fits: each parameter comes back, or its fresh buffer does if it is lost |
| Ppc.IntsAhead | cinvoke-1.0/lib/arch/gcc_ppc_osx.c:198-209 | The word-register count is never behind the floating one |
| Ppc.IsRegisterParm | cinvoke-1.0/lib/arch/gcc_ppc_osx.c:194-211 | The register test, in counts of floating types and of words up to and including the parameter |
| Ppc.TestMeetsLoops | cinvoke-1.0/lib/arch/gcc_ppc_osx.c:210 | The test agrees with what the set and get loops go by, but for an 8-byte integer at the last word register |
| Ppc.SetInt | cinvoke-1.0/lib/arch/gcc_ppc_osx.c:226-247 | The word registers after one parameter, as numbers: as on SPARC, with eight registers |
| Ppc.SetRegisterParms | cinvoke-1.0/lib/arch/gcc_ppc_osx.c:249-272 | For every parameter list: each of the first thirteen floating parameters is in the floating register of its number, and each integer within the first eight words in the word registers of its place, standing for the same number; the others' registers are untouched |
| Ppc.StackInNumbers | cinvoke-1.0/lib/arch/gcc_ppc_osx.c:389-435 | The stack side in numbers, for every parameter list: the first parameter is at 0, and each one takes 8 bytes for ExtraLong and Double and 4 for every other type, register parameters included; the value lies at the end of its room, with zeros before it |
| Ppc.GetRegisterParms | cinvoke-1.0/lib/arch/gcc_ppc_osx.c:312-335 | What each buffer holds after the register read |
| Ppc.Delivered | cinvoke-1.0/lib/arch/gcc_ppc_osx.c:274-310 | Every parameter is read from the one place it was put, unless it is an 8-byte integer whose low word spills |
| Ppc.GarbledIs | cinvoke-1.0/lib/arch/gcc_ppc_osx.c:274-310 | That exception: an ExtraLong within the first eight words whose byte 4 has its top bit set and whose first four bytes are not all ones |
| Ppc.SomeFpu | cinvoke-1.0/lib/arch/gcc_ppc_osx.c:249-272 | Conversions between `float` and `double` of which the second undoes the first, as the next row takes them to be, exist |
| Ppc.CallThrough | cinvoke-1.0/lib/cinvoke.c:346-408 | The same for whole parameter lists, straddling integers included |
| X86Win.IsRegisterParm | cinvoke-1.0/lib/arch/gcc_x86_win.c:140-152 | The first two word-sized integers of a fastcall function; leaving the loop early changes nothing |
| X86Win.SetRegisterParms | cinvoke-1.0/lib/arch/gcc_x86_win.c:190-207 | The first two such parameters of a fastcall function are in their registers and stand for the same numbers, and a register without a parameter is untouched |
| X86Win.StackInNumbers | cinvoke-1.0/lib/arch/gcc_x86_win.c:281-327 | The stack side in numbers, for every parameter list: the first parameter is at 0, and each one takes 8 bytes for ExtraLong and Double and 4 for every other type, none for a register parameter; the value lies at the start of its room, with zeros behind it |
| X86Win.GetRegisterParms | cinvoke-1.0/lib/arch/gcc_x86_win.c:209-226 | What each buffer holds after the register read |
| X86Win.Delivered | cinvoke-1.0/lib/arch/gcc_x86_win.c:153-189 | Every parameter is read from the one place it was put |
| X86Win.CallThrough | cinvoke-1.0/lib/cinvoke.c:346-408 | For every convention and every parameter list that fits, all parameters come back |
| Returns.ArchRetValue.SetExtraLong | cinvoke-1.0/lib/arch/gcc_x86_win.c:267-270 | The two words joined are the value |
| Returns.ArchRetValue.GetExtraLong | cinvoke-1.0/lib/arch/gcc_x86_win.c:240-244 | An 8-byte return value comes back exactly when its low word does not spill |
| Returns.TopBitGarbles | cinvoke-1.0/lib/arch/gcc_x86_win.c:240-244 | 2^31 comes back with all high bits set |
| Natives.Natives.GetNativeStruct | cinvoke-1.0/bindings/java/org/cinvoke/Natives.java:453-512 | Terminates on every class graph; returns the description of the class exactly when there is one; on return and on throw the placeholders are the callers' and every other entry is a finished description |
| Natives.Natives.Build | cinvoke-1.0/bindings/java/org/cinvoke/Natives.java:461-504 | The `try` body, with its own placeholder in place |
| Natives.Natives.BuildMember | cinvoke-1.0/bindings/java/org/cinvoke/Natives.java:467-498 | One field: refused types and nested failures throw, anything else gives its member |
| Natives.Describe | cinvoke-1.0/bindings/java/org/cinvoke/Natives.java:453-512 | From outside: succeeds exactly when the class leads to no cycle and to no refused or duplicate field, and leaves no placeholder |
| Natives.DescribedIffSound | cinvoke-1.0/bindings/java/org/cinvoke/Natives.java:457-459 | A class has a description exactly when no cycle and no refused field can be reached from it |
| Natives.DescribesOnce | cinvoke-1.0/bindings/java/org/cinvoke/Natives.java:453-456 | A class has at most one description, so the memo cannot matter |
| Natives.MemberOfField | cinvoke-1.0/bindings/java/org/cinvoke/Natives.java:463-498 | Member i of a description is field i in name order, with its name and with its C type or its class's description |
| Natives.CycleUndescribed | cinvoke-1.0/bindings/java/org/cinvoke/Natives.java:457-459 | A class on a cycle has no description |
| Natives.StackCloses | cinvoke-1.0/bindings/java/org/cinvoke/Natives.java:457-459 | Meeting a placeholder means that the chain of calls closes a cycle |
| Marshalling.LayOut | cinvoke-1.0/lib/structure.c:252-309 | The cursors of `addmember_value`, `addmember_struct` and `finish` put every member at its C11 offset |
| Marshalling.MembersApart | cinvoke-1.0/lib/structure.c:252-309 | Members follow one another inside the structure |
| Marshalling.HoldsFrame | cinvoke-1.0/bindings/java/org/cinvoke/Natives.java:350-382 | What a place holds depends only on the bytes of that place |
| Marshalling.MarshalStruct | cinvoke-1.0/bindings/java/org/cinvoke/Natives.java:350-382 | Every field of the object tree goes to its own place and no byte outside is touched; how it ends is decided by the first null in field order |
| Marshalling.MarshalMember | cinvoke-1.0/bindings/java/org/cinvoke/Natives.java:366-376 | One field, nested or basic; a null that is not an object goes to native code |
| Marshalling.DoneExactly | cinvoke-1.0/bindings/java/org/cinvoke/Natives.java:350-382 | Marshalling a typed tree succeeds exactly when there is no null in it |
| Marshalling.FateByFirstNull | cinvoke-1.0/bindings/java/org/cinvoke/Natives.java:350-382 | For every object tree: its first null decides how marshalling ends; where an object belongs it throws, where a number or a pointer belongs native code is handed the null; without one it succeeds |
| Marshalling.UnmarshalStruct | cinvoke-1.0/bindings/java/org/cinvoke/Natives.java:310-348 | Reads the object that the memory holds |
| Marshalling.HoldsOnce | cinvoke-1.0/bindings/java/org/cinvoke/Natives.java:310-382 | Memory holds at most one value of a type: reading inverts writing |
| Marshalling.HeldTyped | cinvoke-1.0/bindings/java/org/cinvoke/Natives.java:310-382 | What is read from memory is a typed tree without nulls, so it can be marshalled again |
| Marshalling.MarshalArray | cinvoke-1.0/bindings/java/org/cinvoke/Natives.java:407-429 | Element `i` goes to `i` element sizes and the buffer is filled exactly; it succeeds exactly when every null stands for a pointer; then the bytes of a null pointer are all 0, eight on x64 and four elsewhere, and any other element is there as it was; otherwise the first element with another null decides how it ends |
| Marshalling.FirstElementDecides | cinvoke-1.0/bindings/java/org/cinvoke/Natives.java:384-429 | The first element that cannot be marshalled: a null throws; an object with a null in it ends as its first null says |
| Marshalling.WrittenIs | cinvoke-1.0/bindings/java/org/cinvoke/Natives.java:384-387 | A null pointer that has become address 0 is zeros in memory |
| Marshalling.ElementsDone | cinvoke-1.0/bindings/java/org/cinvoke/Natives.java:384-429 | An array is marshalled exactly when no null is left once null pointers have become address 0 |
| Marshalling.UnmarshalArray | cinvoke-1.0/bindings/java/org/cinvoke/Natives.java:431-451 | Reads element `i` from `i` element sizes |
| Marshalling.ArrayThrough | cinvoke-1.0/bindings/java/org/cinvoke/Natives.java:407-451 | Every array of basic values or of nested objects comes back as it went in, null pointers as eight or four bytes of 0, exactly when no other null is in it; the element class must lead to no cycle and no refused field |
| MemDebug.ReadWrite32 | cinvoke-1.0/bindings/tcl/memdbg.c:22-33 | A little-endian word is read back as written |
| MemDebug.WordBytes | cinvoke-1.0/bindings/tcl/memdbg.c:22-33 | A word lies in memory with its low byte first |
| MemDebug.BlockIs | cinvoke-1.0/bindings/tcl/memdbg.c:35-57 | A block in numbers: the two magic words of its header, its size field, 16 bytes past the user's, and a guard that is intact exactly when its four bytes are B3 DE ED CE |
| MemDebug.GuardReads | cinvoke-1.0/bindings/tcl/memdbg.c:111 | The guard reads back its magic and leaves the user's bytes before it alone |
| MemDebug.GuardInside | cinvoke-1.0/bindings/tcl/memdbg.c:56-57 | The guard lies inside its block, also when the size field has wrapped |
| MemDebug.Heap.Malloc | cinvoke-1.0/bindings/tcl/memdbg.c:97-128 | The new block heads the chain of live blocks, with its magic numbers, its size and the four guard bytes behind the user's; the counters are right modulo 2^32 |
| MemDebug.Heap.Free | cinvoke-1.0/bindings/tcl/memdbg.c:130-146 | An intact block leaves chain and count; a damaged one, or one of size 2^32 - 1, changes nothing; all other blocks keep their bytes and guards |
| MemDebug.Heap.TakeOut | cinvoke-1.0/bindings/tcl/memdbg.c:137-145 | The same, once the check has passed |
| MemDebug.Heap.Realloc | cinvoke-1.0/bindings/tcl/memdbg.c:156-183 | The block keeps its place in the chain whether or not it moved, with its contents, a new guard and new counts; all other blocks keep their bytes and guards |
| MemDebug.Heap.Resize | cinvoke-1.0/bindings/tcl/memdbg.c:164-182 | The same, once the check has passed |
| MemDebug.Heap.Replace | cinvoke-1.0/bindings/tcl/memdbg.c:166-178 | A block that the system moved is linked where the old one was |
| MemDebug.Heap.Poke | cinvoke-1.0/bindings/tcl/memdbg.c:58-61 | Writes inside the user's bytes keep the heap well-formed and the guard intact, unless the size field has wrapped |
| MemDebug.Heap.Check | cinvoke-1.0/bindings/tcl/memdbg.c:80-95 | Passes exactly for an intact guard and a size other than 2^32 - 1 |
| MemDebug.CountsGrow | cinvoke-1.0/bindings/tcl/memdbg.c:123-125 | The counter stays the live total modulo 2^32 and the maximum the true peak as long as that fits in 32 bits |
| MemDebug.Run | cinvoke-1.0/bindings/tcl/memdbg.c:97-183 | Over every run of malloc, free, realloc and writes of the program inside its blocks: the chain is exactly the live blocks, every guard lies inside its block and is intact unless the size field has wrapped, every answer is right, the count is the live total modulo 2^32, the maximum is the peak while that fits in 32 bits, and it is right beyond that under the exact condition of TopExact |
| MemDebug.TopExact | cinvoke-1.0/bindings/tcl/memdbg.c:123-125 | Over every run that starts with the counter not above the maximum: the recorded maximum is the largest value of the counter after every call exactly when no release takes the counter below zero to a value above it, in terms of the live bytes before the release and the size of the block |
| MemDebug.MaximumMissed | cinvoke-1.0/bindings/tcl/memdbg.c:123-139 | Allocating 0xC0000000 and 0xF0000000 bytes and freeing the first leaves the counter at 0xF0000000 and the maximum at 0xC0000000 |
| MemDebug.MaximumMissedWraps | cinvoke-1.0/bindings/tcl/memdbg.c:123-139 | That run fails the condition of TopExact |
| MemDebug.Perform | cinvoke-1.0/bindings/tcl/memdbg.c:97-183 | One call of such a run |
| PointerText.PrintParses | cinvoke-1.0/bindings/tcl/pointerhelper.c:86-198 | For every address and every tag text, `^` included, the printed pointer parses to the same address and tag; no tag becomes an empty one |
| PointerText.PrintIs | cinvoke-1.0/bindings/tcl/pointerhelper.c:155-198 | The printed text: `0x`, 8 or 16 lower-case hexadecimal digits with leading zeros, each the right one, `^` and the tag |
| PointerText.Limits | cinvoke-1.0/bindings/tcl/pointerhelper.c:101-131 | The first address that does not fit is 2^32 on 32-bit platforms and 2^64 on 64-bit ones |
| PointerText.ParsePrints | cinvoke-1.0/bindings/tcl/pointerhelper.c:86-198 | For every accepted text, printing the parsed pointer gives a text that parses to the same pointer and prints as itself |
| PointerText.PrintInjective | cinvoke-1.0/bindings/tcl/pointerhelper.c:173-198 | Different pointers have different texts |
| PointerText.ParseAccepts | cinvoke-1.0/bindings/tcl/pointerhelper.c:86-140 | The accepted texts are `NULL`, which is address 0 without a tag, and those that begin with blanks, perhaps a sign, and a decimal digit |
| PointerText.ParseDecimal | cinvoke-1.0/bindings/tcl/pointerhelper.c:103-132 | Decimal texts with a tag: the number is the address; too large a one becomes the last address, and a minus sign counts down from the end of memory |
| PointerText.TextKeepsUnwrapping | cinvoke-1.0/bindings/tcl/pointerhelper.c:215-249 | Exactly when going through its text changes what a pointer unwraps as |
| PointerText.TclObj.SetPointerFromAny | cinvoke-1.0/bindings/tcl/pointerhelper.c:86-153 | Succeeds exactly on texts that stand for a pointer and keeps the value |
| PointerText.TclObj.GetString | cinvoke-1.0/bindings/tcl/pointerhelper.c:173-198 | Fills in the missing text and keeps the value |
| PointerText.TclObj.Shimmer | cinvoke-1.0/bindings/tcl/pointerhelper.c:64-73 | Losing the internal representation keeps the value |
| PointerText.TclObj.Unwrap | cinvoke-1.0/bindings/tcl/pointerhelper.c:215-253 | Returns the address exactly when the value is a pointer and no tag is expected, or it is null without a tag, or it has a tag and the two tags are the same or one of them is `ptr` |
| PointerText.WrapUnwrap | cinvoke-1.0/bindings/tcl/pointerhelper.c:43-62 | A pointer wrapped under a tag unwraps under another exactly when they are the same or one of them is `ptr`, and always where none is expected, also after its text was all that was left |

## Left out

- Ownership.Run: allocation succeeds; it stops before an insert that meets a shared name, and a position without a structure, a structure inserted into itself and an empty child are no calls. Members of structure type (`addmember_struct`) do not occur.
- Structures.Structure.TakeMembers: member tables are maps here; that the hash table refines a map is proved in `HashTable.dfy`.
- Structures.Structure.AddMemberArray: byte sizes and offsets are unbounded, so the overflow of a C `int` in a structure of more than 2^31 bytes is not modelled.
- Instances.AdmittedInside: the overflow of `(sz + 1) * index` in a C `int` is not modelled.
- Instances.ByteLaw: accesses outside the memory that the model has are not calls of a run; a negative index can leave the instance, not that memory.
- HashTables.CreateHashtable: the load limit is any function of the length; NothingRefused takes it to grow with the length, as it does for the library's factor but for the rounding of a C `float`.
- HashTables.HashTable.Insert: keys are fresh, as in every call of the library; the 32-bit wrap of the count is not modelled, and allocation succeeds, so the second branch of `hashtable_expand` does not arise.
- HashTables.HashTable.Remove: `hashtable_destroy` is not modelled as a loop of its own; a structure drains its table before it (`Iterators.RemoveAll`).
- Expansion.ParseStruct: a starred name loses its `*` in the caller's own list as well; the model leaves the caller's list alone. How Tcl spells a list is a parameter.
- PathLayout.ReferencedMember: the resolution of type names is a parameter. References inside the structures on the path have names (PathExact says what happens otherwise).
- X64.CallThrough: the assembly that loads and saves registers and moves the stack pointer is not modelled, on any port: the callee sees the registers and the stack that were set up.
- Ppc.CallThrough: conversions between `float` and `double` are any pair of which the second undoes the first.
- Marshalling.MarshalArray: a Java number is the bytes of its native value, so values are within the native range; arrays of arrays, of strings and of callbacks, and a buffer of more than 2^31 bytes, are not modelled.
- Natives.Natives.GetNativeStruct: `short`, `int` and `long` fields, whose codes the C library does not know, do not occur; native handles that a nested throw leaks are not counted.
- MemDebug.Heap.Realloc: the system's allocation succeeds, and only pointers from the allocator are passed in.
- PointerText.ParsePrints: a `0x` that no hexadecimal digit follows is read as its zero.
- The clamping of later alignments on PPC (`ARCH_CLAMP_NONFIRST_STRUCTALIGN`) is taken as 0; the PPC numbers of `PortLayouts.dfy` are those without it.
- Members of structure type in the C interface together with unions (`addmember_struct` leaves `lastoffset` behind): neither binding combines them.
- Ports whose stack grows up: none of the ports modelled has one.
- The Tcl, Java and Lua command layers, error messages, libraries and entry points, callback stubs, and the release of strings that a structure's pointers refer to.
