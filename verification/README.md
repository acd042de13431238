# Polymorphism-with-interfaces checker, modelled in Dafny

The repository is a Java assignment on interface polymorphism. Its
`AutoGrader.testPolymorphismWithInterfaces(filePath)` reads a submitted Java
file, parses it with JavaParser and inspects the syntax tree against a fixed
checklist. It returns `true` only if all three gates hold:

1. Existence gate. Classes or interfaces named `Animal`, `Dog`, `Cat`,
   `Speakable` and `Runnable` are declared.
2. Pair gate. Each of `Animal`, `Dog` and `Cat` lists both `Speakable` and
   `Runnable` under `implements`. The six pairs are checked in a fixed order.
3. Invocation gate. Some method named `main` that has a body calls `speak` or
   `run` somewhere inside that body.

A missing file gives `false` without a parse. A path that exists but cannot
be opened raises an `IOException`. So does a parse that yields no
compilation unit. A unit returned together with parse problems is checked
like any other.

This project models that checker from the file path onwards.

- `wrappers.dfy` (`Wrappers`): the `Option` type.
- `ast.dfy` (`Ast`): the part of the JavaParser tree the checker can see.
  - `TypeDecl` nodes have a kind, a simple name, `implements` and `extends`
    name lists, and members.
  - `MethodDecl` nodes have a name, a signature and an optional body. The
    signature holds the annotations, type parameters, parameters and thrown
    types, and the walk visits it.
  - `Call` nodes are method calls with their simple name.
  - Every other node is `Other` and keeps only its children.
  - `findAll` is the pre-order walk `Descendants`. The walk includes nested,
    local and anonymous types and methods, which `findAll` visits too.
- `conformance.dfy` (`Conformance`): the checklist and the verdict.
  - Three declarative predicates read the tree directly: `Declares`,
    `Implements` and `CallsInMain`.
  - The checker's own computation is `CheckUnit`. It runs a declaration scan
    that sets flags, then the three gates in the checker's order.
  - `Grade` adds the file handling. A `Submission` is `Absent`,
    `Unopenable`, or `Opened` with the parser's optional result.
  - An `Outcome` is a returned `Verdict` or a raised `IoError`.
  - `Verdict` records which gate decided: `Pass`, `NoFile`, `MissingDecl`,
    `PairMissing(cls, iface)` or `NoCallInMain`. Only `Pass` is the checker's
    `true`.
- `single_pass.dfy` (`SinglePass`): the checker as its Java code computes it.
  - Boolean flags are only ever set, in a loop over the type declarations.
  - Then comes a chain of early returns, then a loop over the methods.
  - It is proved to compute `CheckUnit`.
  - The eleven declaration flags are kept in two records: five name flags
    and six pair flags. Each loop iteration runs the name tests
    (`ObserveNames`) and then the `implements` tests (`ObservePairs`). The
    Java code interleaves these per class. No flag's update reads another flag,
    so the order makes no difference.
- `properties.dfy` (`Properties`): how verdicts on related units compare.
  - It defines a growth order on trees: more declarations, more `implements`
    names, more methods and calls.
  - Growth never turns a pass into a failure.
  - The verdict is blind to what the flags cannot see: declaration order and
    repetition, `extends` clauses, class versus interface, and the names of
    enums and records.
- `examples.dfy` (`Examples`): the reference solution passes, and small
  submissions each fail at the gate they should.

Three facts about the Java code shape the model:

- Every method named `main` is scanned, nested ones included, and any one of
  them can satisfy the gate (AutoGrader.java:160-171).
- A path that exists but cannot be opened (a directory, an unreadable file)
  makes `new FileInputStream` throw. That call is at line 27, outside the
  `try`, so the model gives `Raised(OpenFailed)`.
- Only an empty parse result raises (lines 31-32). The parse problems are
  never read, so a unit returned with problems is `Opened(Some(u))` and is
  checked.

## Model

| member | source | states |
|---|---|---|
| Ast.TypeDeclarations | src/test/java/testutils/AutoGrader.java:56 | the declarations scanned are exactly the type declarations anywhere in the unit, nested ones included |
| Ast.MethodDeclarations | src/test/java/testutils/AutoGrader.java:160 | the methods scanned are exactly the method declarations anywhere in the unit |
| Ast.CallsWithin | src/test/java/testutils/AutoGrader.java:163 | the calls scanned are exactly the call nodes at any depth of the body |
| Ast.InDescendantsOfAll | src/test/java/testutils/AutoGrader.java:56 | a node is visited by `findAll` over the unit exactly when it lies in the subtree of one top-level declaration |
| Conformance.ScanDeclarationsMeaning | src/test/java/testutils/AutoGrader.java:56-118 | after the declaration scan, a name flag is set exactly when some class or interface has that required name, and a pair flag is set exactly when some class or interface named after the class lists the interface under `implements` |
| Conformance.DeclarationFlags | src/test/java/testutils/AutoGrader.java:56-118 | the flags of the scan over `findAll(TypeDeclaration.class)` are exactly the required names the unit declares and the table pairs it implements |
| Conformance.AnyTargetCall | src/test/java/testutils/AutoGrader.java:163-168 | the flag is set exactly when some call is named `speak` or `run` |
| Conformance.ScanMains | src/test/java/testutils/AutoGrader.java:160-171 | the invocation flag is set exactly when some method is a `main` with a body holding a `speak` or `run` call |
| Conformance.MainFlag | src/test/java/testutils/AutoGrader.java:160-171 | over the whole unit, the invocation flag is set exactly when some `main` anywhere calls `speak` or `run` in its body |
| Conformance.FirstMissing | src/test/java/testutils/AutoGrader.java:131-156 | no pair is reported exactly when all pairs are met; otherwise the reported index is unmet and every earlier pair is met |
| Conformance.CheckUnit | src/test/java/testutils/AutoGrader.java:56-180 | passes exactly when all five names are declared, all six pairs implemented and some `main` calls `speak` or `run`; `MissingDecl` exactly when a name is missing, whatever the pairs and calls; otherwise the first unmet pair in table order; `NoCallInMain` exactly when only the invocation gate fails |
| Conformance.Grade | src/test/java/testutils/AutoGrader.java:18-36 | a missing file is exactly the `NoFile` failure, with no parse; an unopenable file, or a parse that yields no unit, raises instead of returning; a parsed unit returns `Pass` exactly when it conforms |
| Properties.GrowthCovers | src/test/java/testutils/AutoGrader.java:56-171 | a grown unit declares, implements and calls in `main` at least what the original does |
| Properties.GrowthKeepsPass | src/test/java/testutils/AutoGrader.java:56-171 | adding declarations, `implements` names, methods or calls anywhere never turns a pass into a failure |
| Properties.SameFlagsSameVerdict | src/test/java/testutils/AutoGrader.java:121-176 | units on which the name, pair and invocation flags agree get the same verdict |
| Properties.MutualGrowthSameVerdict | src/test/java/testutils/AutoGrader.java:56-180 | units that each grow into the other get the same verdict |
| Properties.DeclarationOrderIrrelevant | src/test/java/testutils/AutoGrader.java:56-118 | permuting or repeating top-level declarations leaves the verdict unchanged |
| Properties.AppendingKeepsPass | src/test/java/testutils/AutoGrader.java:56-118 | appending declarations to a passing unit keeps it passing |
| Properties.ReplaceGrows | src/test/java/testutils/AutoGrader.java:56-118 | replacing one declaration by a grown one grows the declaration list |
| Properties.ReplaceIndistinguishable | src/test/java/testutils/AutoGrader.java:56-180 | replacing a top-level declaration by one that grows into it and back leaves the verdict unchanged |
| Properties.ExtendsIgnored | src/test/java/testutils/AutoGrader.java:64-72 | only `getImplementedTypes` is read: rewriting the `extends` clause of a top-level declaration never changes the verdict; the nested case follows from `MutualGrowthSameVerdict` |
| Properties.ClassOrInterfaceAlike | src/test/java/testutils/AutoGrader.java:57-58 | a top-level class and an interface with the same name and `implements` list count alike; the nested case follows from `MutualGrowthSameVerdict` |
| Properties.OtherTypeDeclarationsIgnored | src/test/java/testutils/AutoGrader.java:57 | a top-level enum, record or annotation type sets no flag: renaming it or changing its `implements` list never changes the verdict; the nested case follows from `MutualGrowthSameVerdict` |
| Properties.MoreImplementsKeepsPass | src/test/java/testutils/AutoGrader.java:64-72 | extra names in an `implements` clause never turn a pass into a failure |
| Properties.LaterPairsIrrelevant | src/test/java/testutils/AutoGrader.java:131-156 | once all names are declared, the reported pair is the first unmet one, whatever the later pairs are |
| Properties.OneCallSuffices | src/test/java/testutils/AutoGrader.java:160-176 | with the declarations passing, one call to either `speak` or `run` inside any `main` body makes the unit pass |
| SinglePass.ScanImplemented | src/test/java/testutils/AutoGrader.java:64-73 | the two flags are set exactly when the `implements` list names `Speakable` and `Runnable` respectively |
| SinglePass.ObserveNames | src/test/java/testutils/AutoGrader.java:57-116 | the name tests for one declaration keep the five name flags equal to those of the functional scan |
| SinglePass.ObservePairs | src/test/java/testutils/AutoGrader.java:57-106 | the `implements` tests for one declaration keep the six pair flags equal to those of the functional scan |
| SinglePass.ScanTypes | src/test/java/testutils/AutoGrader.java:56-118 | the loop over the type declarations ends with the flags of the functional declaration scan |
| SinglePass.FoundMeaning | src/test/java/testutils/AutoGrader.java:121-126 | the existence gate passes exactly when every required name is declared |
| SinglePass.ImplMeaning | src/test/java/testutils/AutoGrader.java:131-156 | each pair flag read by the pair gate is set exactly when its pair is met |
| SinglePass.ScanCalls | src/test/java/testutils/AutoGrader.java:163-168 | the flag is set exactly when some call of the body is named `speak` or `run` |
| SinglePass.ScanMethods | src/test/java/testutils/AutoGrader.java:160-171 | the flag is set exactly when some `main` with a body calls `speak` or `run` |
| SinglePass.CheckParsed | src/test/java/testutils/AutoGrader.java:56-180 | the flag loops and early returns give the verdict of `CheckUnit` |
| SinglePass.CheckSubmission | src/test/java/testutils/AutoGrader.java:18-180 | the whole method, from the path on, gives the outcome of `Grade` |
| Examples.ReferencePasses | src/main/java/com/yaksha/assignment/PolymorphismWithInterfacesAssignment.java:4-68 | the reference solution passes every gate |
| Examples.CatWithoutRunnableReported | src/test/java/testutils/AutoGrader.java:153-156 | a `Cat` implementing only `Speakable` is reported as the pair (Cat, Runnable) |
| Examples.ExtendsIsNotImplements | src/test/java/testutils/AutoGrader.java:140-143 | a `Dog` that only extends `Animal` is reported as missing (Dog, Speakable) |
| Examples.EnumIsNotAClass | src/test/java/testutils/AutoGrader.java:121-126 | an `enum Animal` fails the existence gate |
| Examples.PrintingMainFails | src/test/java/testutils/AutoGrader.java:173-176 | a `main` that only prints fails the invocation gate |
| Examples.CallThroughHelperFails | src/test/java/testutils/AutoGrader.java:160-176 | a `speak` call in a helper that `main` calls does not count |

## Left out

- The `System.out.println` trace. It is diagnostic only, and the `Verdict`
  constructor records which gate decided.
- JavaParser's parsing. The parser's result is an input, an optional
  compilation unit; `None` is the `orElseThrow` path.
- The file system. Whether the file exists and whether it can be opened are
  inputs (`Absent`, `Unopenable`), not checks the model performs.
- The `FileInputStream` is never closed in the code. Resource handling is not
  modelled.
- `AtomicBoolean`. It serves only as a mutable cell inside lambdas, so the
  model uses plain booleans and sets.
- The tree records only what the checker reads. Names are simple names.
  Qualified `implements` names such as `a.b.Speakable` are taken as
  `getNameAsString` returns them, so they are assumed already reduced. A type
  declaration's annotations and type parameters sit among its members as
  `Other` nodes. The type arguments of `implements` and `extends` entries are
  dropped, since only the names are read. Modifiers are dropped. Every other
  statement or expression is an `Other` node that keeps only its children. A method's
  annotations, parameters and thrown types sit in its signature.
- The demo classes themselves. `PolymorphismWithInterfacesAssignment.java`
  is used only as the example input of `Examples.ReferencePasses`.
- Idempotence of the checker. Every member is a pure function of its input,
  so running it twice on the same file gives the same answer by
  construction.
