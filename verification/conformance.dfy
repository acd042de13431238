/** The checker's checklist and its verdict on a parsed compilation unit.

    `CheckUnit` computes the verdict the way the checker does: one scan over the
    type declarations sets "found" and "implements" flags, one scan over the
    methods named `main` sets the invocation flag, and three gates read the
    flags in a fixed order. Its contract states the verdict in terms of the
    declarative predicates `Declares`, `Implements` and `CallsInMain`, which
    speak about the tree directly. */
module Conformance {
  import opened Wrappers
  import opened Ast

  const Classes: seq<string> := ["Animal", "Dog", "Cat"]
  const Interfaces: seq<string> := ["Speakable", "Runnable"]
  const RequiredNames: seq<string> := Classes + Interfaces

  /** The implementation pairs, in the order the checker checks them. */
  const Pairs: seq<(string, string)> :=
    [ ("Animal", "Speakable"), ("Animal", "Runnable"),
      ("Dog", "Speakable"), ("Dog", "Runnable"),
      ("Cat", "Speakable"), ("Cat", "Runnable") ]

  const EntryPoint: string := "main"
  const TargetMethods: seq<string> := ["speak", "run"]

  /** Which gate decided. Only `Pass` makes the checker return `true`; the
      existence gate does not say which name is missing. */
  datatype Verdict =
    | Pass
    | NoFile
    | MissingDecl
    | PairMissing(cls: string, iface: string)
    | NoCallInMain
  {
    /** The boolean the checker returns. */
    predicate Passed() { this == Pass }
  }

  /** The `IOException`s the checker lets escape. */
  datatype IoError = OpenFailed | ParseFailed

  datatype Outcome = Returned(verdict: Verdict) | Raised(error: IoError)

  /** What the file path leads to: no file, a file that cannot be opened for
      reading, or a file whose parse did or did not produce a unit. */
  datatype Submission = Absent | Unopenable | Opened(parsed: Option<CompilationUnit>)

  // ---------------------------------------------------------------------
  // The checklist, read declaratively over the tree
  // ---------------------------------------------------------------------

  /** Some class or interface among `ds` is named `name`. */
  ghost predicate DeclaredAmong(ds: seq<Node>, name: string) {
    exists d :: d in ds && IsClassOrInterface(d) && d.name == name
  }

  /** Some class or interface among `ds` named `cls` lists `iface` in its
      `implements` clause. */
  ghost predicate ImplementedAmong(ds: seq<Node>, cls: string, iface: string) {
    exists d :: d in ds && IsClassOrInterface(d) && d.name == cls && iface in d.implemented
  }

  predicate IsTargetCall(c: Node) {
    c.Call? && c.name in TargetMethods
  }

  /** `m` is a method named `main` with a body that holds, at any depth, a
      call to `speak` or `run`. */
  ghost predicate MainCallsTarget(m: Node) {
    && m.MethodDecl?
    && m.name == EntryPoint
    && m.body.Some?
    && exists c :: c in Descendants(m.body.value) && IsTargetCall(c)
  }

  ghost predicate Declares(u: CompilationUnit, name: string) {
    DeclaredAmong(AllNodes(u), name)
  }

  ghost predicate Implements(u: CompilationUnit, cls: string, iface: string) {
    ImplementedAmong(AllNodes(u), cls, iface)
  }

  ghost predicate CallsInMain(u: CompilationUnit) {
    exists m :: m in AllNodes(u) && MainCallsTarget(m)
  }

  /** Pair number `k` of the table is met. */
  ghost predicate PairMet(u: CompilationUnit, k: int) {
    0 <= k < |Pairs| && Implements(u, Pairs[k].0, Pairs[k].1)
  }

  ghost predicate AllDeclared(u: CompilationUnit) {
    forall name :: name in RequiredNames ==> Declares(u, name)
  }

  ghost predicate AllImplemented(u: CompilationUnit) {
    forall k :: 0 <= k < |Pairs| ==> PairMet(u, k)
  }

  /** Pair number `k` is the first one of the table that is not met. */
  ghost predicate FirstUnmetPair(u: CompilationUnit, k: int) {
    && 0 <= k < |Pairs|
    && !PairMet(u, k)
    && forall j :: 0 <= j < k ==> PairMet(u, j)
  }

  /** Everything the checklist asks for. */
  ghost predicate Conforms(u: CompilationUnit) {
    AllDeclared(u) && AllImplemented(u) && CallsInMain(u)
  }

  // ---------------------------------------------------------------------
  // The checker's computation
  // ---------------------------------------------------------------------

  /** The flags set by the declaration scan: the required names seen, and the
      (class, interface) pairs seen in `implements` clauses. */
  datatype DeclFlags = DeclFlags(found: set<string>, implemented: set<(string, string)>)

  /** One iteration of the declaration scan: a class or interface with a
      required name sets that name's flag, and if it is one of the three
      classes, the flags of the interfaces its `implements` clause names.
      Anything else (an enum, a record, an annotation type) sets nothing. */
  function Observe(f: DeclFlags, d: Node): DeclFlags {
    if !IsClassOrInterface(d) then f
    else
      DeclFlags(
        f.found + (if d.name in RequiredNames then {d.name} else {}),
        f.implemented + (if d.name in Classes then ImplementedPairs(d.name, d.implemented) else {}))
  }

  /** The pairs `(cls, iface)` for the interfaces `impl` names. */
  function ImplementedPairs(cls: string, impl: seq<string>): set<(string, string)> {
    (if "Speakable" in impl then {(cls, "Speakable")} else {})
    + (if "Runnable" in impl then {(cls, "Runnable")} else {})
  }

  /** The declaration scan over `ds`, front to back; flags are only ever set. */
  function ScanDeclarations(ds: seq<Node>): DeclFlags
  {
    if ds == [] then DeclFlags({}, {})
    else Observe(ScanDeclarations(ds[..|ds| - 1]), ds[|ds| - 1])
  }

  /** After the scan, a name's flag is set exactly when the name is required
      and some class or interface of `ds` has it, and a pair's flag exactly
      when the pair is required and some class or interface named after the
      class lists the interface under `implements`. */
  lemma {:induction false} ScanDeclarationsMeaning(ds: seq<Node>)
    ensures forall name :: name in ScanDeclarations(ds).found <==>
      name in RequiredNames && DeclaredAmong(ds, name)
    ensures forall cls, iface :: (cls, iface) in ScanDeclarations(ds).implemented <==>
      cls in Classes && iface in Interfaces && ImplementedAmong(ds, cls, iface)
    decreases |ds|
  {
    if ds != [] {
      var init := ds[..|ds| - 1];
      ScanDeclarationsMeaning(init);
      assert forall d :: d in ds <==> d in init || d == ds[|ds| - 1] by {
        assert ds == init + [ds[|ds| - 1]];
      }
    }
  }

  /** Some call in `calls` is named `speak` or `run`. */
  function AnyTargetCall(calls: seq<Node>): (b: bool)
    ensures b <==> exists c :: c in calls && IsTargetCall(c)
  {
    if calls == [] then false
    else IsTargetCall(calls[0]) || AnyTargetCall(calls[1..])
  }

  /** The invocation scan: some method of `ms` is a `main` with a body in
      which some call is named `speak` or `run`. */
  function ScanMains(ms: seq<Node>): (called: bool)
    ensures called <==> exists m :: m in ms && MainCallsTarget(m)
  {
    if ms == [] then false
    else
      var m := ms[0];
      var here := m.MethodDecl? && m.name == EntryPoint && m.body.Some?
                  && AnyTargetCall(CallsWithin(m.body.value));
      assert here <==> MainCallsTarget(m);
      assert forall x :: x in ms <==> x == m || x in ms[1..] by {
        assert ms == [m] + ms[1..];
      }
      here || ScanMains(ms[1..])
  }

  /** Index of the first pair of `ps` missing from `met`. */
  function FirstMissing(ps: seq<(string, string)>, met: set<(string, string)>): (r: Option<nat>)
    ensures r.None? <==> forall j :: 0 <= j < |ps| ==> ps[j] in met
    ensures r.Some? ==> r.value < |ps| && ps[r.value] !in met
                        && forall j :: 0 <= j < r.value ==> ps[j] in met
  {
    if ps == [] then None
    else if ps[0] !in met then Some(0)
    else match FirstMissing(ps[1..], met)
      case None => None
      case Some(k) => Some(k + 1)
  }

  /** The declaration scan over `cu.findAll(TypeDeclaration.class)`: its
      flags are exactly the required names the unit declares and the required
      pairs it implements. */
  function DeclarationFlags(u: CompilationUnit): (f: DeclFlags)
    ensures forall name :: name in f.found <==> name in RequiredNames && Declares(u, name)
    ensures forall k :: 0 <= k < |Pairs| ==> (Pairs[k] in f.implemented <==> PairMet(u, k))
  {
    var ds := TypeDeclarations(u);
    ScanDeclarationsMeaning(ds);
    assert forall name :: DeclaredAmong(ds, name) <==> Declares(u, name);
    assert forall cls, iface :: ImplementedAmong(ds, cls, iface) <==> Implements(u, cls, iface);
    assert forall k :: 0 <= k < |Pairs| ==> Pairs[k].0 in Classes && Pairs[k].1 in Interfaces;
    ScanDeclarations(ds)
  }

  /** The invocation scan over `cu.findAll(MethodDeclaration.class)`. */
  function MainFlag(u: CompilationUnit): (called: bool)
    ensures called <==> CallsInMain(u)
  {
    ScanMains(MethodDeclarations(u))
  }

  /** The checker's verdict on a parsed unit: the existence gate, then the
      pairs in table order, then the invocation gate. */
  function CheckUnit(u: CompilationUnit): (v: Verdict)
    ensures v.Passed() <==> Conforms(u)
    ensures v == MissingDecl <==> !AllDeclared(u)
    ensures v.PairMissing? ==> exists k :: FirstUnmetPair(u, k) && Pairs[k] == (v.cls, v.iface)
    ensures forall k :: AllDeclared(u) && FirstUnmetPair(u, k) ==> v == PairMissing(Pairs[k].0, Pairs[k].1)
    ensures v == NoCallInMain <==> AllDeclared(u) && AllImplemented(u) && !CallsInMain(u)
    ensures v != NoFile
  {
    var f := DeclarationFlags(u);
    var called := MainFlag(u);
    if exists name :: name in RequiredNames && name !in f.found then MissingDecl
    else
      assert AllDeclared(u);
      match FirstMissing(Pairs, f.implemented)
      case Some(k) =>
        assert FirstUnmetPair(u, k);
        assert forall j :: FirstUnmetPair(u, j) ==> j == k;
        PairMissing(Pairs[k].0, Pairs[k].1)
      case None =>
        assert AllImplemented(u);
        if called then Pass else NoCallInMain
  }

  /** The checker from the file path on: a missing file fails without a parse,
      a file that cannot be opened or parsed raises, a parsed unit is checked. */
  function Grade(s: Submission): (o: Outcome)
    ensures o == Returned(Pass) <==> s.Opened? && s.parsed.Some? && Conforms(s.parsed.value)
    ensures s.Absent? <==> o == Returned(NoFile)
    ensures o.Raised? <==> s.Unopenable? || s == Opened(None)
  {
    match s
    case Absent => Returned(NoFile)
    case Unopenable => Raised(OpenFailed)
    case Opened(None) => Raised(ParseFailed)
    case Opened(Some(u)) => Returned(CheckUnit(u))
  }
}
