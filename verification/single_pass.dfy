/** The checker as its Java code computes it: boolean flags that are
    only ever set, one loop over the type declarations, a chain of early
    returns, then one loop over the methods. Its contract says it computes the
    verdict of the functional model, and so everything proved about
    `CheckUnit`. The eleven declaration flags are grouped in two records, the
    five "found" flags and the six "implements" flags. */
module SinglePass {
  import opened Wrappers
  import opened Ast
  import opened Conformance

  /** The `forEach` over one class's `implements` list: which of the two
      interfaces it names. */
  method ScanImplemented(impl: seq<string>) returns (speakable: bool, runnable: bool)
    ensures speakable <==> "Speakable" in impl
    ensures runnable <==> "Runnable" in impl
  {
    speakable, runnable := false, false;
    var j := 0;
    while j < |impl|
      invariant 0 <= j <= |impl|
      invariant speakable <==> "Speakable" in impl[..j]
      invariant runnable <==> "Runnable" in impl[..j]
    {
      assert impl[..j + 1] == impl[..j] + [impl[j]];
      if impl[j] == "Speakable" {
        speakable := true;
      }
      if impl[j] == "Runnable" {
        runnable := true;
      }
      j := j + 1;
    }
    assert impl[..j] == impl;
  }

  /** The five "found" flags, one per required name. */
  datatype Found = Found(animal: bool, dog: bool, cat: bool, speakable: bool, runnable: bool)
  /** The six "implements" flags, one per pair of the table. */
  datatype Impl = Impl(animalS: bool, animalR: bool, dogS: bool, dogR: bool, catS: bool, catR: bool)

  /** The "found" flags are the name flags of the functional scan `f`. */
  ghost predicate FoundAgrees(fl: Found, f: DeclFlags) {
    && (fl.animal <==> "Animal" in f.found)
    && (fl.dog <==> "Dog" in f.found)
    && (fl.cat <==> "Cat" in f.found)
    && (fl.speakable <==> "Speakable" in f.found)
    && (fl.runnable <==> "Runnable" in f.found)
  }
  /** The "implements" flags are the pair flags of the functional scan `f`. */
  ghost predicate ImplAgrees(fl: Impl, f: DeclFlags) {
    && (fl.animalS <==> ("Animal", "Speakable") in f.implemented)
    && (fl.animalR <==> ("Animal", "Runnable") in f.implemented)
    && (fl.dogS <==> ("Dog", "Speakable") in f.implemented)
    && (fl.dogR <==> ("Dog", "Runnable") in f.implemented)
    && (fl.catS <==> ("Cat", "Speakable") in f.implemented)
    && (fl.catR <==> ("Cat", "Runnable") in f.implemented)
  }

  /** The name tests of the loop body for one declaration `d`: a class or
      interface sets the flag of its own name. The flags stay in step with
      the functional scan that observes `d` after `f`. */
  method ObserveNames(fl: Found, d: Node, ghost f: DeclFlags) returns (fl': Found)
    requires FoundAgrees(fl, f)
    ensures FoundAgrees(fl', Observe(f, d))
  {
    fl' := fl;
    if IsClassOrInterface(d) {
      if d.name == "Animal" { fl' := fl'.(animal := true); }
      if d.name == "Dog" { fl' := fl'.(dog := true); }
      if d.name == "Cat" { fl' := fl'.(cat := true); }
      if d.name == "Speakable" { fl' := fl'.(speakable := true); }
      if d.name == "Runnable" { fl' := fl'.(runnable := true); }
    }
  }

  /** The `implements` tests of the loop body for one declaration `d`: a
      class or interface named `Animal`, `Dog` or `Cat` has its `implements`
      list scanned, which sets the flags of the interfaces it names. */
  method ObservePairs(fl: Impl, d: Node, ghost f: DeclFlags) returns (fl': Impl)
    requires ImplAgrees(fl, f)
    ensures ImplAgrees(fl', Observe(f, d))
  {
    PairStep(f, d, "Animal", "Speakable");
    PairStep(f, d, "Animal", "Runnable");
    PairStep(f, d, "Dog", "Speakable");
    PairStep(f, d, "Dog", "Runnable");
    PairStep(f, d, "Cat", "Speakable");
    PairStep(f, d, "Cat", "Runnable");
    fl' := fl;
    if IsClassOrInterface(d) {
      if d.name == "Animal" {
        var s, r := ScanImplemented(d.implemented);
        fl' := fl'.(animalS := fl'.animalS || s, animalR := fl'.animalR || r);
      }
      if d.name == "Dog" {
        var s, r := ScanImplemented(d.implemented);
        fl' := fl'.(dogS := fl'.dogS || s, dogR := fl'.dogR || r);
      }
      if d.name == "Cat" {
        var s, r := ScanImplemented(d.implemented);
        fl' := fl'.(catS := fl'.catS || s, catR := fl'.catR || r);
      }
    }
  }

  /** Observing `d` adds the pair `(cls, iface)` exactly when `d` is a class
      or interface named `cls` that lists `iface`. */
  lemma PairStep(f: DeclFlags, d: Node, cls: string, iface: string)
    requires cls in Classes && iface in Interfaces
    ensures (cls, iface) in Observe(f, d).implemented <==>
      (cls, iface) in f.implemented || (IsClassOrInterface(d) && d.name == cls && iface in d.implemented)
  {
  }

  /** The loop over `cu.findAll(TypeDeclaration.class)`: after it, the flags
      are those of the functional declaration scan. */
  method ScanTypes(decls: seq<Node>) returns (found: Found, impl: Impl)
    ensures FoundAgrees(found, ScanDeclarations(decls))
    ensures ImplAgrees(impl, ScanDeclarations(decls))
  {
    found := Found(false, false, false, false, false);
    impl := Impl(false, false, false, false, false, false);
    var i := 0;
    while i < |decls|
      invariant 0 <= i <= |decls|
      invariant FoundAgrees(found, ScanDeclarations(decls[..i]))
      invariant ImplAgrees(impl, ScanDeclarations(decls[..i]))
    {
      assert decls[..i + 1][..i] == decls[..i];
      found := ObserveNames(found, decls[i], ScanDeclarations(decls[..i]));
      impl := ObservePairs(impl, decls[i], ScanDeclarations(decls[..i]));
      i := i + 1;
    }
    assert decls[..i] == decls;
  }

  /** All five "found" flags are set exactly when the unit declares every
      required name. */
  lemma FoundMeaning(u: CompilationUnit, found: Found)
    requires FoundAgrees(found, ScanDeclarations(TypeDeclarations(u)))
    ensures found.animal && found.dog && found.cat && found.speakable && found.runnable <==> AllDeclared(u)
  {
    var f := DeclarationFlags(u);
    assert RequiredNames == ["Animal", "Dog", "Cat", "Speakable", "Runnable"];
  }

  /** Each "implements" flag is set exactly when its pair of the table is
      met. */
  lemma ImplMeaning(u: CompilationUnit, impl: Impl)
    requires ImplAgrees(impl, ScanDeclarations(TypeDeclarations(u)))
    ensures impl.animalS <==> PairMet(u, 0)
    ensures impl.animalR <==> PairMet(u, 1)
    ensures impl.dogS <==> PairMet(u, 2)
    ensures impl.dogR <==> PairMet(u, 3)
    ensures impl.catS <==> PairMet(u, 4)
    ensures impl.catR <==> PairMet(u, 5)
  {
    var f := DeclarationFlags(u);
  }

  /** The checker on a parsed unit: the declaration loop, the existence gate,
      the six pair gates in table order, then the loop over the methods and
      the invocation gate. It returns the verdict of `CheckUnit`. */
  method CheckParsed(u: CompilationUnit) returns (v: Verdict)
    ensures v == CheckUnit(u)
  {
    var found, impl := ScanTypes(TypeDeclarations(u));
    FoundMeaning(u, found);
    ImplMeaning(u, impl);
    if !found.animal || !found.dog || !found.cat || !found.speakable || !found.runnable {
      assert !AllDeclared(u);
      return MissingDecl;
    }
    assert AllDeclared(u);
    if !impl.animalS {
      assert FirstUnmetPair(u, 0);
      return PairMissing("Animal", "Speakable");
    }
    if !impl.animalR {
      assert FirstUnmetPair(u, 1);
      return PairMissing("Animal", "Runnable");
    }
    if !impl.dogS {
      assert FirstUnmetPair(u, 2);
      return PairMissing("Dog", "Speakable");
    }
    if !impl.dogR {
      assert FirstUnmetPair(u, 3);
      return PairMissing("Dog", "Runnable");
    }
    if !impl.catS {
      assert FirstUnmetPair(u, 4);
      return PairMissing("Cat", "Speakable");
    }
    if !impl.catR {
      assert FirstUnmetPair(u, 5);
      return PairMissing("Cat", "Runnable");
    }
    assert AllImplemented(u);
    var called := ScanMethods(MethodDeclarations(u));
    if !called {
      return NoCallInMain;
    }
    return Pass;
  }

  /** The `forEach` over the calls of one `main` body. */
  method ScanCalls(calls: seq<Node>) returns (found: bool)
    ensures found <==> exists c :: c in calls && IsTargetCall(c)
  {
    found := false;
    var j := 0;
    while j < |calls|
      invariant 0 <= j <= |calls|
      invariant found <==> exists c :: c in calls[..j] && IsTargetCall(c)
    {
      var c := calls[j];
      assert forall x :: x in calls[..j + 1] <==> x in calls[..j] || x == c by {
        assert calls[..j + 1] == calls[..j] + [c];
      }
      assert IsTargetCall(c) <==> c.Call? && (c.name == "speak" || c.name == "run");
      if c.Call? && (c.name == "speak" || c.name == "run") {
        found := true;
      }
      j := j + 1;
    }
    assert calls[..j] == calls;
  }

  /** The loop over `cu.findAll(MethodDeclaration.class)`: the flag ends up
      set exactly when some `main` among `methods` has a body calling `speak`
      or `run`. */
  method ScanMethods(methods: seq<Node>) returns (called: bool)
    ensures called <==> exists m :: m in methods && MainCallsTarget(m)
  {
    called := false;
    var k := 0;
    while k < |methods|
      invariant 0 <= k <= |methods|
      invariant called <==> exists m :: m in methods[..k] && MainCallsTarget(m)
    {
      var m := methods[k];
      assert forall x :: x in methods[..k + 1] <==> x in methods[..k] || x == m by {
        assert methods[..k + 1] == methods[..k] + [m];
      }
      if m.MethodDecl? && m.name == "main" && m.body.Some? {
        var here := ScanCalls(CallsWithin(m.body.value));
        assert here <==> MainCallsTarget(m);
        called := called || here;
      } else {
        assert !MainCallsTarget(m);
      }
      k := k + 1;
    }
    assert methods[..k] == methods;
  }

  /** The whole checker, from the file path on. */
  method CheckSubmission(s: Submission) returns (o: Outcome)
    ensures o == Grade(s)
  {
    match s
    case Absent =>
      return Returned(NoFile);
    case Unopenable =>
      return Raised(OpenFailed);
    case Opened(None) =>
      return Raised(ParseFailed);
    case Opened(Some(u)) =>
      var v := CheckParsed(u);
      return Returned(v);
  }
}
