/** Worked examples: the checker's verdict on the reference solution and on
    submissions that each break one gate. Declarations are given without
    members where the members play no part.

    Each example takes its unit as a parameter `u` constrained by
    `requires u == <constant>` rather than naming the constant in the
    `ensures`: the verifier evaluates functions applied to a literal
    constant eagerly, and on these trees that unfolding alone exhausts its
    resources, while a parameter is only unfolded as far as the proof asks. */
module Examples {
  import opened Wrappers
  import opened Ast
  import opened Conformance

  // ---------------------------------------------------------------------
  // Building blocks
  // ---------------------------------------------------------------------

  /** An interface declaring one abstract method. */
  function Iface(name: string, callee: string): Node {
    TypeDecl(Interface, name, [], [], [MethodDecl(callee, [], None)])
  }

  /** A method whose body prints a line. */
  function Printing(name: string): Node {
    MethodDecl(name, [Other([])], Some(Other([Other([Call("println", [Other([]), Other([])])])])))
  }

  /** A class overriding `speak` and `run`. */
  function Cls(name: string, impl: seq<string>): Node {
    TypeDecl(Class, name, impl, [], [Printing("speak"), Printing("run")])
  }

  /** A type declaration without members. */
  function Bare(kind: TypeKind, name: string, impl: seq<string>): Node {
    TypeDecl(kind, name, impl, [], [])
  }

  /** `Speakable x = new Animal(); x.callee();` */
  function Invoke(callee: string): seq<Node> {
    [Other([Other([Other([])])]), Other([Call(callee, [Other([])])])]
  }

  /** A class holding only `main` with the given body. */
  function Launcher(body: Node): Node {
    TypeDecl(Class, "PolymorphismWithInterfacesAssignment", [], [], [MethodDecl("main", [Other([])], Some(body))])
  }

  const MainBody: Node := Other(Invoke("speak") + Invoke("run") + Invoke("speak") + Invoke("run"))

  /** The reference solution: two interfaces, three classes implementing
      both, and a `main` calling `speak` and `run`. */
  const Reference: CompilationUnit := CompilationUnit([
    Iface("Speakable", "speak"), Iface("Runnable", "run"),
    Cls("Animal", ["Speakable", "Runnable"]),
    Cls("Dog", ["Speakable", "Runnable"]),
    Cls("Cat", ["Speakable", "Runnable"]),
    Launcher(MainBody)])

  /** The five required declarations, all pairs implemented, no members. */
  const Skeleton: seq<Node> := [
    Bare(Interface, "Speakable", []), Bare(Interface, "Runnable", []),
    Bare(Class, "Animal", ["Speakable", "Runnable"]),
    Bare(Class, "Dog", ["Speakable", "Runnable"]),
    Bare(Class, "Cat", ["Speakable", "Runnable"])]

  /** `Cat implements Speakable` only. */
  const CatWithoutRunnable: CompilationUnit :=
    CompilationUnit(Skeleton[4 := Bare(Class, "Cat", ["Speakable"])])

  /** `class Dog extends Animal`, relying on inheritance for the interfaces. */
  const DogExtendsAnimal: CompilationUnit :=
    CompilationUnit(Skeleton[3 := TypeDecl(Class, "Dog", [], ["Animal"], [])])

  /** `enum Animal implements Speakable, Runnable`. */
  const AnimalAsEnum: CompilationUnit :=
    CompilationUnit(Skeleton[2 := Bare(Enum, "Animal", ["Speakable", "Runnable"])])

  /** A `main` that only prints. */
  const MainOnlyPrints: CompilationUnit :=
    CompilationUnit(Skeleton + [Launcher(Other([Call("println", [])]))])

  /** `speak` is called from a helper that `main` calls, not from `main`. */
  const CallInHelper: CompilationUnit :=
    CompilationUnit(Skeleton + [TypeDecl(Class, "App", [], [],
      [MethodDecl("main", [], Some(Other([Call("helper", [])]))),
       MethodDecl("helper", [], Some(Other([Call("speak", [])])))])])

  // ---------------------------------------------------------------------
  // Walks of small trees
  // ---------------------------------------------------------------------

  /** Every element is a type declaration without members. */
  ghost predicate Leaves(ts: seq<Node>) {
    forall t :: t in ts ==> t.TypeDecl? && t.members == []
  }

  /** The walk of memberless declarations is the declarations themselves. */
  lemma {:induction false} LeavesWalk(ts: seq<Node>)
    requires Leaves(ts)
    ensures DescendantsOfAll(ts) == ts
    decreases |ts|
  {
    if ts != [] {
      assert ts[0] in ts;
      assert Leaves(ts[1..]) by {
        forall t | t in ts[1..] ensures t in ts { }
      }
      LeavesWalk(ts[1..]);
      assert Descendants(ts[0]) == [ts[0]];
      assert ts == [ts[0]] + ts[1..];
    }
  }

  /** Memberless declarations followed by one more declaration: the walk is
      the declarations, then the walk of the last one. */
  lemma LeavesThenWalk(ts: seq<Node>, last: Node)
    requires Leaves(ts)
    ensures AllNodes(CompilationUnit(ts + [last])) == ts + Descendants(last)
  {
    DescendantsOfAllAppend(ts, [last]);
    LeavesWalk(ts);
    assert [last][1..] == [];
  }

  /** A top-level declaration is among the nodes of the unit. */
  lemma TopLevel(u: CompilationUnit, i: nat)
    requires i < |u.types|
    ensures u.types[i] in AllNodes(u)
  {
    WalkContains(u.types, i, u.types[i]);
  }

  /** A top-level class or interface declares its name. */
  lemma DeclaredAtTop(u: CompilationUnit, i: nat, name: string)
    requires i < |u.types| && IsClassOrInterface(u.types[i]) && u.types[i].name == name
    ensures Declares(u, name)
  {
    TopLevel(u, i);
  }

  /** A top-level class named after pair `k`'s class and listing its
      interface meets pair `k`. */
  lemma ImplementedAtTop(u: CompilationUnit, i: nat, k: nat)
    requires k < |Pairs| && i < |u.types| && IsClassOrInterface(u.types[i])
    requires u.types[i].name == Pairs[k].0 && Pairs[k].1 in u.types[i].implemented
    ensures PairMet(u, k)
  {
    TopLevel(u, i);
  }

  /** A unit starting with the skeleton declares and implements everything. */
  lemma SkeletonComplete(u: CompilationUnit)
    requires |u.types| >= 5 && u.types[..5] == Skeleton
    ensures AllDeclared(u) && AllImplemented(u)
  {
    assert forall i :: 0 <= i < 5 ==> u.types[i] == Skeleton[i];
    DeclaredAtTop(u, 0, "Speakable");
    DeclaredAtTop(u, 1, "Runnable");
    DeclaredAtTop(u, 2, "Animal");
    DeclaredAtTop(u, 3, "Dog");
    DeclaredAtTop(u, 4, "Cat");
    assert RequiredNames == ["Animal", "Dog", "Cat", "Speakable", "Runnable"];
    ImplementedAtTop(u, 2, 0);
    ImplementedAtTop(u, 2, 1);
    ImplementedAtTop(u, 3, 2);
    ImplementedAtTop(u, 3, 3);
    ImplementedAtTop(u, 4, 4);
    ImplementedAtTop(u, 4, 5);
  }

  /** With everything declared, the first unmet pair is reported. */
  lemma Reported(u: CompilationUnit, k: nat)
    requires AllDeclared(u) && FirstUnmetPair(u, k)
    ensures CheckUnit(u) == PairMissing(Pairs[k].0, Pairs[k].1)
  {
  }

  // ---------------------------------------------------------------------
  // The reference solution passes
  // ---------------------------------------------------------------------

  lemma ReferenceDeclares(u: CompilationUnit)
    requires u == Reference
    ensures AllDeclared(u)
  {
    DeclaredAtTop(u, 0, "Speakable");
    DeclaredAtTop(u, 1, "Runnable");
    DeclaredAtTop(u, 2, "Animal");
    DeclaredAtTop(u, 3, "Dog");
    DeclaredAtTop(u, 4, "Cat");
    assert RequiredNames == ["Animal", "Dog", "Cat", "Speakable", "Runnable"];
  }

  lemma ReferenceImplements(u: CompilationUnit)
    requires u == Reference
    ensures AllImplemented(u)
  {
    ImplementedAtTop(u, 2, 0);
    ImplementedAtTop(u, 2, 1);
    ImplementedAtTop(u, 3, 2);
    ImplementedAtTop(u, 3, 3);
    ImplementedAtTop(u, 4, 4);
    ImplementedAtTop(u, 4, 5);
  }

  /** `animal.speak()` in `main` is found by the invocation scan. */
  lemma ReferenceCalls(u: CompilationUnit)
    requires u == Reference
    ensures CallsInMain(u)
  {
    var launcher := Launcher(MainBody);
    var m := launcher.members[0];
    WalkContains(launcher.members, 0, m);
    WalkContains(u.types, 5, m);
    var stmt := MainBody.children[1];
    var c := stmt.children[0];
    WalkContains(stmt.children, 0, c);
    assert c in Descendants(stmt);
    WalkContains(MainBody.children, 1, c);
    assert c in Descendants(MainBody) && IsTargetCall(c);
    assert MainCallsTarget(m);
  }

  /** The reference solution passes every gate. */
  lemma ReferencePasses(u: CompilationUnit)
    requires u == Reference
    ensures CheckUnit(u) == Pass
    ensures Grade(Opened(Some(u))) == Returned(Pass)
  {
    ReferenceDeclares(u);
    ReferenceImplements(u);
    ReferenceCalls(u);
  }

  // ---------------------------------------------------------------------
  // Each gate rejects
  // ---------------------------------------------------------------------

  /** A missing `implements Runnable` on `Cat` is reported as the pair
      (Cat, Runnable), the last of the table. */
  lemma CatWithoutRunnableReported(u: CompilationUnit)
    requires u == CatWithoutRunnable
    ensures CheckUnit(u) == PairMissing("Cat", "Runnable")
  {
    assert forall i :: 0 <= i < 4 ==> u.types[i] == Skeleton[i];
    DeclaredAtTop(u, 0, "Speakable");
    DeclaredAtTop(u, 1, "Runnable");
    DeclaredAtTop(u, 2, "Animal");
    DeclaredAtTop(u, 3, "Dog");
    DeclaredAtTop(u, 4, "Cat");
    assert RequiredNames == ["Animal", "Dog", "Cat", "Speakable", "Runnable"];
    ImplementedAtTop(u, 2, 0);
    ImplementedAtTop(u, 2, 1);
    ImplementedAtTop(u, 3, 2);
    ImplementedAtTop(u, 3, 3);
    ImplementedAtTop(u, 4, 4);
    assert !PairMet(u, 5) by {
      CatLacksRunnable(u);
    }
    Reported(u, 5);
  }

  lemma CatLacksRunnable(u: CompilationUnit)
    requires u == CatWithoutRunnable
    ensures !Implements(u, "Cat", "Runnable")
  {
    LeavesWalk(u.types);
    forall d | d in u.types && IsClassOrInterface(d) && d.name == "Cat"
      ensures "Runnable" !in d.implemented
    {
      if d == u.types[4] {
        assert |"Runnable"| == 8;
      }
    }
  }

  /** `extends` does not count: a Dog that only extends Animal is reported
      as missing its first pair, (Dog, Speakable). */
  lemma ExtendsIsNotImplements(u: CompilationUnit)
    requires u == DogExtendsAnimal
    ensures CheckUnit(u) == PairMissing("Dog", "Speakable")
  {
    DeclaredAtTop(u, 0, "Speakable");
    DeclaredAtTop(u, 1, "Runnable");
    DeclaredAtTop(u, 2, "Animal");
    DeclaredAtTop(u, 3, "Dog");
    DeclaredAtTop(u, 4, "Cat");
    assert RequiredNames == ["Animal", "Dog", "Cat", "Speakable", "Runnable"];
    ImplementedAtTop(u, 2, 0);
    ImplementedAtTop(u, 2, 1);
    assert !PairMet(u, 2) by {
      DogLacksSpeakable(u);
    }
    Reported(u, 2);
  }

  lemma DogLacksSpeakable(u: CompilationUnit)
    requires u == DogExtendsAnimal
    ensures !Implements(u, "Dog", "Speakable")
  {
    LeavesWalk(u.types);
    forall d | d in u.types && IsClassOrInterface(d) && d.name == "Dog"
      ensures "Speakable" !in d.implemented
    {
      if d == u.types[3] {
        assert d.implemented == [];
      }
    }
  }

  /** An enum does not count as a class: the existence gate fails. */
  lemma EnumIsNotAClass(u: CompilationUnit)
    requires u == AnimalAsEnum
    ensures CheckUnit(u) == MissingDecl
  {
    LeavesWalk(u.types);
    forall d | d in u.types && IsClassOrInterface(d)
      ensures d.name != "Animal"
    {
      assert d.name[0] != 'A';
    }
    assert !Declares(u, "Animal");
  }

  /** A `main` without a call to `speak` or `run` fails the last gate. */
  lemma PrintingMainFails(u: CompilationUnit)
    requires u == MainOnlyPrints
    ensures CheckUnit(u) == NoCallInMain
  {
    assert u.types[..5] == Skeleton;
    SkeletonComplete(u);
    var launcher := Launcher(Other([Call("println", [])]));
    LeavesThenWalk(Skeleton, launcher);
    assert Leaves(Skeleton);
    assert !CallsInMain(u) by {
      assert Descendants(launcher)
        == [launcher, launcher.members[0], Other([]), Other([Call("println", [])]), Call("println", [])];
    }
  }

  /** Calls count only where `main`'s own body makes them, not through
      the methods it calls. */
  lemma CallThroughHelperFails(u: CompilationUnit)
    requires u == CallInHelper
    ensures CheckUnit(u) == NoCallInMain
  {
    assert u.types[..5] == Skeleton;
    SkeletonComplete(u);
    HelperWalk(u);
  }

  lemma HelperWalk(u: CompilationUnit)
    requires u == CallInHelper
    ensures !CallsInMain(u)
  {
    var app := u.types[5];
    var main := app.members[0];
    HelperNodes(u);
    assert forall m :: m in AllNodes(u) && m.MethodDecl? && m.name == "main" ==> m == main;
  }

  /** The nodes of `CallInHelper`. */
  lemma HelperNodes(u: CompilationUnit)
    requires u == CallInHelper
    ensures AllNodes(u) == Skeleton + [u.types[5], u.types[5].members[0], Other([Call("helper", [])]),
                                       Call("helper", []), u.types[5].members[1],
                                       Other([Call("speak", [])]), Call("speak", [])]
  {
    var app := u.types[5];
    LeavesThenWalk(Skeleton, app);
    assert Leaves(Skeleton);
    var main := app.members[0];
    var helper := app.members[1];
    assert Descendants(app)
      == [app, main, main.body.value, Call("helper", []), helper, helper.body.value, Call("speak", [])];
  }
}
