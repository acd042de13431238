/** Properties relating verdicts on different compilation units: flags only
    ever get set, so growing a unit never turns a pass into a failure, and
    whatever the scans cannot see (declaration order, repetition, `extends`
    clauses, whether a declaration is a class or an interface, the names of
    enums and records) cannot change the verdict. */
module Properties {
  import opened Wrappers
  import opened Ast
  import opened Conformance

  /** `b` shows the checker everything `a` shows it, and possibly more: the
      same classes and interfaces with at least the same `implements` names,
      the same methods and calls, each child grown into some child of `b`.
      `extends` clauses and the names of other type declarations are free. */
  ghost predicate Grows(a: Node, b: Node)
  {
    match a
    case TypeDecl(_, name, impl, _, members) =>
      && b.TypeDecl?
      && (IsClassOrInterface(a) ==>
            IsClassOrInterface(b) && b.name == name && forall i :: i in impl ==> i in b.implemented)
      && GrowsAll(members, b.members)
    case MethodDecl(name, signature, body) =>
      && b.MethodDecl?
      && b.name == name
      && GrowsAll(signature, b.signature)
      && (body.Some? ==> b.body.Some? && Grows(body.value, b.body.value))
    case Call(name, operands) =>
      b.Call? && b.name == name && GrowsAll(operands, b.operands)
    case Other(children) =>
      b.Other? && GrowsAll(children, b.children)
  }

  /** Every element of `xs` grows into some element of `ys`. */
  ghost predicate GrowsAll(xs: seq<Node>, ys: seq<Node>)
  {
    forall x :: x in xs ==> exists y :: y in ys && Grows(x, y)
  }

  ghost predicate GrowsInto(u: CompilationUnit, u': CompilationUnit) {
    GrowsAll(u.types, u'.types)
  }

  lemma {:induction false} GrowsReflexive(a: Node)
    ensures Grows(a, a)
    decreases a
  {
    match a
    case TypeDecl(_, _, _, _, members) => GrowsAllReflexive(members);
    case MethodDecl(_, signature, body) =>
      GrowsAllReflexive(signature);
      if body.Some? { GrowsReflexive(body.value); }
    case Call(_, operands) => GrowsAllReflexive(operands);
    case Other(children) => GrowsAllReflexive(children);
  }

  lemma {:induction false} GrowsAllReflexive(xs: seq<Node>)
    ensures GrowsAll(xs, xs)
    decreases xs
  {
    forall x | x in xs
      ensures exists y :: y in xs && Grows(x, y)
    {
      GrowsReflexive(x);
    }
  }

  /** Every node of the walk of `a` grows into some node of the walk of `b`. */
  lemma {:induction false} GrowsWalk(a: Node, b: Node, x: Node) returns (y: Node)
    requires Grows(a, b) && x in Descendants(a)
    ensures y in Descendants(b) && Grows(x, y)
    decreases a
  {
    if x == a {
      y := b;
    } else {
      match a
      case TypeDecl(_, _, _, _, members) => y := GrowsAllWalk(members, b.members, x);
      case MethodDecl(_, signature, body) =>
        if x in DescendantsOfAll(signature) {
          y := GrowsAllWalk(signature, b.signature, x);
        } else {
          y := GrowsWalk(body.value, b.body.value, x);
        }
      case Call(_, operands) => y := GrowsAllWalk(operands, b.operands, x);
      case Other(children) => y := GrowsAllWalk(children, b.children, x);
    }
  }

  lemma {:induction false} GrowsAllWalk(xs: seq<Node>, ys: seq<Node>, x: Node) returns (y: Node)
    requires GrowsAll(xs, ys) && x in DescendantsOfAll(xs)
    ensures y in DescendantsOfAll(ys) && Grows(x, y)
    decreases xs
  {
    var i := WalkWitness(xs, x);
    assert xs[i] in xs;
    var b :| b in ys && Grows(xs[i], b);
    var j :| 0 <= j < |ys| && ys[j] == b;
    y := GrowsWalk(xs[i], b, x);
    WalkContains(ys, j, y);
  }

  /** A grown unit declares, implements and calls at least what the original
      does. */
  lemma GrowthCovers(u: CompilationUnit, u': CompilationUnit)
    requires GrowsInto(u, u')
    ensures forall name :: Declares(u, name) ==> Declares(u', name)
    ensures forall cls, iface :: Implements(u, cls, iface) ==> Implements(u', cls, iface)
    ensures CallsInMain(u) ==> CallsInMain(u')
  {
    forall name | Declares(u, name)
      ensures Declares(u', name)
    {
      var d :| d in AllNodes(u) && IsClassOrInterface(d) && d.name == name;
      var d' := GrowsAllWalk(u.types, u'.types, d);
    }
    forall cls, iface | Implements(u, cls, iface)
      ensures Implements(u', cls, iface)
    {
      var d :| d in AllNodes(u) && IsClassOrInterface(d) && d.name == cls && iface in d.implemented;
      var d' := GrowsAllWalk(u.types, u'.types, d);
    }
    if CallsInMain(u) {
      var m :| m in AllNodes(u) && MainCallsTarget(m);
      var m' := GrowsAllWalk(u.types, u'.types, m);
      var c :| c in Descendants(m.body.value) && IsTargetCall(c);
      var c' := GrowsWalk(m.body.value, m'.body.value, c);
      assert MainCallsTarget(m');
    }
  }

  /** Adding declarations, `implements` names, methods or calls anywhere in
      the tree never turns a passing unit into a failing one. */
  lemma GrowthKeepsPass(u: CompilationUnit, u': CompilationUnit)
    requires GrowsInto(u, u')
    ensures CheckUnit(u).Passed() ==> CheckUnit(u').Passed()
  {
    GrowthCovers(u, u');
    assert forall k :: PairMet(u, k) ==> PairMet(u', k);
  }

  /** Two units on which the three flag families agree get the same verdict. */
  lemma SameFlagsSameVerdict(u: CompilationUnit, u': CompilationUnit)
    requires forall name :: Declares(u, name) <==> Declares(u', name)
    requires forall k :: PairMet(u, k) <==> PairMet(u', k)
    requires CallsInMain(u) <==> CallsInMain(u')
    ensures CheckUnit(u) == CheckUnit(u')
  {
  }

  /** Units that each grow into the other get the same verdict. */
  lemma MutualGrowthSameVerdict(u: CompilationUnit, u': CompilationUnit)
    requires GrowsInto(u, u') && GrowsInto(u', u)
    ensures CheckUnit(u) == CheckUnit(u')
  {
    GrowthCovers(u, u');
    GrowthCovers(u', u);
    SameFlagsSameVerdict(u, u');
  }

  /** The verdict depends only on which top-level declarations occur, not on
      their order or on how often each occurs. */
  lemma DeclarationOrderIrrelevant(u: CompilationUnit, u': CompilationUnit)
    requires forall t :: t in u.types <==> t in u'.types
    ensures CheckUnit(u) == CheckUnit(u')
  {
    forall x | x in u.types ensures exists y :: y in u'.types && Grows(x, y) {
      GrowsReflexive(x);
    }
    forall x | x in u'.types ensures exists y :: y in u.types && Grows(x, y) {
      GrowsReflexive(x);
    }
    MutualGrowthSameVerdict(u, u');
  }

  /** Appending declarations to a passing unit keeps it passing. */
  lemma AppendingKeepsPass(u: CompilationUnit, extra: seq<Node>)
    ensures CheckUnit(u).Passed() ==> CheckUnit(CompilationUnit(u.types + extra)).Passed()
  {
    var u' := CompilationUnit(u.types + extra);
    GrowsAllReflexive(u.types);
    GrowthKeepsPass(u, u');
  }

  /** Replacing one top-level declaration by one the checker cannot tell apart
      from it leaves the verdict unchanged. */
  lemma ReplaceIndistinguishable(u: CompilationUnit, k: nat, d: Node)
    requires k < |u.types|
    requires Grows(u.types[k], d) && Grows(d, u.types[k])
    ensures CheckUnit(CompilationUnit(u.types[k := d])) == CheckUnit(u)
  {
    var u' := CompilationUnit(u.types[k := d]);
    ReplaceGrows(u.types, k, d);
    ReplaceGrows(u'.types, k, u.types[k]);
    assert u'.types[k := u.types[k]] == u.types;
    MutualGrowthSameVerdict(u, u');
  }

  /** Replacing element `k` by something it grows into is growth. */
  lemma ReplaceGrows(ts: seq<Node>, k: nat, d: Node)
    requires k < |ts| && Grows(ts[k], d)
    ensures GrowsAll(ts, ts[k := d])
  {
    var ts' := ts[k := d];
    forall t | t in ts
      ensures exists y :: y in ts' && Grows(t, y)
    {
      var i :| 0 <= i < |ts| && ts[i] == t;
      if i == k {
        assert ts'[k] == d;
      } else {
        GrowsReflexive(t);
        assert ts'[i] == t;
      }
    }
  }

  /** Only `implements` counts: rewriting a top-level declaration's `extends`
      clause changes nothing. For a nested declaration the same follows from
      `MutualGrowthSameVerdict`, since `Grows` ignores `extends` at any depth. */
  lemma ExtendsIgnored(u: CompilationUnit, k: nat, ext: seq<string>)
    requires k < |u.types| && u.types[k].TypeDecl?
    ensures CheckUnit(CompilationUnit(u.types[k := u.types[k].(extended := ext)])) == CheckUnit(u)
  {
    var d := u.types[k];
    GrowsAllReflexive(d.members);
    ReplaceIndistinguishable(u, k, d.(extended := ext));
  }

  /** A top-level class and an interface of the same name and `implements`
      list count alike; in particular `Speakable` and `Runnable` may be
      classes. At any depth the same follows from `MutualGrowthSameVerdict`,
      since `Grows` does not look at the kind of a class or interface. */
  lemma ClassOrInterfaceAlike(u: CompilationUnit, k: nat)
    requires k < |u.types| && u.types[k].TypeDecl? && u.types[k].kind == Class
    ensures CheckUnit(CompilationUnit(u.types[k := u.types[k].(kind := Interface)])) == CheckUnit(u)
  {
    var d := u.types[k];
    GrowsAllReflexive(d.members);
    ReplaceIndistinguishable(u, k, d.(kind := Interface));
  }

  /** Top-level declarations that are not classes or interfaces are ignored:
      an enum, record or annotation type may be renamed or given any
      `implements` list without changing the verdict (what it contains still
      counts). At any depth the same follows from `MutualGrowthSameVerdict`,
      since `Grows` ignores the name and `implements` list of such a
      declaration. */
  lemma OtherTypeDeclarationsIgnored(u: CompilationUnit, k: nat, name: string, impl: seq<string>)
    requires k < |u.types| && u.types[k].TypeDecl? && !IsClassOrInterface(u.types[k])
    ensures CheckUnit(CompilationUnit(u.types[k := u.types[k].(name := name, implemented := impl)]))
            == CheckUnit(u)
  {
    var d := u.types[k];
    GrowsAllReflexive(d.members);
    ReplaceIndistinguishable(u, k, d.(name := name, implemented := impl));
  }

  /** Adding interface names to a declaration's `implements` clause never
      turns a passing unit into a failing one. */
  lemma MoreImplementsKeepsPass(u: CompilationUnit, k: nat, extra: seq<string>)
    requires k < |u.types| && u.types[k].TypeDecl?
    ensures CheckUnit(u).Passed() ==>
      CheckUnit(CompilationUnit(u.types[k := u.types[k].(implemented := u.types[k].implemented + extra)])).Passed()
  {
    var d := u.types[k];
    GrowsAllReflexive(d.members);
    ReplaceGrows(u.types, k, d.(implemented := d.implemented + extra));
    GrowthKeepsPass(u, CompilationUnit(u.types[k := d.(implemented := d.implemented + extra)]));
  }

  /** Pair order: once every name is declared, the reported pair is the first
      unmet one of the table, whatever the later pairs are. */
  lemma LaterPairsIrrelevant(u: CompilationUnit, u': CompilationUnit, k: nat)
    requires AllDeclared(u) && AllDeclared(u')
    requires FirstUnmetPair(u, k)
    requires forall j :: 0 <= j <= k ==> (PairMet(u, j) <==> PairMet(u', j))
    ensures CheckUnit(u) == CheckUnit(u') == PairMissing(Pairs[k].0, Pairs[k].1)
  {
  }

  /** Either name alone is enough: once the declarations pass, a single call
      to `speak` or to `run` anywhere inside the body of some `main` makes the
      unit pass, whatever else the body calls. */
  lemma OneCallSuffices(u: CompilationUnit, m: Node, c: Node)
    requires AllDeclared(u) && AllImplemented(u)
    requires m in AllNodes(u) && m.MethodDecl? && m.name == "main" && m.body.Some?
    requires c in Descendants(m.body.value) && c.Call? && (c.name == "speak" || c.name == "run")
    ensures CheckUnit(u) == Pass
  {
  }
}
