/** An abstraction of the JavaParser syntax tree that the checker walks.

    Every node the checker can tell apart is its own constructor; every other
    statement, expression or member (blocks, variable declarations, object
    creations, fields, constructors, anonymous class bodies, lambdas) is an
    `Other` node that only carries its children. Names are simple names, as
    `getNameAsString` returns them. */
module Ast {
  import opened Wrappers

  /** The kinds of `TypeDeclaration`; only `Class` and `Interface` are
      `ClassOrInterfaceDeclaration`s. */
  datatype TypeKind = Class | Interface | Enum | Record | Annotation

  /** A type declaration's annotations and type parameters sit among its
      `members` as `Other` nodes; `implemented` and `extended` keep only the
      names of their entries, so those entries' type arguments are dropped.
      A method's `signature` holds what sits outside its body: annotations,
      type parameters, parameters, thrown types. `findAll` reaches into those
      too (an anonymous class in an annotation argument, say). */
  datatype Node =
    | TypeDecl(kind: TypeKind, name: string, implemented: seq<string>, extended: seq<string>, members: seq<Node>)
    | MethodDecl(name: string, signature: seq<Node>, body: Option<Node>)
    | Call(name: string, operands: seq<Node>)
    | Other(children: seq<Node>)

  /** A parsed source file: its top-level type declarations. */
  datatype CompilationUnit = CompilationUnit(types: seq<Node>)

  /** The `instanceof ClassOrInterfaceDeclaration` test. */
  predicate IsClassOrInterface(n: Node) {
    n.TypeDecl? && (n.kind == Class || n.kind == Interface)
  }

  /** Pre-order walk of `n`, starting with `n` itself: the nodes among which
      `findAll` picks those of one class. */
  function Descendants(n: Node): seq<Node>
  {
    [n] + match n
      case TypeDecl(_, _, _, _, members) => DescendantsOfAll(members)
      case MethodDecl(_, signature, body) =>
        DescendantsOfAll(signature) + (if body.Some? then Descendants(body.value) else [])
      case Call(_, operands) => DescendantsOfAll(operands)
      case Other(children) => DescendantsOfAll(children)
  }

  /** The walks of `ns`, one after another. */
  function DescendantsOfAll(ns: seq<Node>): seq<Node>
  {
    if ns == [] then [] else Descendants(ns[0]) + DescendantsOfAll(ns[1..])
  }

  /** Every node of the unit, as `cu.findAll` visits them. */
  function AllNodes(u: CompilationUnit): seq<Node>
  {
    DescendantsOfAll(u.types)
  }

  /** The nodes of `ns` that `keep` accepts, in order. */
  function Select(ns: seq<Node>, keep: Node -> bool): (r: seq<Node>)
    ensures forall x :: x in r <==> x in ns && keep(x)
    ensures |r| <= |ns|
  {
    if ns == [] then []
    else (if keep(ns[0]) then [ns[0]] else []) + Select(ns[1..], keep)
  }

  /** `cu.findAll(TypeDeclaration.class)`. */
  function TypeDeclarations(u: CompilationUnit): (r: seq<Node>)
    ensures forall x :: x in r <==> x in AllNodes(u) && x.TypeDecl?
  {
    Select(AllNodes(u), (n: Node) => n.TypeDecl?)
  }

  /** `cu.findAll(MethodDeclaration.class)`. */
  function MethodDeclarations(u: CompilationUnit): (r: seq<Node>)
    ensures forall x :: x in r <==> x in AllNodes(u) && x.MethodDecl?
  {
    Select(AllNodes(u), (n: Node) => n.MethodDecl?)
  }

  /** `body.findAll(MethodCallExpr.class)`. */
  function CallsWithin(body: Node): (r: seq<Node>)
    ensures forall x :: x in r <==> x in Descendants(body) && x.Call?
  {
    Select(Descendants(body), (n: Node) => n.Call?)
  }

  /** A node is in the walk of a sequence exactly when it is in the walk of
      one of its elements. */
  lemma {:induction false} InDescendantsOfAll(ns: seq<Node>, x: Node)
    ensures x in DescendantsOfAll(ns) <==> exists i :: 0 <= i < |ns| && x in Descendants(ns[i])
    decreases |ns|
  {
    if x in DescendantsOfAll(ns) {
      var i := WalkWitness(ns, x);
    }
    forall i | 0 <= i < |ns| && x in Descendants(ns[i])
      ensures x in DescendantsOfAll(ns)
    {
      WalkContains(ns, i, x);
    }
  }

  /** The element of `ns` whose walk holds `x`. */
  lemma {:induction false} WalkWitness(ns: seq<Node>, x: Node) returns (i: nat)
    requires x in DescendantsOfAll(ns)
    ensures i < |ns| && x in Descendants(ns[i])
    decreases |ns|
  {
    if x in Descendants(ns[0]) {
      i := 0;
    } else {
      var j := WalkWitness(ns[1..], x);
      i := j + 1;
    }
  }

  /** The walk of a sequence holds the walk of each element. */
  lemma {:induction false} WalkContains(ns: seq<Node>, i: nat, x: Node)
    requires i < |ns| && x in Descendants(ns[i])
    ensures x in DescendantsOfAll(ns)
    decreases i
  {
    if i > 0 {
      WalkContains(ns[1..], i - 1, x);
    }
  }

  /** Walking a concatenation walks each part in turn. */
  lemma {:induction false} DescendantsOfAllAppend(a: seq<Node>, b: seq<Node>)
    ensures DescendantsOfAll(a + b) == DescendantsOfAll(a) + DescendantsOfAll(b)
    decreases |a|
  {
    if a == [] {
      assert a + b == b;
    } else {
      assert (a + b)[0] == a[0];
      assert (a + b)[1..] == a[1..] + b;
      DescendantsOfAllAppend(a[1..], b);
      assert DescendantsOfAll(a + b) == Descendants(a[0]) + DescendantsOfAll(a[1..] + b);
    }
  }
}
