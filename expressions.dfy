/**
 * Nodes of the script syntax tree, as far as the inline-function (lambda) node
 * needs them. A Lambda node is built from its parameter names and its body; the
 * body is registered as the node's single child and read back from the child
 * list. Every other kind of node is represented only by what a lambda needs from
 * it: its kind, its children and the display text it renders (the content
 * rules of those node kinds are not part of this model). Each node also has the
 * inferred-type slot that type inference fills in once.
 */
module Expressions {
  import opened Wrappers
  import opened Strings

  /** Kinds of script syntax nodes. */
  datatype ExpressionType =
    | Constant | Variable | MemberAccess | Indexer | Invoke
    | Lambda | Conditional | New | BinaryOp

  /** What type inference writes into a node's type slot. */
  datatype TypeHandle =
    | Concrete(name: string)
    | Unresolved
    | FunctionType(params: seq<TypeHandle>, ret: TypeHandle)

  datatype Expr =
    | LambdaExpr(args: seq<string>, children: seq<Expr>, ty: Option<TypeHandle>)
    | Other(kind: ExpressionType, children: seq<Expr>, ty: Option<TypeHandle>, text: string)

  function NodeType(e: Expr): ExpressionType
  {
    match e
    case LambdaExpr(_, _, _) => Lambda
    case Other(kind, _, _, _) => kind
  }

  function Children(e: Expr): seq<Expr>
  {
    e.children
  }

  /** A tree every node of which could have been built by its constructor: a
      lambda node holds exactly one child, and only lambda nodes have kind Lambda. */
  predicate WellFormed(e: Expr)
    decreases e
  {
    match e
    case LambdaExpr(_, kids, _) => |kids| == 1 && WellFormed(kids[0])
    case Other(kind, kids, _, _) =>
      kind != Lambda && forall i :: 0 <= i < |kids| ==> WellFormed(kids[i])
  }

  /** The parameter names of a lambda node. */
  function Args(e: Expr): (r: seq<string>)
    requires e.LambdaExpr?
    ensures |r| == |e.args| && forall k :: 0 <= k < |r| ==> r[k] == e.args[k]
  {
    e.args
  }

  /** The body of a lambda node: its first child. */
  function Body(e: Expr): (r: Expr)
    requires e.LambdaExpr? && |e.children| > 0
    ensures r in Children(e) && r < e
    ensures WellFormed(e) ==> Children(e) == [r] && WellFormed(r)
  {
    e.children[0]
  }

  /** The lambda node's constructor. */
  function NewLambda(args: seq<string>, body: Expr): (e: Expr)
    ensures e.LambdaExpr? && NodeType(e) == Lambda
    ensures Children(e) == [body] && Body(e) == Children(e)[0] && Body(e) == body
    ensures Args(e) == args
    ensures e.ty == None
    ensures WellFormed(e) <==> WellFormed(body)
  {
    LambdaExpr(args, [body], None)
  }

  /** The breadcrumb label of a lambda node. */
  function TPathNode(e: Expr): (r: string)
    requires e.LambdaExpr?
    ensures r == "λ"
  {
    "λ"
  }

  /** The per-child breadcrumb suffix of a lambda node; None stands for null. */
  function TPathSuffix(e: Expr, childIndex: int): (r: Option<string>)
    requires e.LambdaExpr?
    ensures r.None?
  {
    None
  }

  /** The text a lambda rendering carries before its " => " and body: a lone
      parameter name as it is, any other number of names joined and parenthesised. */
  function ArgsText(args: seq<string>, sep: string): (r: string)
    ensures |args| == 1 ==> r == args[0]
    ensures |args| != 1 ==> r == "(" + StringJoin(args, sep) + ")"
  {
    ParenthesizeIf(StringJoin(args, sep), |args| != 1)
  }

  /** The display text of a lambda with parameter names `args` whose body renders as `bodyText`. */
  function RenderLambda(args: seq<string>, bodyText: string, sep: string): (r: string)
    ensures IsSuffix(" => " + bodyText, r)
    ensures r[..|r| - |" => " + bodyText|] == ArgsText(args, sep)
  {
    var head := ArgsText(args, sep);
    assert (head + " => " + bodyText)[..|head|] == head;
    head + " => " + bodyText
  }

  /** The display text of a node; `sep` is the separator StringJoin uses. A
      lambda node's content is what its GetContent renders: its parameters and
      the body's own content. */
  function Content(e: Expr, sep: string): (r: string)
    requires WellFormed(e)
    ensures e.Other? ==> r == e.text
    ensures e.LambdaExpr? ==> r == RenderLambda(Args(e), Content(Body(e), sep), sep)
    decreases e
  {
    match e
    case Other(_, _, _, text) => text
    case LambdaExpr(args, kids, _) => RenderLambda(args, Content(kids[0], sep), sep)
  }

  /** The two trees are equal except, possibly, for their type slots. */
  predicate SameShape(a: Expr, b: Expr)
    decreases a
  {
    |a.children| == |b.children|
    && (forall i :: 0 <= i < |a.children| ==> SameShape(a.children[i], b.children[i]))
    && match a
       case LambdaExpr(args, _, _) => b.LambdaExpr? && b.args == args
       case Other(kind, _, _, text) => b.Other? && b.kind == kind && b.text == text
  }

  lemma {:induction false} SameShapeReflexive(e: Expr)
    ensures SameShape(e, e)
    decreases e
  {
    forall i | 0 <= i < |e.children| ensures SameShape(e.children[i], e.children[i]) {
      SameShapeReflexive(e.children[i]);
    }
  }

  /** The single write into a node's still empty type slot. */
  function WithType(e: Expr, t: TypeHandle): (r: Expr)
    requires e.ty == None
    ensures r.ty == Some(t)
    ensures SameShape(e, r)
    ensures NodeType(r) == NodeType(e) && Children(r) == Children(e)
  {
    SameShapeReflexive(e);
    e.(ty := Some(t))
  }
}
