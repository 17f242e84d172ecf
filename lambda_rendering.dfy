/**
 * What the lambda node's display text, breadcrumb label and child suffix
 * promise, stated over the model in module Expressions.
 */
module LambdaRendering {
  import opened Wrappers
  import opened Strings
  import opened Expressions

  /** A lone parameter name does not open with "(", so that it cannot be
      mistaken for a parenthesised list. Nothing is asked of zero or of two or
      more names, nor of an empty lone name. */
  predicate LoneNameUnwrapped(args: seq<string>)
  {
    |args| == 1 && |args[0]| > 0 ==> args[0][0] != '('
  }

  /** Splits a lambda rendering whose body renders as `bodyText` into its head:
      None when the text does not end with " => " and that body. */
  function SplitRendering(r: string, bodyText: string): (head: Option<string>)
    ensures head.Some? <==> IsSuffix(" => " + bodyText, r)
    ensures head.Some? ==> r == head.value + " => " + bodyText
  {
    var tail := " => " + bodyText;
    if IsSuffix(tail, r) then
      assert r == r[..|r| - |tail|] + r[|r| - |tail|..];
      Some(r[..|r| - |tail|])
    else None
  }

  /** The parameter-name text recovered from a lambda rendering. */
  function JoinedArgsOf(r: string, bodyText: string): Option<string>
  {
    match SplitRendering(r, bodyText)
    case None => None
    case Some(head) => Some(Unparenthesize(head))
  }

  /** The rendering is the argument text, then " => ", then the body's own content. */
  lemma ContentShape(e: Expr, sep: string)
    requires WellFormed(e) && e.LambdaExpr?
    ensures Content(e, sep) == ArgsText(Args(e), sep) + " => " + Content(Body(e), sep)
  {
  }

  /** In particular the rendering ends with " => " and the body's content. */
  lemma ContentEndsWithBody(e: Expr, sep: string)
    requires WellFormed(e) && e.LambdaExpr?
    ensures IsSuffix(" => " + Content(Body(e), sep), Content(e, sep))
  {
    var tail := " => " + Content(Body(e), sep);
    var r := Content(e, sep);
    assert r == ArgsText(Args(e), sep) + tail;
    assert r[|r| - |tail|..] == tail;
  }

  /** With exactly one argument the name appears unparenthesised. */
  lemma SingleArgUnparenthesised(e: Expr, sep: string)
    requires WellFormed(e) && e.LambdaExpr? && |Args(e)| == 1
    ensures Content(e, sep) == Args(e)[0] + " => " + Content(Body(e), sep)
  {
  }

  /** With zero arguments, or two or more, the joined names are parenthesised. */
  lemma OtherArgCountsParenthesised(e: Expr, sep: string)
    requires WellFormed(e) && e.LambdaExpr? && |Args(e)| != 1
    ensures Content(e, sep) == "(" + StringJoin(Args(e), sep) + ") => " + Content(Body(e), sep)
  {
  }

  /** A lambda without parameters renders as "() => " and its body. */
  lemma NoArgsRendering(e: Expr, sep: string)
    requires WellFormed(e) && e.LambdaExpr? && Args(e) == []
    ensures Content(e, sep) == "() => " + Content(Body(e), sep)
  {
  }

  /** When a lone parameter name does not itself open with "(", the rendering opens with "("
      exactly when the lambda does not have exactly one parameter. */
  lemma OpensWithParenIffNotSingle(e: Expr, sep: string)
    requires WellFormed(e) && e.LambdaExpr?
    requires LoneNameUnwrapped(Args(e))
    ensures |Content(e, sep)| > 0
    ensures Content(e, sep)[0] == '(' <==> |Args(e)| != 1
  {
    var r := Content(e, sep);
    ContentShape(e, sep);
    if |Args(e)| == 1 {
      assert r == Args(e)[0] + " => " + Content(Body(e), sep);
      if |Args(e)[0]| > 0 {
        assert r[0] == Args(e)[0][0];
      } else {
        assert r[0] == ' ';
      }
    } else {
      assert r == "(" + StringJoin(Args(e), sep) + ")" + " => " + Content(Body(e), sep);
      assert r[0] == '(';
    }
  }

  /** The rendering loses no parameter text: given the body's content, the
      joined parameter names are recovered from it. */
  lemma ArgsRecoverable(e: Expr, sep: string)
    requires WellFormed(e) && e.LambdaExpr?
    requires LoneNameUnwrapped(Args(e))
    ensures JoinedArgsOf(Content(e, sep), Content(Body(e), sep)) == Some(StringJoin(Args(e), sep))
  {
    var r := Content(e, sep);
    var bodyText := Content(Body(e), sep);
    ContentEndsWithBody(e, sep);
    ContentShape(e, sep);
    var head := SplitRendering(r, bodyText).value;
    assert head + " => " + bodyText == ArgsText(Args(e), sep) + " => " + bodyText;
    assert head == ArgsText(Args(e), sep) by {
      var n := |head|;
      assert |ArgsText(Args(e), sep)| == n;
      assert head == (head + " => " + bodyText)[..n];
      assert ArgsText(Args(e), sep) == (ArgsText(Args(e), sep) + " => " + bodyText)[..n];
    }
    UnparenthesizeInverts(StringJoin(Args(e), sep), |Args(e)| != 1);
  }

  /** Rendering depends only on the joined parameter text, on whether there is
      exactly one parameter, and on the body's content. */
  lemma ContentDependsOnArgsAndBody(a: Expr, b: Expr, sep: string)
    requires WellFormed(a) && a.LambdaExpr? && WellFormed(b) && b.LambdaExpr?
    requires StringJoin(Args(a), sep) == StringJoin(Args(b), sep)
    requires |Args(a)| == 1 <==> |Args(b)| == 1
    requires Content(Body(a), sep) == Content(Body(b), sep)
    ensures Content(a, sep) == Content(b, sep)
  {
  }

  /** Conversely, two lambdas whose bodies render alike and which render alike
      have the same joined parameter text and agree on being single-parameter. */
  lemma EqualRenderingsEqualArgs(a: Expr, b: Expr, sep: string)
    requires WellFormed(a) && a.LambdaExpr? && WellFormed(b) && b.LambdaExpr?
    requires LoneNameUnwrapped(Args(a)) && LoneNameUnwrapped(Args(b))
    requires Content(a, sep) == Content(b, sep) && Content(Body(a), sep) == Content(Body(b), sep)
    ensures StringJoin(Args(a), sep) == StringJoin(Args(b), sep)
    ensures |Args(a)| == 1 <==> |Args(b)| == 1
  {
    ArgsRecoverable(a, sep);
    ArgsRecoverable(b, sep);
    OpensWithParenIffNotSingle(a, sep);
    OpensWithParenIffNotSingle(b, sep);
  }

  /** Trees that differ only in their type slots are both well formed or neither. */
  lemma {:induction false} SameShapeWellFormed(a: Expr, b: Expr)
    requires SameShape(a, b) && WellFormed(a)
    ensures WellFormed(b)
    decreases a
  {
    forall i | 0 <= i < |a.children| ensures WellFormed(b.children[i]) {
      SameShapeWellFormed(a.children[i], b.children[i]);
    }
  }

  /** Rendering does not read type information: filling in type slots anywhere
      in a tree leaves its content unchanged. */
  lemma {:induction false} ContentIgnoresTypes(a: Expr, b: Expr, sep: string)
    requires SameShape(a, b) && WellFormed(a)
    ensures WellFormed(b) && Content(a, sep) == Content(b, sep)
    decreases a
  {
    SameShapeWellFormed(a, b);
    if a.LambdaExpr? {
      ContentIgnoresTypes(a.children[0], b.children[0], sep);
    }
  }

  /** In particular the single type assignment to a node does not change its rendering. */
  lemma ContentAfterTypeAssignment(e: Expr, t: TypeHandle, sep: string)
    requires WellFormed(e) && e.ty == None
    ensures WellFormed(WithType(e, t)) && Content(WithType(e, t), sep) == Content(e, sep)
  {
    ContentIgnoresTypes(e, WithType(e, t), sep);
  }

  /** A lambda node's breadcrumb label is "λ", whatever its parameters and body. */
  lemma PathNodeIndependent(a: Expr, b: Expr)
    requires a.LambdaExpr? && b.LambdaExpr?
    ensures TPathNode(a) == TPathNode(b) == "λ"
  {
  }

  /** A lambda node adds no suffix for any of its children. */
  lemma PathSuffixAbsent(e: Expr)
    requires e.LambdaExpr?
    ensures forall i :: TPathSuffix(e, i) == None
  {
  }

  /** The renderings that appear in breadcrumbs of the compiler's diagnostics. */
  lemma GoldenRenderings(sep: string)
    ensures Content(NewLambda(["cmp"], Other(BinaryOp, [], None, "c.Name == ''")), sep) == "cmp => c.Name == ''"
    ensures Content(NewLambda(["c"], Other(Constant, [], None, "2")), sep) == "c => 2"
    ensures Content(NewLambda(["c"], Other(Invoke, [], None, "c()")), sep) == "c => c()"
  {
  }
}
