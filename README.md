# Relinq script syntax: the inline-function (lambda) node

Relinq compiles a JavaScript-like query script into a statically typed .NET
expression tree. Its script syntax tree is made of immutable nodes. Each node
has a kind, an ordered list of children and two renderings used in
diagnostics: its display text ("content") and a breadcrumb label. This project
models the lambda node, `LambdaExpression`, and proves what its construction and
rendering promise.

- `wrappers.dfy`: `Option`. `None` stands for the source's `null`.
- `strings.dfy`: the two string helpers the lambda renders with, `StringJoin`
  and `ParenthesizeIf`. Their own code is not part of this model. `StringJoin`
  takes its separator as a parameter, because no rendering with two or more
  parameters shows which separator is used. `ParenthesizeIf(s, b)` is
  `"(" + s + ")"` when `b` holds and `s` otherwise, which is what its name and
  the single-parameter renderings support. The file also has the inverse,
  `Unparenthesize`.
- `expressions.dfy`: the syntax tree. A lambda node keeps its parameter names
  and its child list. It reads its body back as the first child, just as the
  source does. Every other node kind is represented only by its kind, its
  children and the display text it renders. The model also gives each node a
  type slot, filled in once (`WithType`). The lambda's code has no such slot;
  it is there only so that rendering can be shown not to read it. `Content` is the
  display text; `sep` is the separator `StringJoin` uses.
- `lambda_rendering.dfy`: the properties of the lambda node.

The base class's `Content` property is not part of this model; the model takes
a lambda node's `Content` to be what its `GetContent` renders. The nested
renderings in the compiler's diagnostics, such as `c => c.LolMethod9(c, c => 2)`,
where an inner lambda's text appears inside an outer one, support that choice.

`Content` is a function, so rendering the same node twice always gives the same
string. `ContentIgnoresTypes` shows that the string does not depend on any type
information either.

## Model

| member | source | states |
|---|---|---|
| `Expressions.NewLambda` | Source/Relinq/Script/Syntax/Expressions/LambdaExpression.cs:14-19 | the new node has kind Lambda and children exactly `[body]`; its Body is that single child and equals `body`; its Args are kept unchanged and in order; its type slot is empty; it is well formed exactly when the body is |
| `Expressions.Args` | Source/Relinq/Script/Syntax/Expressions/LambdaExpression.cs:11 | the parameter names a lambda node keeps, element for element |
| `Expressions.Body` | Source/Relinq/Script/Syntax/Expressions/LambdaExpression.cs:17-18 | the body is read back from the child list: it is one of the node's children, and in a well-formed node the child list is exactly `[body]` |
| `Expressions.ArgsText` | Source/Relinq/Script/Syntax/Expressions/LambdaExpression.cs:27 | the parameter part of the rendering: a lone name as it is, otherwise the joined names in parentheses |
| `Expressions.RenderLambda` | Source/Relinq/Script/Syntax/Expressions/LambdaExpression.cs:26-27 | the `"{0} => {1}"` format: the result ends with ` => ` and the body text, and what comes before is exactly the parameter part |
| `Expressions.Content` | Source/Relinq/Script/Syntax/Expressions/LambdaExpression.cs:24-28 | a lambda node's content is its `GetContent` rendering of its Args and its body's own content; a node of any other kind renders its given text |
| `Expressions.TPathNode` | Source/Relinq/Script/Syntax/Expressions/LambdaExpression.cs:21 | the breadcrumb label of a lambda node is the constant `λ` |
| `Expressions.TPathSuffix` | Source/Relinq/Script/Syntax/Expressions/LambdaExpression.cs:22 | the per-child breadcrumb suffix of a lambda node is null |
| `Strings.StringJoin` | Source/Relinq/Script/Syntax/Expressions/LambdaExpression.cs:27 | joining no names gives the empty text, joining one name gives that name, and the first name always opens the result |
| `Strings.StringJoinLength` | Source/Relinq/Script/Syntax/Expressions/LambdaExpression.cs:27 | a join is exactly as long as its items plus one separator between each two neighbours |
| `Strings.StringJoinSnoc` | Source/Relinq/Script/Syntax/Expressions/LambdaExpression.cs:27 | joining one more name at the end appends the separator and that name |
| `Strings.ParenthesizeIf` | Source/Relinq/Script/Syntax/Expressions/LambdaExpression.cs:27 | with the flag set the result is the text between `(` and `)`, two characters longer; without it the text is unchanged |
| `LambdaRendering.ContentShape` | Source/Relinq/Script/Syntax/Expressions/LambdaExpression.cs:24-28 | a lambda's display text is the argument text, then ` => `, then the body's own content |
| `LambdaRendering.ContentEndsWithBody` | Source/Relinq/Script/Syntax/Expressions/LambdaExpression.cs:26-27 | the display text always ends with ` => ` followed by the body's content |
| `LambdaRendering.SingleArgUnparenthesised` | Source/Relinq/Script/Syntax/Expressions/LambdaExpression.cs:27 | with exactly one parameter, the text is that name, unparenthesised, then ` => ` and the body |
| `LambdaRendering.OtherArgCountsParenthesised` | Source/Relinq/Script/Syntax/Expressions/LambdaExpression.cs:27 | with zero parameters, or with two or more, the joined names are wrapped in parentheses before ` => ` |
| `LambdaRendering.NoArgsRendering` | Source/Relinq/Script/Syntax/Expressions/LambdaExpression.cs:27 | a lambda without parameters renders as `() => ` followed by its body |
| `LambdaRendering.OpensWithParenIffNotSingle` | Source/Relinq/Script/Syntax/Expressions/LambdaExpression.cs:27 | when a non-empty lone parameter name does not itself open with `(` (`LoneNameUnwrapped`; nothing is asked of zero or of two or more names, nor of an empty lone name), the text opens with `(` if and only if there is not exactly one parameter |
| `LambdaRendering.ArgsRecoverable` | Source/Relinq/Script/Syntax/Expressions/LambdaExpression.cs:26-27 | under `LoneNameUnwrapped` (a non-empty lone name does not open with `(`), splitting off ` => body` given the body's content and removing the parentheses gives back exactly the joined parameter names: rendering loses no parameter text |
| `LambdaRendering.ContentDependsOnArgsAndBody` | Source/Relinq/Script/Syntax/Expressions/LambdaExpression.cs:24-28 | two lambdas whose joined parameter text is the same, which agree on having exactly one parameter, and whose bodies render alike, render alike |
| `LambdaRendering.EqualRenderingsEqualArgs` | Source/Relinq/Script/Syntax/Expressions/LambdaExpression.cs:24-28 | conversely, under `LoneNameUnwrapped` for both, two lambdas that render alike, with bodies that render alike, have the same joined parameter text and agree on having exactly one parameter; with `ContentDependsOnArgsAndBody` this is an if-and-only-if |
| `LambdaRendering.ContentIgnoresTypes` | Source/Relinq/Script/Syntax/Expressions/LambdaExpression.cs:24-28 | trees that differ only in their type slots render identically: a lambda's rendering reads no type slot at any lambda depth, given that the text of other node kinds (held as data) is the same |
| `LambdaRendering.ContentAfterTypeAssignment` | Source/Relinq/Script/Syntax/Expressions/LambdaExpression.cs:24-28 | writing the inferred type into a node's empty slot leaves its display text unchanged |
| `LambdaRendering.PathNodeIndependent` | Source/Relinq/Script/Syntax/Expressions/LambdaExpression.cs:21 | every lambda node's breadcrumb label is `λ`, whatever its parameters and body |
| `LambdaRendering.PathSuffixAbsent` | Source/Relinq/Script/Syntax/Expressions/LambdaExpression.cs:22 | a lambda node's per-child suffix is null for every child index |
| `LambdaRendering.GoldenRenderings` | Source/Relinq.Playground/RelinqScriptCompilerExceptionsTests1.cs:39 | the model reproduces the renderings `cmp => c.Name == ''`, `c => 2` (tests line 193) and `c => c()` (tests line 465) |
| `Strings.UnparenthesizeInverts` | Source/Relinq/Script/Syntax/Expressions/LambdaExpression.cs:27 | removing the parentheses that `ParenthesizeIf` adds gives back its input; unparenthesised text that does not open with `(` is returned as it is |

## Left out

- The `RelinqScriptExpression` base class is not part of this model. That covers how it stores children, how it turns `GetContent` into `Content`, and how it puts labels and suffixes together into breadcrumbs such as `/()/arg0:λ`. The breadcrumb label and suffix are stated only for the lambda node.
- The content rules of the other node kinds (member access, invocation, conditionals and so on) are not shown, so their display text is given as data in `Other`. As a result the model does not derive a nested rendering such as `c => c.LolMethod9(c, c => 2)`.
- The separator `StringJoin` puts between parameter names is a parameter, because no rendering with two or more parameters appears in the source.
- `TPathNode`, `TPathSuffix`: defined only for lambda nodes, because the overrides for the other node kinds are not shown.
- C# `null` for the parameter list or the body is not modelled, and neither is re-enumerating a lazy `IEnumerable`. Here the parameters are a plain sequence and the body is always present.
- The type-inference engine, scope tracking, overload resolution and the diagnostic records are not part of this model. The type slot is there only so that rendering can be shown not to depend on it.
