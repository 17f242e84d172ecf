/**
 * The two string helpers the lambda node renders with. Their own source is not
 * part of this model; they are given the smallest meaning their names and the
 * rendered strings support:
 *   - StringJoin glues the items together with a separator that is a parameter,
 *     because no rendering with two or more arguments shows which one is used;
 *   - ParenthesizeIf wraps its text in "(" and ")" exactly when its flag is set.
 */
module Strings {

  /** The items in order, with `sep` between each two neighbours. */
  function StringJoin(xs: seq<string>, sep: string): (r: string)
    ensures xs == [] ==> r == ""
    ensures |xs| == 1 ==> r == xs[0]
    ensures |xs| > 0 ==> xs[0] <= r
  {
    if |xs| == 0 then ""
    else if |xs| == 1 then xs[0]
    else xs[0] + sep + StringJoin(xs[1..], sep)
  }

  function ParenthesizeIf(s: string, cond: bool): (r: string)
    ensures |r| == |s| + (if cond then 2 else 0)
    ensures cond ==> r[0] == '(' && r[|r| - 1] == ')' && r[1..|r| - 1] == s
    ensures !cond ==> r == s
  {
    if cond then "(" + s + ")" else s
  }

  /** The total length of the items. */
  function TotalLength(xs: seq<string>): nat
  {
    if xs == [] then 0 else |xs[0]| + TotalLength(xs[1..])
  }

  /** Joining adds exactly one separator between each two neighbours and nothing else. */
  lemma {:induction false} StringJoinLength(xs: seq<string>, sep: string)
    requires |xs| > 0
    ensures |StringJoin(xs, sep)| == TotalLength(xs) + (|xs| - 1) * |sep|
  {
    if |xs| == 1 {
      assert xs[1..] == [];
    } else {
      StringJoinLength(xs[1..], sep);
    }
  }

  /** Joining one more item at the end appends the separator and that item. */
  lemma {:induction false} StringJoinSnoc(xs: seq<string>, x: string, sep: string)
    requires |xs| > 0
    ensures StringJoin(xs + [x], sep) == StringJoin(xs, sep) + sep + x
  {
    assert (xs + [x])[0] == xs[0];
    assert (xs + [x])[1..] == xs[1..] + [x];
    if |xs| > 1 {
      StringJoinSnoc(xs[1..], x, sep);
    }
  }

  /** `s` is the tail of `t`. */
  predicate IsSuffix(s: string, t: string)
  {
    |s| <= |t| && t[|t| - |s|..] == s
  }

  /** Undoes ParenthesizeIf: strips one pair of enclosing parentheses, if there is one. */
  function Unparenthesize(s: string): (r: string)
    ensures |s| >= 2 && s[0] == '(' && s[|s| - 1] == ')' ==> "(" + r + ")" == s
    ensures !(|s| >= 2 && s[0] == '(' && s[|s| - 1] == ')') ==> r == s
  {
    if |s| >= 2 && s[0] == '(' && s[|s| - 1] == ')' then s[1..|s| - 1] else s
  }

  /** Unparenthesize inverts ParenthesizeIf, for any text when the flag is
      set and for text not opening with "(" when it is not. */
  lemma UnparenthesizeInverts(s: string, cond: bool)
    requires !cond ==> |s| == 0 || s[0] != '('
    ensures Unparenthesize(ParenthesizeIf(s, cond)) == s
  {
    if cond {
      var p := "(" + s + ")";
      assert p[0] == '(' && p[|p| - 1] == ')';
      assert p[1..|p| - 1] == s;
    }
  }
}
