/** String helpers of the .NET base library that the application relies on:
    nullable strings, string.IsNullOrWhiteSpace, ordinal case-insensitive
    comparison and containment, and string.Join. */
module Text {

  /** A nullable reference: `None` stands for C#'s `null`. */
  datatype Option<+T> = None | Some(value: T)

  /** char.IsWhiteSpace: the control characters U+0009 to U+000D and U+0085,
      and the members of the Unicode categories Zs, Zl and Zp. */
  predicate IsWhiteSpace(c: char) {
    || ('\U{0009}' <= c <= '\U{000D}')
    || c == ' '
    || c == '\U{0085}'
    || c == '\U{00A0}'
    || c == '\U{1680}'
    || ('\U{2000}' <= c <= '\U{200A}')
    || c == '\U{2028}'
    || c == '\U{2029}'
    || c == '\U{202F}'
    || c == '\U{205F}'
    || c == '\U{3000}'
  }

  /** string.IsNullOrWhiteSpace: null, empty, or white space only. */
  predicate IsNullOrWhiteSpace(s: Option<string>) {
    s.None? || forall k :: 0 <= k < |s.value| ==> IsWhiteSpace(s.value[k])
  }

  /** The case mapping used by StringComparison.OrdinalIgnoreCase, restricted
      to ASCII: lower-case Latin letters map to upper case. */
  function FoldChar(c: char): char {
    if 'a' <= c <= 'z' then (c as int - 'a' as int + 'A' as int) as char else c
  }

  function Fold(s: string): string {
    seq(|s|, k requires 0 <= k < |s| => FoldChar(s[k]))
  }

  /** string.Equals(a, b, StringComparison.OrdinalIgnoreCase): two nulls are
      equal, a null and a non-null string are not. */
  predicate EqualsIgnoreCase(a: Option<string>, b: Option<string>) {
    match (a, b)
    case (None, None) => true
    case (Some(x), Some(y)) => Fold(x) == Fold(y)
    case _ => false
  }

  predicate OccursAt(p: string, t: string, k: nat) {
    k + |p| <= |t| && t[k..k + |p|] == p
  }

  /** s.Contains(q, StringComparison.OrdinalIgnoreCase). */
  predicate ContainsIgnoreCase(s: string, q: string) {
    exists k :: 0 <= k <= |s| && OccursAt(Fold(q), Fold(s), k)
  }

  /** string.Join(sep, parts). */
  function Join(sep: string, parts: seq<string>): string {
    if |parts| == 0 then ""
    else if |parts| == 1 then parts[0]
    else parts[0] + sep + Join(sep, parts[1..])
  }

  /** Case-insensitive equality is an equivalence on strings, so "already held
      by someone" is a well-defined question. */
  lemma EqualsIgnoreCaseIsEquivalence(a: Option<string>, b: Option<string>, c: Option<string>)
    ensures EqualsIgnoreCase(a, a)
    ensures EqualsIgnoreCase(a, b) <==> EqualsIgnoreCase(b, a)
    ensures EqualsIgnoreCase(a, b) && EqualsIgnoreCase(b, c) ==> EqualsIgnoreCase(a, c)
  {
  }

  /** Every string contains itself, in any case. */
  lemma {:induction false} ContainsItself(s: string, q: string)
    requires Fold(s) == Fold(q)
    ensures ContainsIgnoreCase(s, q)
  {
    assert OccursAt(Fold(q), Fold(s), 0);
  }
}
