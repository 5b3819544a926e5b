/**
 * The small slice of JavaScript value semantics the modelled code relies on:
 * truthiness, the `||` default idiom, `!== false`, ASCII `toLowerCase`,
 * `String.prototype.includes` and the white-space set used by `trim`.
 *
 * A JavaScript string is a Dafny `string`, whose `char`s are Unicode scalar
 * values. JavaScript counts UTF-16 code units instead, so a character above
 * U+FFFF (a surrogate pair) counts twice there: `Utf16Length` is the
 * JavaScript `length`.
 */
module JsValues {

  /** A JSON-like JavaScript value as it arrives in a request body or from
      extension storage. `Undefined` is a missing property. JSON carries no
      NaN, so numbers are plain reals. Arrays and objects are `Composite`. */
  datatype Value =
    | Undefined
    | Null
    | Bool(b: bool)
    | Num(n: real)
    | Str(s: string)
    | Composite

  /** JavaScript truthiness: `undefined`, `null`, `false`, `0` and `""` are falsy. */
  predicate Truthy(v: Value)
  {
    match v
    case Undefined => false
    case Null => false
    case Bool(b) => b
    case Num(n) => n != 0.0
    case Str(s) => s != ""
    case Composite => true
  }

  /** `a || b`: the first operand when it is truthy, otherwise the second. */
  function Or(a: Value, b: Value): (r: Value)
    ensures Truthy(a) ==> r == a
    ensures !Truthy(a) ==> r == b
  {
    if Truthy(a) then a else b
  }

  /** `v !== false` under strict equality. */
  predicate NotStrictlyFalse(v: Value)
  {
    v != Bool(false)
  }

  /** A non-empty string: exactly the values that pass `!v || typeof v !== 'string'`
      unrejected. */
  predicate NonEmptyString(v: Value)
  {
    v.Str? && v.s != ""
  }

  lemma NonEmptyStringIsTruthyString(v: Value)
    ensures NonEmptyString(v) <==> (Truthy(v) && v.Str?)
  {
  }

  /** The number of UTF-16 code units that encode `c`: two for a character
      outside the Basic Multilingual Plane, one otherwise. */
  function CodeUnits(c: char): (n: nat)
    ensures n == 1 || n == 2
    ensures n == 2 <==> c as int > 0xFFFF
  {
    if c as int > 0xFFFF then 2 else 1
  }

  /** `s.length`: the number of UTF-16 code units. */
  function Utf16Length(s: string): (n: nat)
    ensures |s| <= n <= 2 * |s|
    // it agrees with the character count exactly when no character needs a surrogate pair
    ensures n == |s| <==> forall i :: 0 <= i < |s| ==> CodeUnits(s[i]) == 1
    ensures n == 2 * |s| <==> forall i :: 0 <= i < |s| ==> CodeUnits(s[i]) == 2
  {
    if s == [] then 0
    else
      var n := CodeUnits(s[0]) + Utf16Length(s[1..]);
      assert forall i :: 1 <= i < |s| ==> s[1..][i - 1] == s[i];
      n
  }

  /** The length of a concatenation is the sum of the lengths. */
  lemma {:induction false} Utf16LengthAppend(a: string, b: string)
    ensures Utf16Length(a + b) == Utf16Length(a) + Utf16Length(b)
    decreases |a|
  {
    if a == [] {
      assert a + b == b;
    } else {
      assert (a + b)[0] == a[0] && (a + b)[1..] == a[1..] + b;
      Utf16LengthAppend(a[1..], b);
    }
  }

  /** `toLowerCase` restricted to the ASCII letters. */
  function LowerChar(c: char): (d: char)
    ensures 'A' <= c <= 'Z' ==> 'a' <= d <= 'z' && d as int - c as int == 32
    ensures !('A' <= c <= 'Z') ==> d == c
  {
    if 'A' <= c <= 'Z' then (c as int + 32) as char else c
  }

  /** `s.toLowerCase()`, ASCII letters only. */
  function Lower(s: string): (r: string)
    ensures |r| == |s|
    ensures forall i :: 0 <= i < |s| ==> r[i] == LowerChar(s[i])
  {
    if s == [] then [] else [LowerChar(s[0])] + Lower(s[1..])
  }

  /** `p` occurs in `s` starting at index `i`. */
  predicate OccursAt(s: string, p: string, i: int)
  {
    0 <= i && i + |p| <= |s| && s[i..i + |p|] == p
  }

  /** The search `includes` performs, from index `i` onwards. */
  function IncludesFrom(s: string, p: string, i: nat): (r: bool)
    requires i <= |s| + 1
    ensures r <==> exists j :: i <= j && OccursAt(s, p, j)
    decreases |s| + 1 - i
  {
    if i + |p| > |s| then
      assert forall j :: i <= j ==> !OccursAt(s, p, j);
      false
    else if s[i..i + |p|] == p then
      assert OccursAt(s, p, i);
      true
    else
      var r := IncludesFrom(s, p, i + 1);
      assert forall j :: i <= j ==> (OccursAt(s, p, j) <==> (j == i && OccursAt(s, p, i)) || (i + 1 <= j && OccursAt(s, p, j)));
      r
  }

  /** `s.includes(p)`. */
  function Includes(s: string, p: string): (r: bool)
    ensures r <==> exists j :: OccursAt(s, p, j)
  {
    IncludesFrom(s, p, 0)
  }

  /** The characters `String.prototype.trim` removes: the ECMAScript
      WhiteSpace and LineTerminator productions (the Zs category spelled out). */
  predicate IsJsWhitespace(c: char)
  {
    || c == '\t' || c == '\n' || c == '\U{000B}' || c == '\U{000C}' || c == '\r'
    || c == ' ' || c == '\U{00A0}' || c == '\U{1680}'
    || ('\U{2000}' <= c <= '\U{200A}')
    || c == '\U{2028}' || c == '\U{2029}' || c == '\U{202F}' || c == '\U{205F}'
    || c == '\U{3000}' || c == '\U{FEFF}'
  }

  /** `s.trim()` is empty, i.e. falsy. */
  predicate IsBlank(s: string)
  {
    forall i :: 0 <= i < |s| ==> IsJsWhitespace(s[i])
  }
}
