/**
  The string primitives of .NET that the modelled code relies on: `char.IsWhiteSpace`,
  `string.IsNullOrWhiteSpace`, ordinal case-insensitive comparison, the `[A-Za-z0-9_]`
  character class, decimal rendering of integers and `string.Join`.
  A `char` stands for one UTF-16 code unit of the source.
*/
module Text {
  import opened Wrappers

  /** `char.IsWhiteSpace`: the Unicode space, line and paragraph separators together with
      U+0009..U+000D, U+0085 and U+00A0. */
  predicate IsWhiteSpace(c: char) {
    || c == ' '
    || ('\t' <= c <= '\r')
    || c == '\U{85}'
    || c == '\U{A0}'
    || c == '\U{1680}'
    || ('\U{2000}' <= c <= '\U{200A}')
    || c == '\U{2028}'
    || c == '\U{2029}'
    || c == '\U{202F}'
    || c == '\U{205F}'
    || c == '\U{3000}'
  }

  /** `string.IsNullOrWhiteSpace` on a non-null string: empty, or only white space. */
  predicate IsBlank(s: string) {
    forall i | 0 <= i < |s| :: IsWhiteSpace(s[i])
  }

  /** `string.IsNullOrWhiteSpace` on a nullable string. */
  predicate IsNullOrWhiteSpace(s: Option<string>) {
    s.None? || IsBlank(s.value)
  }

  /** The regular-expression class `[A-Za-z0-9_]`. */
  predicate IsWordChar(c: char) {
    ('A' <= c <= 'Z') || ('a' <= c <= 'z') || ('0' <= c <= '9') || c == '_'
  }

  predicate IsWord(s: string) {
    forall i | 0 <= i < |s| :: IsWordChar(s[i])
  }

  lemma WordIsNotBlank(s: string)
    requires IsWord(s) && |s| > 0
    ensures !IsBlank(s)
  {
    assert !IsWhiteSpace(s[0]);
  }

  /** The folding behind `StringComparison.OrdinalIgnoreCase`, on the ASCII letters. */
  function Fold(c: char): (f: char)
    ensures 'a' <= c <= 'z' ==> f as int == c as int - 32
    ensures !('a' <= c <= 'z') ==> f == c
  {
    if 'a' <= c <= 'z' then (c as int - 32) as char else c
  }

  function FoldString(s: string): (r: string)
    ensures |r| == |s|
    ensures forall i | 0 <= i < |s| :: r[i] == Fold(s[i])
  {
    seq(|s|, i requires 0 <= i < |s| => Fold(s[i]))
  }

  /** `string.Equals(a, b, StringComparison.OrdinalIgnoreCase)` on non-null strings. */
  predicate EqualsIgnoreCase(a: string, b: string) {
    FoldString(a) == FoldString(b)
  }

  /** The first index of `name` in `names`, compared case-insensitively when `ignoreCase`. */
  function IndexOf(names: seq<string>, name: string, ignoreCase: bool): (r: Option<nat>)
    ensures r.Some? ==> r.value < |names| && Matches(names[r.value], name, ignoreCase)
    ensures r.Some? ==> forall j | 0 <= j < r.value :: !Matches(names[j], name, ignoreCase)
    ensures r.None? ==> forall j | 0 <= j < |names| :: !Matches(names[j], name, ignoreCase)
  {
    if |names| == 0 then None
    else if Matches(names[0], name, ignoreCase) then Some(0)
    else match IndexOf(names[1..], name, ignoreCase)
      case Some(i) => Some(i + 1)
      case None => None
  }

  predicate Matches(a: string, b: string, ignoreCase: bool) {
    if ignoreCase then EqualsIgnoreCase(a, b) else a == b
  }

  /** How many entries of `names` equal `name` ignoring case. */
  function CountIgnoreCase(names: seq<string>, name: string): (n: nat)
    ensures n <= |names|
    ensures n == 0 <==> forall j | 0 <= j < |names| :: !EqualsIgnoreCase(names[j], name)
  {
    if |names| == 0 then 0
    else (if EqualsIgnoreCase(names[0], name) then 1 else 0) + CountIgnoreCase(names[1..], name)
  }

  /** The decimal digit `d` as a character. */
  function DigitChar(d: nat): (c: char)
    requires d < 10
    ensures '0' <= c <= '9' && c as int - '0' as int == d
  {
    (d + '0' as int) as char
  }

  predicate IsDigit(c: char) {
    '0' <= c <= '9'
  }

  /** `n.ToString()` for a non-negative integer: its shortest decimal representation. */
  function NatToDecimal(n: nat): (s: string)
    ensures |s| >= 1
    ensures forall i | 0 <= i < |s| :: IsDigit(s[i])
  {
    if n < 10 then [DigitChar(n)] else NatToDecimal(n / 10) + [DigitChar(n % 10)]
  }

  /** `i.ToString()` (with the invariant culture's negative sign). */
  function IntToDecimal(i: int): string {
    if i < 0 then "-" + NatToDecimal(-i) else NatToDecimal(i)
  }

  /** Reads back a non-empty run of decimal digits. */
  function ParseNat(s: string): Option<nat> {
    if |s| == 0 || !IsDigit(s[|s| - 1]) then None
    else if |s| == 1 then Some(s[0] as int - '0' as int)
    else match ParseNat(s[..|s| - 1])
      case Some(p) => Some(p * 10 + (s[|s| - 1] as int - '0' as int))
      case None => None
  }

  /** Reads back an optionally negative decimal integer. */
  function ParseInt(s: string): Option<int> {
    if |s| > 0 && s[0] == '-' then
      match ParseNat(s[1..])
      case Some(n) => Some(-(n as int))
      case None => None
    else match ParseNat(s)
      case Some(n) => Some(n)
      case None => None
  }

  lemma {:induction false} ParseNatToDecimal(n: nat)
    ensures ParseNat(NatToDecimal(n)) == Some(n)
  {
    if n >= 10 {
      var s := NatToDecimal(n);
      assert s[..|s| - 1] == NatToDecimal(n / 10);
      ParseNatToDecimal(n / 10);
    }
  }

  /** Decimal rendering is injective: the number can be read back from its text. */
  lemma ParseIntToDecimal(i: int)
    ensures ParseInt(IntToDecimal(i)) == Some(i)
  {
    if i < 0 {
      ParseNegativeDecimal(-i);
    } else {
      ParseNatToDecimal(i);
      var s := NatToDecimal(i);
      assert IsDigit(s[0]) && s[0] != '-';
    }
  }

  lemma ParseNegativeDecimal(n: nat)
    ensures ParseInt("-" + NatToDecimal(n)) == Some(-(n as int))
  {
    var s := "-" + NatToDecimal(n);
    assert s[0] == '-' && s[1..] == NatToDecimal(n);
    ParseNatToDecimal(n);
  }

  /** `string.Join(sep, xs)`. */
  function Join(sep: string, xs: seq<string>): string {
    if |xs| == 0 then ""
    else if |xs| == 1 then xs[0]
    else xs[0] + sep + Join(sep, xs[1..])
  }

  /** The text before the first occurrence of `c`: what an SQL parser reads as the body of
      a quoted identifier or literal that `c` closes. */
  function TakeUntil(s: string, c: char): (r: string)
    ensures |r| <= |s| && r == s[..|r|]
    ensures c !in r
    ensures |r| < |s| ==> s[|r|] == c
  {
    if |s| == 0 || s[0] == c then [] else [s[0]] + TakeUntil(s[1..], c)
  }

  /** A quoted body free of its closing character is read back exactly. */
  lemma {:induction false} TakeUntilQuoted(body: string, c: char, rest: string)
    requires c !in body
    ensures TakeUntil(body + [c] + rest, c) == body
  {
    if |body| > 0 {
      assert (body + [c] + rest)[1..] == body[1..] + [c] + rest;
      TakeUntilQuoted(body[1..], c, rest);
    }
  }

  /** In `head + marker + body + [c] + rest`, the marker sits right after `head` and the
      quoted body that follows it is read back exactly. */
  lemma QuotedAfter(head: string, marker: string, body: string, c: char, rest: string)
    requires c !in body
    ensures var s := head + marker + body + [c] + rest;
      && s[|head|..|head| + |marker|] == marker
      && TakeUntil(s[|head| + |marker|..], c) == body
  {
    var s := head + marker + body + [c] + rest;
    assert s[|head| + |marker|..] == body + [c] + rest;
    assert s[|head|..|head| + |marker|] == marker;
    TakeUntilQuoted(body, c, rest);
  }

  /** With no match `IndexOf` reports nothing. */
  lemma IndexOfNoMatch(names: seq<string>, name: string, ignoreCase: bool)
    requires forall j | 0 <= j < |names| :: !Matches(names[j], name, ignoreCase)
    ensures IndexOf(names, name, ignoreCase) == None
  {
  }

  /** The first matching index is the only index `IndexOf` can report. */
  lemma IndexOfFirstMatch(names: seq<string>, name: string, ignoreCase: bool, k: nat)
    requires k < |names| && Matches(names[k], name, ignoreCase)
    requires forall j | 0 <= j < k :: !Matches(names[j], name, ignoreCase)
    ensures IndexOf(names, name, ignoreCase) == Some(k)
  {
  }

  /** Case-insensitive lookup does not depend on the casing of the probe. */
  lemma IndexOfRespectsCase(names: seq<string>, a: string, b: string)
    requires EqualsIgnoreCase(a, b)
    ensures IndexOf(names, a, true) == IndexOf(names, b, true)
  {
    var ia := IndexOf(names, a, true);
    var ib := IndexOf(names, b, true);
    if ia.Some? {
      assert Matches(names[ia.value], b, true);
    }
    if ib.Some? {
      assert Matches(names[ib.value], a, true);
    }
  }

  /** Ordinal string order (`string.CompareOrdinal(a, b) <= 0`): code unit by code unit, a
      prefix before any longer string. */
  predicate LexLessOrEqual(a: string, b: string) {
    if |a| == 0 then true
    else if |b| == 0 then false
    else if a[0] != b[0] then a[0] < b[0]
    else LexLessOrEqual(a[1..], b[1..])
  }

  lemma {:induction false} LexTotal(a: string, b: string)
    ensures LexLessOrEqual(a, b) || LexLessOrEqual(b, a)
  {
    if |a| > 0 && |b| > 0 && a[0] == b[0] {
      LexTotal(a[1..], b[1..]);
    }
  }

  lemma {:induction false} LexTransitive(a: string, b: string, c: string)
    requires LexLessOrEqual(a, b) && LexLessOrEqual(b, c)
    ensures LexLessOrEqual(a, c)
  {
    if |a| > 0 && |b| > 0 && |c| > 0 && a[0] == b[0] && b[0] == c[0] {
      LexTransitive(a[1..], b[1..], c[1..]);
    }
  }
}
