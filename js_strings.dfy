/**
 * The JavaScript string operations the source relies on: `trim`, `startsWith`,
 * `includes`, `toLowerCase` (ASCII letters only), `split` on one character with
 * `join`, `parseInt` without a radix, and the decimal rendering of integers in
 * template literals.
 */
module JsStrings {
  import opened Wrappers
  import Seqs

  /** WhiteSpace and LineTerminator code points, the ones `trim` and `parseInt` skip (ECMA-262 section 12.2 and 12.3). */
  predicate IsWhitespace(c: char)
  {
    || c == '\t' || c == '\U{000B}' || c == '\U{000C}' || c == ' ' || c == '\U{00A0}' || c == '\U{FEFF}'
    || c == '\U{1680}' || ('\U{2000}' <= c <= '\U{200A}') || c == '\U{202F}' || c == '\U{205F}' || c == '\U{3000}'
    || c == '\n' || c == '\r' || c == '\U{2028}' || c == '\U{2029}'
  }

  predicate IsDigit(c: char)
  {
    '0' <= c <= '9'
  }

  predicate IsUpper(c: char)
  {
    'A' <= c <= 'Z'
  }

  /** `s.trimStart()`: drops the leading whitespace and nothing else. */
  function TrimStart(s: string): (r: string)
    ensures |r| <= |s| && r == s[|s| - |r|..]
    ensures forall i :: 0 <= i < |s| - |r| ==> IsWhitespace(s[i])
    ensures r == [] || !IsWhitespace(r[0])
  {
    if s != [] && IsWhitespace(s[0]) then TrimStart(s[1..]) else s
  }

  /** `s.trimEnd()`: drops the trailing whitespace and nothing else. */
  function TrimEnd(s: string): (r: string)
    ensures |r| <= |s| && r == s[..|r|]
    ensures forall i :: |r| <= i < |s| ==> IsWhitespace(s[i])
    ensures r == [] || !IsWhitespace(r[|r| - 1])
  {
    if s != [] && IsWhitespace(s[|s| - 1]) then TrimEnd(s[..|s| - 1]) else s
  }

  /** `s.trim()`: the result is empty exactly when `s` is all whitespace, and otherwise starts and ends with a non-whitespace character. */
  function Trim(s: string): (r: string)
    ensures |r| <= |s|
    ensures r == [] <==> forall i :: 0 <= i < |s| ==> IsWhitespace(s[i])
    ensures r != [] ==> !IsWhitespace(r[0]) && !IsWhitespace(r[|r| - 1])
  {
    var t := TrimStart(s);
    var r := TrimEnd(t);
    assert r == [] <==> t == [];
    assert t != [] ==> !IsWhitespace(s[|s| - |t|]);
    r
  }

  /** Trimming a trimmed string changes nothing. */
  lemma TrimIdempotent(s: string)
    ensures Trim(Trim(s)) == Trim(s)
  {
    var t := Trim(s);
    if t != [] {
      assert TrimStart(t) == t;
      assert TrimEnd(t) == t;
    }
  }

  /** `c.toLowerCase()` for the ASCII letters; every other character is kept. */
  function LowerChar(c: char): char
  {
    if IsUpper(c) then (c as int + 32) as char else c
  }

  /** `s.toLowerCase()` restricted to ASCII letters, character by character. */
  function ToLower(s: string): (r: string)
    ensures |r| == |s|
    ensures forall i :: 0 <= i < |s| ==> r[i] == LowerChar(s[i])
  {
    seq(|s|, i requires 0 <= i < |s| => LowerChar(s[i]))
  }

  /** `q` occurs in `s` starting at position `i`. */
  ghost predicate OccursAt(s: string, q: string, i: int)
  {
    0 <= i <= |s| - |q| && s[i..i + |q|] == q
  }

  /** `s.includes(q)`: `q` occurs in `s` at some position. */
  function Contains(s: string, q: string): (r: bool)
    ensures r <==> exists i :: OccursAt(s, q, i)
  {
    if q <= s then
      assert OccursAt(s, q, 0);
      true
    else if s == [] then
      assert forall i :: !OccursAt(s, q, i);
      false
    else
      OccursInTail(s, q);
      Contains(s[1..], q)
  }

  /** When `q` does not start `s`, it occurs in `s` exactly when it occurs in the tail of `s`. */
  lemma OccursInTail(s: string, q: string)
    requires s != [] && !(q <= s)
    ensures (exists i :: OccursAt(s, q, i)) <==> exists i :: OccursAt(s[1..], q, i)
  {
    if exists i :: OccursAt(s, q, i) {
      var i :| OccursAt(s, q, i);
      assert i != 0;
      assert OccursAt(s[1..], q, i - 1);
    }
    if exists i :: OccursAt(s[1..], q, i) {
      var i :| OccursAt(s[1..], q, i);
      assert OccursAt(s, q, i + 1);
    }
  }

  /** `parts.join(sep)`. */
  function Join(parts: seq<string>, sep: char): string
  {
    if parts == [] then ""
    else if |parts| == 1 then parts[0]
    else parts[0] + [sep] + Join(parts[1..], sep)
  }

  /** `s.split(sep)` for a one-character separator: pieces free of `sep` that join back to `s`. */
  function Split(s: string, sep: char): (parts: seq<string>)
    ensures |parts| >= 1
    ensures forall i :: 0 <= i < |parts| ==> sep !in parts[i]
    ensures Join(parts, sep) == s
    decreases |s|
  {
    var i := Seqs.IndexOf(s, sep);
    if i < 0 then [s]
    else
      var rest := Split(s[i + 1..], sep);
      var parts := [s[..i]] + rest;
      assert parts[1..] == rest;
      assert s == s[..i] + [sep] + s[i + 1..];
      parts
  }

  /** The first piece of a split is the text before the first separator, and the others join back to the text after it. */
  lemma SplitHead(s: string, sep: char)
    ensures var i := Seqs.IndexOf(s, sep);
      && Split(s, sep)[0] == (if i < 0 then s else s[..i])
      && Join(Split(s, sep)[1..], sep) == (if i < 0 then "" else s[i + 1..])
  {
  }

  /** The character of a decimal digit. */
  function DigitChar(d: int): char
    requires 0 <= d < 10
  {
    ('0' as int + d) as char
  }

  /** The value of a digit in the given radix (10 or 16), or -1 when it is not one. */
  function DigitValue(c: char, radix: int): int
  {
    if '0' <= c <= '9' then c as int - '0' as int
    else if radix == 16 && 'a' <= c <= 'f' then c as int - 'a' as int + 10
    else if radix == 16 && 'A' <= c <= 'F' then c as int - 'A' as int + 10
    else -1
  }

  /** The positional value of a string of digits, most significant first. */
  function RadixValue(ds: string, radix: nat): nat
    requires forall i :: 0 <= i < |ds| ==> DigitValue(ds[i], radix) >= 0
  {
    if ds == [] then 0
    else RadixValue(ds[..|ds| - 1], radix) * radix + DigitValue(ds[|ds| - 1], radix)
  }

  /** The longest prefix of `s` made of digits of the radix. */
  function DigitPrefix(s: string, radix: int): (z: string)
    ensures z <= s
    ensures forall i :: 0 <= i < |z| ==> DigitValue(z[i], radix) >= 0
    ensures |z| < |s| ==> DigitValue(s[|z|], radix) < 0
  {
    if s != [] && DigitValue(s[0], radix) >= 0 then [s[0]] + DigitPrefix(s[1..], radix) else []
  }

  /**
   * `parseInt(s)` with no radix (ECMA-262 section 19.2.5): skip leading whitespace,
   * take an optional sign, switch to radix 16 after "0x" or "0X", and read the
   * longest run of digits; `None` stands for NaN, when that run is empty.
   */
  function ParseInt(s: string): Option<int>
  {
    var t := TrimStart(s);
    var sign := if t != [] && t[0] == '-' then -1 else 1;
    var u := if t != [] && (t[0] == '-' || t[0] == '+') then t[1..] else t;
    match ParseMagnitude(u)
    case None => None
    case Some(m) => Some(sign * m)
  }

  /** The unsigned part of `parseInt`: hexadecimal after "0x" or "0X", decimal otherwise. */
  function ParseMagnitude(u: string): Option<nat>
  {
    var hex := |u| >= 2 && u[0] == '0' && (u[1] == 'x' || u[1] == 'X');
    var radix := if hex then 16 else 10;
    var z := DigitPrefix(if hex then u[2..] else u, radix);
    if z == [] then None else Some(RadixValue(z, radix))
  }

  /** The decimal rendering of a natural number, as a template literal prints it. */
  function DecimalString(n: nat): (r: string)
    ensures |r| >= 1
    ensures forall i :: 0 <= i < |r| ==> IsDigit(r[i]) && DigitValue(r[i], 10) >= 0
    ensures RadixValue(r, 10) == n
  {
    if n < 10 then [DigitChar(n)]
    else
      var r := DecimalString(n / 10) + [DigitChar(n % 10)];
      assert r[..|r| - 1] == DecimalString(n / 10);
      r
  }

  /** The decimal rendering of an integer, with a leading '-' when it is negative. */
  function IntString(i: int): string
  {
    if i < 0 then "-" + DecimalString(-i) else DecimalString(i)
  }

  /** Parsing the decimal rendering of a natural number gives the number back. */
  lemma {:induction false} ParseIntDecimal(n: nat)
    ensures ParseInt(DecimalString(n)) == Some(n)
  {
    ParseIntDigits(DecimalString(n));
  }

  /** A non-empty run of decimal digits parses to its positional value. */
  lemma ParseIntDigits(d: string)
    requires |d| >= 1
    requires forall i :: 0 <= i < |d| ==> IsDigit(d[i]) && DigitValue(d[i], 10) >= 0
    ensures ParseInt(d) == Some(RadixValue(d, 10))
  {
    DigitNotWhitespace(d[0]);
    UnsignedParse(d);
    MagnitudeDigits(d);
  }

  lemma DigitNotWhitespace(c: char)
    requires IsDigit(c)
    ensures !IsWhitespace(c) && c != '-' && c != '+'
  {
  }

  /** A string that starts with neither whitespace nor a sign is read by `ParseMagnitude` alone. */
  lemma UnsignedParse(s: string)
    requires s != [] && !IsWhitespace(s[0]) && s[0] != '-' && s[0] != '+'
    ensures ParseMagnitude(s).None? ==> ParseInt(s).None?
    ensures ParseMagnitude(s).Some? ==> ParseInt(s) == Some(ParseMagnitude(s).value)
  {
    assert TrimStart(s) == s;
  }

  lemma MagnitudeDigits(d: string)
    requires |d| >= 1
    requires forall i :: 0 <= i < |d| ==> IsDigit(d[i]) && DigitValue(d[i], 10) >= 0
    ensures ParseMagnitude(d) == Some(RadixValue(d, 10))
  {
    assert !(|d| >= 2 && d[0] == '0' && (d[1] == 'x' || d[1] == 'X')) by {
      if |d| >= 2 {
        assert IsDigit(d[1]);
      }
    }
    AllDigitsPrefix(d, 10);
  }

  lemma {:induction false} AllDigitsPrefix(s: string, radix: int)
    requires forall i :: 0 <= i < |s| ==> DigitValue(s[i], radix) >= 0
    ensures DigitPrefix(s, radix) == s
  {
    if s != [] {
      AllDigitsPrefix(s[1..], radix);
    }
  }
}
