/**
 * The support-package parser of apps/api/src/lib/sap-parsers.ts: it reads strings
 * such as "SAPK-75005INSAPBASIS" into a release, a support-package level and a
 * component, or gives nothing when the string does not have that shape.
 */
module SapParsers {
  import opened Wrappers
  import opened JsStrings

  datatype SupportPackage = SupportPackage(release: string, spLevel: int, component: string)

  /** A character of the class [A-Z0-9_]. */
  predicate IsCodeChar(c: char)
  {
    IsUpper(c) || IsDigit(c) || c == '_'
  }

  /** A non-empty run of [A-Z0-9_] characters. */
  predicate IsCode(s: string)
  {
    s != [] && forall i :: 0 <= i < |s| ==> IsCodeChar(s[i])
  }

  predicate AllDigits(s: string)
  {
    forall i :: 0 <= i < |s| ==> IsDigit(s[i])
  }

  /** The pattern ^SAPK-(\d{3})(\d{2})IN([A-Z0-9_]+)$, read position by position. */
  predicate MatchesPattern(s: string)
  {
    && |s| >= 13
    && s[..5] == "SAPK-"
    && AllDigits(s[5..10])
    && s[10..12] == "IN"
    && IsCode(s[12..])
  }

  /** The component naming rule: a leading "SAP" becomes "SAP_", anything else is kept. */
  function Normalize(code: string): string
  {
    if "SAP" <= code then "SAP_" + code[3..] else code
  }

  /** `parseSupportPackage`: the three capture groups, the middle one read as a decimal number, the last one normalized. */
  function ParseSupportPackage(sp: string): Option<SupportPackage>
  {
    if !MatchesPattern(sp) then None
    else
      var release := sp[5..8];
      var spLevel := RadixValue(sp[8..10], 10);
      Some(SupportPackage(release, spLevel, Normalize(sp[12..])))
  }

  /** Two decimal digits, with a leading zero below 10. */
  function Pad2(n: int): string
    requires 0 <= n <= 99
  {
    [DigitChar(n / 10), DigitChar(n % 10)]
  }

  /** The vendor string for a release, a level and a raw component code. */
  function Format(release: string, spLevel: int, code: string): string
    requires 0 <= spLevel <= 99
  {
    "SAPK-" + release + Pad2(spLevel) + "IN" + code
  }

  /**
   * What a successful parse promises: the input has the pattern's shape, the release
   * is the three digits after "SAPK-" kept as text, the level is between 0 and 99,
   * the component is the normalized, non-empty code; and `None` only for inputs
   * outside the pattern.
   */
  lemma {:induction false} ParseShape(sp: string)
    ensures ParseSupportPackage(sp).Some? <==> MatchesPattern(sp)
    ensures ParseSupportPackage(sp).Some? ==>
      var p := ParseSupportPackage(sp).value;
      && p.release == sp[5..8] && |p.release| == 3 && AllDigits(p.release)
      && 0 <= p.spLevel <= 99
      && p.component == Normalize(sp[12..]) && p.component != []
  {
    if MatchesPattern(sp) {
      var d := sp[8..10];
      assert d[..1] == [d[0]];
      assert IsDigit(sp[5..10][3]) && IsDigit(sp[5..10][4]);
      assert d[0] == sp[5..10][3] && d[1] == sp[5..10][4];
      assert RadixValue(d, 10) == RadixValue(d[..1], 10) * 10 + DigitValue(d[1], 10);
      assert RadixValue(d[..1], 10) == DigitValue(d[0], 10) by {
        assert d[..1][..0] == [];
      }
      forall i | 0 <= i < 3 ensures IsDigit(sp[5..8][i]) {
        assert sp[5..8][i] == sp[5..10][i];
      }
    }
  }

  /** A code that starts with "SAP" gets "SAP_" in front of the rest; any other code is returned unchanged. */
  lemma NormalizeCases(code: string)
    ensures "SAP" <= code ==> Normalize(code) == "SAP_" + code[3..]
    ensures !("SAP" <= code) ==> Normalize(code) == code
    ensures code != [] ==> Normalize(code) != []
  {
  }

  /** Normalization never merges two codes: distinct raw codes give distinct components. */
  lemma {:induction false} NormalizeInjective(a: string, b: string)
    requires Normalize(a) == Normalize(b)
    ensures a == b
  {
    if "SAP" <= a && "SAP" <= b {
      assert a == a[..3] + a[3..] && b == b[..3] + b[3..];
      assert a[3..] == Normalize(a)[4..] == Normalize(b)[4..] == b[3..];
    }
  }

  /** The two digits of a level between 0 and 99 read back as that level. */
  lemma Pad2Value(n: int)
    requires 0 <= n <= 99
    ensures AllDigits(Pad2(n))
    ensures RadixValue(Pad2(n), 10) == n
  {
    var d := Pad2(n);
    DigitCharValue(n / 10);
    DigitCharValue(n % 10);
    assert d[..1] == [DigitChar(n / 10)] && d[..1][..0] == [];
    assert RadixValue(d[..1], 10) == n / 10;
  }

  lemma DigitCharValue(k: int)
    requires 0 <= k < 10
    ensures IsDigit(DigitChar(k)) && DigitValue(DigitChar(k), 10) == k
  {
  }

  /** Two digits are the padded rendering of the value they denote. */
  lemma Pad2OfValue(d: string)
    requires |d| == 2 && AllDigits(d)
    ensures 0 <= RadixValue(d, 10) <= 99
    ensures Pad2(RadixValue(d, 10)) == d
  {
    assert d[..1] == [d[0]] && d[..1][..0] == [];
    var hi, lo := DigitValue(d[0], 10), DigitValue(d[1], 10);
    assert 0 <= hi <= 9 && 0 <= lo <= 9;
    assert RadixValue(d[..1], 10) == hi;
    assert RadixValue(d, 10) == RadixValue(d[..1], 10) * 10 + lo;
    assert DigitChar(hi) == d[0] && DigitChar(lo) == d[1];
  }

  /** Round trip: formatting then parsing gives back the release, the level and the normalized code. */
  lemma {:induction false} ParseFormat(release: string, spLevel: int, code: string)
    requires |release| == 3 && AllDigits(release)
    requires 0 <= spLevel <= 99
    requires IsCode(code)
    ensures ParseSupportPackage(Format(release, spLevel, code)) == Some(SupportPackage(release, spLevel, Normalize(code)))
  {
    var s := Format(release, spLevel, code);
    Pad2Value(spLevel);
    assert s[..5] == "SAPK-";
    assert s[5..8] == release;
    assert s[8..10] == Pad2(spLevel);
    assert s[5..10] == release + Pad2(spLevel);
    assert s[10..12] == "IN";
    assert s[12..] == code;
  }

  /** The round trip the other way: every parsed string is the formatting of its result's release and level with its raw code. */
  lemma {:induction false} FormatParse(sp: string)
    requires ParseSupportPackage(sp).Some?
    ensures var p := ParseSupportPackage(sp).value;
      && 0 <= p.spLevel <= 99
      && sp == Format(p.release, p.spLevel, sp[12..])
      && p.component == Normalize(sp[12..])
  {
    ParseShape(sp);
    var d := sp[8..10];
    assert AllDigits(d) by {
      assert d[0] == sp[5..10][3] && d[1] == sp[5..10][4];
    }
    Pad2OfValue(d);
    assert sp == sp[..5] + sp[5..8] + sp[8..10] + sp[10..12] + sp[12..];
  }

  /** The round trip for a code that does not start with "SAP": it comes back unchanged. */
  lemma PlainCodeRoundTrip(release: string, spLevel: int, code: string)
    requires |release| == 3 && AllDigits(release)
    requires 0 <= spLevel <= 99
    requires IsCode(code) && !("SAP" <= code)
    ensures ParseSupportPackage(Format(release, spLevel, code)) == Some(SupportPackage(release, spLevel, code))
  {
    ParseFormat(release, spLevel, code);
  }

  /** The first documented input: a BASIS support package. */
  lemma BasisExample()
    ensures ParseSupportPackage("SAPK-75005INSAPBASIS") == Some(SupportPackage("750", 5, "SAP_BASIS"))
  {
    assert Pad2(5) == "05";
    assert "SAPK-75005INSAPBASIS" == Format("750", 5, "SAPBASIS");
    assert Normalize("SAPBASIS") == "SAP_BASIS";
    ParseFormat("750", 5, "SAPBASIS");
  }

  /** The second documented input: an HR support package with a two-digit level. */
  lemma HrExample()
    ensures ParseSupportPackage("SAPK-61716INSAPHR") == Some(SupportPackage("617", 16, "SAP_HR"))
  {
    assert Pad2(16) == "16";
    assert "SAPK-61716INSAPHR" == Format("617", 16, "SAPHR");
    assert Normalize("SAPHR") == "SAP_HR";
    ParseFormat("617", 16, "SAPHR");
  }

  /** A string outside the pattern gives nothing. */
  lemma GarbageRejected()
    ensures ParseSupportPackage("garbage") == None
  {
    assert !MatchesPattern("garbage");
  }

  /** A code already written with the underscore gets a second one: "SAP_BASIS" becomes "SAP__BASIS". */
  lemma UnderscoredCodeDoubled()
    ensures ParseSupportPackage("SAPK-75005INSAP_BASIS") == Some(SupportPackage("750", 5, "SAP__BASIS"))
  {
    assert Pad2(5) == "05";
    assert "SAPK-75005INSAP_BASIS" == Format("750", 5, "SAP_BASIS");
    assert Normalize("SAP_BASIS") == "SAP__BASIS";
    ParseFormat("750", 5, "SAP_BASIS");
  }
}
