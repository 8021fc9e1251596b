/**
 * The active zod schemas of apps/api/src/types/index.ts (from line 258 on) that
 * carry bounds or shapes: pagination, note validity rules, client systems and
 * their components, notes, currencies and the month key of a batch fetch. A
 * number field is read after JSON parsing (or `z.coerce.number()`) as an integer
 * or as something that is not one; zod's date-time check is the parameter
 * `isDateTime`. Lengths count characters.
 */
module Schemas {
  import opened Wrappers
  import opened JsStrings
  import SapParsers
  import Applicability

  /** A number field: an integer, or a value `.int()` refuses (a fraction, NaN, an infinity, a non-number). */
  datatype Num = Int(value: int) | NotInteger

  /** `z.string().min(lo).max(hi)`. */
  predicate LengthBetween(s: string, lo: nat, hi: nat)
  {
    lo <= |s| <= hi
  }

  /** `z.number().int().min(0)`. */
  predicate NonNegativeInt(n: Num)
  {
    n.Int? && n.value >= 0
  }

  // ---------------------------------------------------------------------------
  // PaginationSchema
  // ---------------------------------------------------------------------------

  datatype Pagination = Pagination(page: int, limit: int)

  /**
   * `PaginationSchema`: an absent field takes its default (page 1, limit 10); a
   * present one must be an integer, the page at least 1 and the limit 1 to 100.
   */
  function ParsePagination(page: Option<Num>, limit: Option<Num>): (r: Option<Pagination>)
    ensures r.Some? ==> r.value.page >= 1 && 1 <= r.value.limit <= 100
  {
    var p := if page.None? then Int(1) else page.value;
    var l := if limit.None? then Int(10) else limit.value;
    if p.Int? && p.value >= 1 && l.Int? && 1 <= l.value <= 100 then Some(Pagination(p.value, l.value))
    else None
  }

  /**
   * Pagination is accepted exactly when each given field is an integer in its
   * range; the defaults fill absent fields and given values are kept.
   */
  lemma PaginationIff(page: Option<Num>, limit: Option<Num>)
    ensures ParsePagination(page, limit).Some? <==>
      (page.None? || (page.value.Int? && page.value.value >= 1))
      && (limit.None? || (limit.value.Int? && 1 <= limit.value.value <= 100))
    ensures ParsePagination(None, None) == Some(Pagination(1, 10))
    ensures ParsePagination(page, limit).Some? ==>
      (page.Some? ==> ParsePagination(page, limit).value.page == page.value.value)
      && (limit.Some? ==> ParsePagination(page, limit).value.limit == limit.value.value)
    ensures ParsePagination(Some(Int(0)), None).None? && ParsePagination(None, Some(Int(101))).None?
  {
  }

  // ---------------------------------------------------------------------------
  // CreateNoteValiditySchema
  // ---------------------------------------------------------------------------

  datatype NoteValidityInput = NoteValidityInput(noteId: string, component: string, release: string,
                                                 minSpLevel: Num, maxSpLevel: Num)

  /** `CreateNoteValiditySchema`: three non-empty strings and two non-negative integer levels. */
  predicate ValidNoteValidity(v: NoteValidityInput)
  {
    && |v.noteId| >= 1 && |v.component| >= 1 && |v.release| >= 1
    && NonNegativeInt(v.minSpLevel) && NonNegativeInt(v.maxSpLevel)
  }

  /** The rule the matcher sees for an accepted input. */
  function ToRule(v: NoteValidityInput): Applicability.NoteValidity
    requires ValidNoteValidity(v)
  {
    Applicability.NoteValidity(v.component, v.release, v.minSpLevel.value, v.maxSpLevel.value)
  }

  /**
   * The schema does not ask for `minSpLevel <= maxSpLevel`: a rule with its bounds
   * crossed is accepted, and no support-package level is ever in its range.
   */
  lemma CrossedBoundsAccepted(sp: int)
    ensures var v := NoteValidityInput("3089413", "SAP_BASIS", "750", Int(6), Int(3));
      ValidNoteValidity(v) && !Applicability.InRange(sp, ToRule(v))
    ensures forall v :: ValidNoteValidity(v) && v.minSpLevel.value > v.maxSpLevel.value ==>
      !Applicability.InRange(sp, ToRule(v))
  {
  }

  // ---------------------------------------------------------------------------
  // CreateClientSystemSchema
  // ---------------------------------------------------------------------------

  datatype ComponentInput = ComponentInput(name: string, release: string, supportPackage: Option<string>, spLevel: Num)
  datatype ClientSystemInput = ClientSystemInput(name: string, systemId: string, components: seq<ComponentInput>)

  /** A component: non-empty name and release, a support package that is non-empty when given, a non-negative integer level. */
  predicate ValidComponent(c: ComponentInput)
  {
    && |c.name| >= 1 && |c.release| >= 1
    && (c.supportPackage.None? || |c.supportPackage.value| >= 1)
    && NonNegativeInt(c.spLevel)
  }

  /** `CreateClientSystemSchema`: a non-empty name and system id, and every component valid. */
  predicate ValidClientSystem(s: ClientSystemInput)
  {
    |s.name| >= 1 && |s.systemId| >= 1 && forall i :: 0 <= i < |s.components| ==> ValidComponent(s.components[i])
  }

  /**
   * What `parseSupportPackage` reads from a support-package string makes a
   * component the schema accepts: its component, its release, the string itself
   * and its level.
   */
  lemma ParsedComponentAccepted(sp: string)
    requires SapParsers.ParseSupportPackage(sp).Some?
    ensures var p := SapParsers.ParseSupportPackage(sp).value;
      ValidComponent(ComponentInput(p.component, p.release, Some(sp), Int(p.spLevel)))
  {
    SapParsers.ParseShape(sp);
  }

  /**
   * The support package is not checked against the vendor pattern: a component
   * whose support package does not parse is accepted all the same, and a system
   * with no components is accepted.
   */
  lemma SupportPackageUnchecked()
    ensures ValidComponent(ComponentInput("SAP_BASIS", "750", Some("SP05"), Int(5)))
    ensures SapParsers.ParseSupportPackage("SP05").None?
    ensures ValidClientSystem(ClientSystemInput("Production", "PRD", []))
  {
  }

  // ---------------------------------------------------------------------------
  // CreateNoteSchema (its string fields)
  // ---------------------------------------------------------------------------

  datatype NoteInput = NoteInput(noteId: string, title: string, rawContentS3: string, fetchedAt: Option<string>)

  /** The string fields of `CreateNoteSchema`: an id of 1 to 100, a title and a content key of 1 to 500, an optional date-time. */
  predicate ValidNote(n: NoteInput, isDateTime: string -> bool)
  {
    && LengthBetween(n.noteId, 1, 100)
    && LengthBetween(n.title, 1, 500)
    && LengthBetween(n.rawContentS3, 1, 500)
    && (n.fetchedAt.None? || isDateTime(n.fetchedAt.value))
  }

  /** Both length bounds are inclusive: an id of 100 characters is accepted and one of 101, or an empty one, is not. */
  lemma NoteIdBounds(isDateTime: string -> bool)
    ensures ValidNote(NoteInput(seq(100, _ => '9'), "t", "s3://n", None), isDateTime)
    ensures !ValidNote(NoteInput(seq(101, _ => '9'), "t", "s3://n", None), isDateTime)
    ensures !ValidNote(NoteInput("", "t", "s3://n", None), isDateTime)
    ensures ValidNote(NoteInput("1", seq(500, _ => 'x'), "s3://n", None), isDateTime)
    ensures !ValidNote(NoteInput("1", seq(501, _ => 'x'), "s3://n", None), isDateTime)
  {
  }

  // ---------------------------------------------------------------------------
  // Currency
  // ---------------------------------------------------------------------------

  /** `z.string().length(3).regex(/^[A-Z]{3}$/)`. */
  predicate ValidCurrency(s: string)
  {
    |s| == 3 && forall i :: 0 <= i < |s| ==> IsUpper(s[i])
  }

  /**
   * Only the shape is checked, not the ISO 4217 list: the codes of the message
   * pass, lower case, digits and other lengths do not, and so does any three
   * capital letters.
   */
  lemma CurrencyShape()
    ensures ValidCurrency("USD") && ValidCurrency("EUR") && ValidCurrency("ZZZ")
    ensures !ValidCurrency("usd") && !ValidCurrency("US") && !ValidCurrency("USDT") && !ValidCurrency("U5D")
  {
    assert !IsUpper("usd"[0]);
    assert !IsUpper("U5D"[1]);
  }

  // ---------------------------------------------------------------------------
  // TriggerBatchFetchSchema
  // ---------------------------------------------------------------------------

  /** `/^\d{4}-\d{2}$/`: four digits, a dash and two digits. */
  predicate ValidMonthKey(s: string)
  {
    |s| == 7 && SapParsers.AllDigits(s[..4]) && s[4] == '-' && SapParsers.AllDigits(s[5..])
  }

  /** The key of a year and a month number, with leading zeros. */
  function MonthKey(year: int, month: int): string
    requires 0 <= year <= 9999 && 0 <= month <= 99
  {
    SapParsers.Pad2(year / 100) + SapParsers.Pad2(year % 100) + "-" + SapParsers.Pad2(month)
  }

  lemma FourDigitValue(d: string)
    requires |d| == 4 && SapParsers.AllDigits(d)
    ensures forall i :: 0 <= i < |d| ==> DigitValue(d[i], 10) >= 0
    ensures RadixValue(d, 10) == RadixValue(d[..2], 10) * 100 + RadixValue(d[2..], 10)
  {
    var v2, v3 := DigitValue(d[2], 10), DigitValue(d[3], 10);
    assert d[..3][..2] == d[..2];
    assert RadixValue(d[..3], 10) == RadixValue(d[..2], 10) * 10 + v2;
    assert RadixValue(d, 10) == RadixValue(d[..3], 10) * 10 + v3;
    var t := d[2..];
    assert t[..1] == [d[2]] && t[..1][..0] == [];
    assert RadixValue(t[..1], 10) == v2;
    assert RadixValue(t, 10) == v2 * 10 + v3;
  }

  /**
   * The accepted keys are exactly the renderings of a year 0 to 9999 and a month
   * number 0 to 99: the month is not checked to be 1 to 12.
   */
  lemma MonthKeyIff(s: string, year: int, month: int)
    requires 0 <= year <= 9999 && 0 <= month <= 99
    ensures ValidMonthKey(MonthKey(year, month))
    ensures ValidMonthKey(s) ==>
      var y := RadixValue(s[..4], 10);
      var m := RadixValue(s[5..], 10);
      && y <= 9999 && m <= 99
      && s == MonthKey(y, m)
  {
    var k := MonthKey(year, month);
    SapParsers.Pad2Value(year / 100);
    SapParsers.Pad2Value(year % 100);
    SapParsers.Pad2Value(month);
    assert k[..4] == SapParsers.Pad2(year / 100) + SapParsers.Pad2(year % 100);
    assert k[5..] == SapParsers.Pad2(month);
    if ValidMonthKey(s) {
      var d := s[..4];
      FourDigitValue(d);
      SapParsers.Pad2OfValue(d[..2]);
      SapParsers.Pad2OfValue(d[2..]);
      SapParsers.Pad2OfValue(s[5..]);
      var y := RadixValue(d, 10);
      assert y / 100 == RadixValue(d[..2], 10) && y % 100 == RadixValue(d[2..], 10);
      assert s == d[..2] + d[2..] + "-" + s[5..];
    }
  }

  /** Month 13 and month 0 are accepted; a one-digit month or a two-digit year is not. */
  lemma MonthKeyExamples()
    ensures ValidMonthKey("2024-01") && ValidMonthKey("2024-13") && ValidMonthKey("2024-00")
    ensures !ValidMonthKey("2024-1") && !ValidMonthKey("24-01") && !ValidMonthKey("2024/01")
  {
  }
}
