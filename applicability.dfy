/**
 * The applicability rules of `RunsService.executeAnalysis`
 * (apps/api/src/services/runs.service.ts), stated as functions over the installed
 * components of a system and the notes of a batch. The method that runs the
 * source's nested loops is in module RunsService and is proved against these
 * functions.
 */
module Applicability {
  import opened Wrappers
  import opened JsStrings

  datatype InstalledComponent = InstalledComponent(name: string, release: string, spLevel: int)

  datatype NoteValidity = NoteValidity(component: string, release: string, minSpLevel: int, maxSpLevel: int)

  datatype Note = Note(noteId: string, validities: seq<NoteValidity>)

  /** Why a note is or is not applicable; the source formats the same facts as text (see ReasonText). */
  datatype Reason =
    | NoMatch
    | OutOfRange(rule: NoteValidity, sp: int)
    | Matched(rule: NoteValidity, sp: int)

  /** One persisted row of a run's results. */
  datatype ApplicabilityResult = ApplicabilityResult(runId: string, noteId: string, status: string, reason: Reason)

  const ApplicableStatus: string := "APPLICABLE"

  /** The component has exactly the rule's name and release. */
  predicate Fits(c: InstalledComponent, rule: NoteValidity)
  {
    c.name == rule.component && c.release == rule.release
  }

  /** The level lies within the rule's bounds, both inclusive. */
  predicate InRange(sp: int, rule: NoteValidity)
  {
    rule.minSpLevel <= sp <= rule.maxSpLevel
  }

  /** The position of the first installed component that fits the rule, or -1. */
  function FirstFitIndex(cs: seq<InstalledComponent>, rule: NoteValidity): (i: int)
    ensures -1 <= i < |cs|
    ensures 0 <= i ==> Fits(cs[i], rule)
    ensures forall j :: 0 <= j < |cs| && (i < 0 || j < i) ==> !Fits(cs[j], rule)
  {
    if cs == [] then -1
    else if Fits(cs[0], rule) then 0
    else
      var j := FirstFitIndex(cs[1..], rule);
      if j < 0 then -1 else j + 1
  }

  /** `installedComponents.find(...)`: the first installed component with the rule's name and release. */
  function FindComponent(cs: seq<InstalledComponent>, rule: NoteValidity): Option<InstalledComponent>
  {
    var i := FirstFitIndex(cs, rule);
    if i < 0 then None else Some(cs[i])
  }

  /** The rule finds a component and that component's level is in range. */
  predicate Hits(cs: seq<InstalledComponent>, rule: NoteValidity)
  {
    var m := FindComponent(cs, rule);
    m.Some? && InRange(m.value.spLevel, rule)
  }

  /**
   * The inner loop over a note's rules, from reason `acc` on: a rule that finds no
   * component is skipped, one out of range overwrites the reason, the first one in
   * range decides and ends the scan.
   */
  function ScanRules(cs: seq<InstalledComponent>, rules: seq<NoteValidity>, acc: Reason): Reason
  {
    if rules == [] then acc
    else
      match FindComponent(cs, rules[0])
      case None => ScanRules(cs, rules[1..], acc)
      case Some(c) =>
        if InRange(c.spLevel, rules[0]) then Matched(rules[0], c.spLevel)
        else ScanRules(cs, rules[1..], OutOfRange(rules[0], c.spLevel))
  }

  /** The reason recorded for a note with these rules. */
  function NoteReason(cs: seq<InstalledComponent>, rules: seq<NoteValidity>): Reason
  {
    ScanRules(cs, rules, NoMatch)
  }

  predicate IsApplicable(cs: seq<InstalledComponent>, note: Note)
  {
    NoteReason(cs, note.validities).Matched?
  }

  /** The row emitted for one note: one APPLICABLE row, or none. */
  function RowFor(runId: string, cs: seq<InstalledComponent>, note: Note): seq<ApplicabilityResult>
  {
    var reason := NoteReason(cs, note.validities);
    if reason.Matched? then [ApplicabilityResult(runId, note.noteId, ApplicableStatus, reason)] else []
  }

  /** The rows a run writes for the notes, in the notes' order; each carries the run's id, the APPLICABLE status and a matched reason. */
  function ApplicableRows(runId: string, cs: seq<InstalledComponent>, notes: seq<Note>): (rows: seq<ApplicabilityResult>)
    ensures |rows| <= |notes|
    ensures forall k :: 0 <= k < |rows| ==>
      rows[k].runId == runId && rows[k].status == ApplicableStatus && rows[k].reason.Matched?
  {
    if notes == [] then []
    else ApplicableRows(runId, cs, notes[..|notes| - 1]) + RowFor(runId, cs, notes[|notes| - 1])
  }

  /** The text the source stores for a reason. */
  function ReasonText(r: Reason): string
  {
    match r
    case NoMatch => "No matching component found"
    case OutOfRange(rule, sp) =>
      "Component found but SP " + IntString(sp) + " outside [" + IntString(rule.minSpLevel) + ", " + IntString(rule.maxSpLevel) + "]"
    case Matched(rule, sp) =>
      "Matched " + rule.component + " " + rule.release + ": client SP " + IntString(sp)
      + " in [" + IntString(rule.minSpLevel) + ", " + IntString(rule.maxSpLevel) + "]"
  }

  // ---------------------------------------------------------------------------
  // Component lookup
  // ---------------------------------------------------------------------------

  /** The lookup returns the first fitting component and none only when no component fits. */
  lemma FindComponentFirst(cs: seq<InstalledComponent>, rule: NoteValidity)
    ensures FindComponent(cs, rule).None? <==> forall j :: 0 <= j < |cs| ==> !Fits(cs[j], rule)
    ensures FindComponent(cs, rule).Some? ==>
      exists i :: 0 <= i < |cs| && cs[i] == FindComponent(cs, rule).value && Fits(cs[i], rule)
        && forall j :: 0 <= j < i ==> !Fits(cs[j], rule)
  {
  }

  /** Components appended after a fitting one are never looked at. */
  lemma {:induction false} FindComponentIgnoresLater(cs: seq<InstalledComponent>, extra: seq<InstalledComponent>, rule: NoteValidity)
    requires FindComponent(cs, rule).Some?
    ensures FindComponent(cs + extra, rule) == FindComponent(cs, rule)
  {
    var i := FirstFitIndex(cs, rule);
    var k := FirstFitIndex(cs + extra, rule);
    assert (cs + extra)[i] == cs[i];
  }

  /**
   * Adding components whose name and release are already installed (duplicates
   * with any level) changes no note's reason: the earlier component always wins.
   */
  lemma {:induction false} DuplicatesIgnored(cs: seq<InstalledComponent>, extra: seq<InstalledComponent>, rules: seq<NoteValidity>, acc: Reason)
    requires forall d :: d in extra ==> exists c :: c in cs && c.name == d.name && c.release == d.release
    ensures ScanRules(cs + extra, rules, acc) == ScanRules(cs, rules, acc)
  {
    if rules != [] {
      var rule := rules[0];
      assert FindComponent(cs + extra, rule) == FindComponent(cs, rule) by {
        if FindComponent(cs, rule).Some? {
          FindComponentIgnoresLater(cs, extra, rule);
        } else {
          FindComponentFirst(cs, rule);
        }
      }
      match FindComponent(cs, rule)
      case None =>
        DuplicatesIgnored(cs, extra, rules[1..], acc);
      case Some(c) =>
        if !InRange(c.spLevel, rule) {
          DuplicatesIgnored(cs, extra, rules[1..], OutOfRange(rule, c.spLevel));
        }
    }
  }

  // ---------------------------------------------------------------------------
  // Applicability of one note
  // ---------------------------------------------------------------------------

  /** Once a rule hits, the scan's result is that rule's match whatever was recorded before. */
  lemma {:induction false} FirstHitDecides(cs: seq<InstalledComponent>, rules: seq<NoteValidity>, acc: Reason, i: int)
    requires 0 <= i < |rules| && Hits(cs, rules[i])
    requires forall j :: 0 <= j < i ==> !Hits(cs, rules[j])
    ensures ScanRules(cs, rules, acc) == Matched(rules[i], FindComponent(cs, rules[i]).value.spLevel)
  {
    if i > 0 {
      var next := match FindComponent(cs, rules[0])
        case None => acc
        case Some(c) => OutOfRange(rules[0], c.spLevel);
      assert ScanRules(cs, rules, acc) == ScanRules(cs, rules[1..], next);
      forall j | 0 <= j < i - 1 ensures !Hits(cs, rules[1..][j]) {
        assert rules[1..][j] == rules[j + 1];
      }
      FirstHitDecides(cs, rules[1..], next, i - 1);
    }
  }

  /** The position of the last rule that finds a component, or -1. */
  function LastFoundIndex(cs: seq<InstalledComponent>, rules: seq<NoteValidity>): (k: int)
    ensures -1 <= k < |rules|
    ensures 0 <= k ==> FindComponent(cs, rules[k]).Some?
    ensures forall j :: 0 <= j < |rules| && k < j ==> FindComponent(cs, rules[j]).None?
  {
    if rules == [] then -1
    else
      var k := LastFoundIndex(cs, rules[1..]);
      if k >= 0 then k + 1
      else if FindComponent(cs, rules[0]).Some? then 0
      else -1
  }

  /** With no hit, the scan keeps `acc` if no rule finds a component and otherwise reports the last rule that found one. */
  lemma {:induction false} NoHitKeepsLast(cs: seq<InstalledComponent>, rules: seq<NoteValidity>, acc: Reason)
    requires forall j :: 0 <= j < |rules| ==> !Hits(cs, rules[j])
    ensures var k := LastFoundIndex(cs, rules);
      ScanRules(cs, rules, acc) ==
        if k < 0 then acc else OutOfRange(rules[k], FindComponent(cs, rules[k]).value.spLevel)
  {
    if rules != [] {
      var next := match FindComponent(cs, rules[0])
        case None => acc
        case Some(c) => OutOfRange(rules[0], c.spLevel);
      assert !Hits(cs, rules[0]);
      assert ScanRules(cs, rules, acc) == ScanRules(cs, rules[1..], next);
      forall j | 0 <= j < |rules| - 1 ensures !Hits(cs, rules[1..][j]) {
        assert rules[1..][j] == rules[j + 1];
      }
      NoHitKeepsLast(cs, rules[1..], next);
    }
  }

  /**
   * A note is applicable exactly when one of its rules hits; the recorded match is
   * the first such rule with its component's level, so no later rule is examined.
   */
  lemma {:induction false} ApplicableIffSomeRuleHits(cs: seq<InstalledComponent>, rules: seq<NoteValidity>)
    ensures NoteReason(cs, rules).Matched? <==> exists i :: 0 <= i < |rules| && Hits(cs, rules[i])
    ensures forall i :: 0 <= i < |rules| && Hits(cs, rules[i]) && (forall j :: 0 <= j < i ==> !Hits(cs, rules[j])) ==>
      NoteReason(cs, rules) == Matched(rules[i], FindComponent(cs, rules[i]).value.spLevel)
  {
    forall i | 0 <= i < |rules| && Hits(cs, rules[i]) && (forall j :: 0 <= j < i ==> !Hits(cs, rules[j]))
      ensures NoteReason(cs, rules) == Matched(rules[i], FindComponent(cs, rules[i]).value.spLevel)
    {
      FirstHitDecides(cs, rules, NoMatch, i);
    }
    if exists i :: 0 <= i < |rules| && Hits(cs, rules[i]) {
      var i := FirstHitIndex(cs, rules);
      FirstHitDecides(cs, rules, NoMatch, i);
    } else {
      NoHitKeepsLast(cs, rules, NoMatch);
    }
  }

  /** The position of the first rule that hits, when there is one. */
  function FirstHitIndex(cs: seq<InstalledComponent>, rules: seq<NoteValidity>): (i: int)
    requires exists i :: 0 <= i < |rules| && Hits(cs, rules[i])
    ensures 0 <= i < |rules| && Hits(cs, rules[i])
    ensures forall j :: 0 <= j < i ==> !Hits(cs, rules[j])
  {
    if Hits(cs, rules[0]) then 0
    else
      assert exists i :: 0 <= i < |rules[1..]| && Hits(cs, rules[1..][i]) by {
        var i :| 0 <= i < |rules| && Hits(cs, rules[i]);
        assert rules[1..][i - 1] == rules[i];
      }
      FirstHitIndex(cs, rules[1..]) + 1
  }

  /**
   * A note that is not applicable reports the last rule whose component was found
   * out of range, or "No matching component found" when no rule found one (in
   * particular when it has no rules).
   */
  lemma NotApplicableReason(cs: seq<InstalledComponent>, rules: seq<NoteValidity>)
    requires !NoteReason(cs, rules).Matched?
    ensures var k := LastFoundIndex(cs, rules);
      NoteReason(cs, rules) ==
        if k < 0 then NoMatch else OutOfRange(rules[k], FindComponent(cs, rules[k]).value.spLevel)
    ensures rules == [] ==> NoteReason(cs, rules) == NoMatch
  {
    ApplicableIffSomeRuleHits(cs, rules);
    NoHitKeepsLast(cs, rules, NoMatch);
  }

  /** Both bounds are inclusive, one step outside is a miss, and a rule whose minimum exceeds its maximum never hits. */
  lemma InclusiveBounds(cs: seq<InstalledComponent>, rule: NoteValidity)
    requires FindComponent(cs, rule).Some?
    ensures var sp := FindComponent(cs, rule).value.spLevel;
      && (Hits(cs, rule) <==> rule.minSpLevel <= sp <= rule.maxSpLevel)
      && (rule.minSpLevel <= rule.maxSpLevel && (sp == rule.minSpLevel || sp == rule.maxSpLevel) ==> Hits(cs, rule))
      && (sp == rule.minSpLevel - 1 || sp == rule.maxSpLevel + 1 ==> !Hits(cs, rule))
    ensures rule.minSpLevel > rule.maxSpLevel ==> !Hits(cs, rule)
  {
  }

  // ---------------------------------------------------------------------------
  // The rows of a run
  // ---------------------------------------------------------------------------

  lemma {:induction false} RowsAppend(runId: string, cs: seq<InstalledComponent>, a: seq<Note>, b: seq<Note>)
    ensures ApplicableRows(runId, cs, a + b) == ApplicableRows(runId, cs, a) + ApplicableRows(runId, cs, b)
    decreases |b|
  {
    if b == [] {
      assert a + b == a;
    } else {
      var b' := b[..|b| - 1];
      assert (a + b)[..|a + b| - 1] == a + b';
      assert (a + b)[|a + b| - 1] == b[|b| - 1];
      RowsAppend(runId, cs, a, b');
    }
  }

  /** `row` is the row an applicable note produces in this run. */
  predicate IsRowOf(row: ApplicabilityResult, runId: string, cs: seq<InstalledComponent>, note: Note)
  {
    IsApplicable(cs, note) && row == ApplicabilityResult(runId, note.noteId, ApplicableStatus, NoteReason(cs, note.validities))
  }

  /** Every row of a run is the row of one of its notes, and that note is applicable. */
  lemma {:induction false} RowsComeFromNotes(runId: string, cs: seq<InstalledComponent>, notes: seq<Note>)
    ensures forall k :: 0 <= k < |ApplicableRows(runId, cs, notes)| ==>
      exists n :: 0 <= n < |notes| && IsRowOf(ApplicableRows(runId, cs, notes)[k], runId, cs, notes[n])
  {
    if notes != [] {
      var init := notes[..|notes| - 1];
      var last := notes[|notes| - 1];
      RowsComeFromNotes(runId, cs, init);
      var rows := ApplicableRows(runId, cs, notes);
      var r0 := ApplicableRows(runId, cs, init);
      assert rows == r0 + RowFor(runId, cs, last);
      forall k | 0 <= k < |rows|
        ensures exists n :: 0 <= n < |notes| && IsRowOf(rows[k], runId, cs, notes[n])
      {
        if k < |r0| {
          assert exists n :: 0 <= n < |init| && IsRowOf(r0[k], runId, cs, init[n]);
          var n :| 0 <= n < |init| && IsRowOf(r0[k], runId, cs, init[n]);
          assert init[n] == notes[n];
          assert rows[k] == r0[k];
        } else {
          var n := |notes| - 1;
          assert rows[k] == RowFor(runId, cs, last)[k - |r0|];
          assert IsRowOf(rows[k], runId, cs, notes[n]);
        }
      }
    } else {
      assert ApplicableRows(runId, cs, notes) == [];
    }
  }

  /** Every applicable note has its row among the rows of the run. */
  lemma {:induction false} ApplicableNotesHaveRows(runId: string, cs: seq<InstalledComponent>, notes: seq<Note>)
    ensures forall n :: 0 <= n < |notes| && IsApplicable(cs, notes[n]) ==>
      ApplicabilityResult(runId, notes[n].noteId, ApplicableStatus, NoteReason(cs, notes[n].validities))
        in ApplicableRows(runId, cs, notes)
  {
    if notes != [] {
      var init := notes[..|notes| - 1];
      ApplicableNotesHaveRows(runId, cs, init);
      var rows := ApplicableRows(runId, cs, notes);
      assert rows == ApplicableRows(runId, cs, init) + RowFor(runId, cs, notes[|notes| - 1]);
      forall n | 0 <= n < |notes| && IsApplicable(cs, notes[n])
        ensures ApplicabilityResult(runId, notes[n].noteId, ApplicableStatus, NoteReason(cs, notes[n].validities)) in rows
      {
        if n < |init| {
          assert init[n] == notes[n];
        }
      }
    }
  }

  /** The rows of a run are one row per applicable note, with that note's id and reason, and there are none exactly when no note is applicable. */
  lemma RowsAreApplicableNotes(runId: string, cs: seq<InstalledComponent>, notes: seq<Note>)
    ensures forall k :: 0 <= k < |ApplicableRows(runId, cs, notes)| ==>
      exists n :: 0 <= n < |notes| && IsRowOf(ApplicableRows(runId, cs, notes)[k], runId, cs, notes[n])
    ensures forall n :: 0 <= n < |notes| && IsApplicable(cs, notes[n]) ==>
      ApplicabilityResult(runId, notes[n].noteId, ApplicableStatus, NoteReason(cs, notes[n].validities))
        in ApplicableRows(runId, cs, notes)
    ensures ApplicableRows(runId, cs, notes) == [] <==> forall n :: 0 <= n < |notes| ==> !IsApplicable(cs, notes[n])
  {
    RowsComeFromNotes(runId, cs, notes);
    ApplicableNotesHaveRows(runId, cs, notes);
    var rows := ApplicableRows(runId, cs, notes);
    if rows != [] {
      assert exists n :: 0 <= n < |notes| && IsRowOf(rows[0], runId, cs, notes[n]);
      var n :| 0 <= n < |notes| && IsRowOf(rows[0], runId, cs, notes[n]);
    }
  }

  /** Taking the last note off one list and the same note out of a permutation of it leaves permutations. */
  lemma DropMatched<T>(ns: seq<T>, ms: seq<T>, k: int)
    requires ns != [] && multiset(ns) == multiset(ms)
    requires 0 <= k < |ms| && ms[k] == ns[|ns| - 1]
    ensures multiset(ns[..|ns| - 1]) == multiset(ms[..k] + ms[k + 1..])
  {
    var n := |ns| - 1;
    var x := ns[n];
    assert ns == ns[..n] + [x];
    assert ms == ms[..k] + [x] + ms[k + 1..];
    var a, b := multiset(ns[..n]), multiset(ms[..k] + ms[k + 1..]);
    assert multiset(ns) == a + multiset{x};
    assert multiset(ms) == b + multiset{x};
    forall y
      ensures a[y] == b[y]
    {
      assert (a + multiset{x})[y] == (b + multiset{x})[y];
    }
  }

  /** A note in the middle of the batch contributes its row as the last note would. */
  lemma RowsAround(runId: string, cs: seq<InstalledComponent>, ms: seq<Note>, k: int)
    requires 0 <= k < |ms|
    ensures multiset(ApplicableRows(runId, cs, ms))
      == multiset(ApplicableRows(runId, cs, ms[..k] + ms[k + 1..])) + multiset(RowFor(runId, cs, ms[k]))
  {
    var front, back := ms[..k], ms[k + 1..];
    assert ms == front + [ms[k]] + back;
    assert [ms[k]][..0] == [];
    RowsAppend(runId, cs, front + [ms[k]], back);
    RowsAppend(runId, cs, front, [ms[k]]);
    RowsAppend(runId, cs, front, back);
  }

  /**
   * The rows do not depend on the order of the notes: any permutation of the
   * batch gives a permutation of the rows.
   */
  lemma {:induction false} NoteOrderIrrelevant(runId: string, cs: seq<InstalledComponent>, ns: seq<Note>, ms: seq<Note>)
    requires multiset(ns) == multiset(ms)
    ensures multiset(ApplicableRows(runId, cs, ns)) == multiset(ApplicableRows(runId, cs, ms))
    decreases |ns|
  {
    if ns == [] {
      assert |ms| == |multiset(ms)| == 0;
    } else {
      var n := |ns| - 1;
      var x := ns[n];
      assert x in multiset(ms);
      var k :| 0 <= k < |ms| && ms[k] == x;
      DropMatched(ns, ms, k);
      NoteOrderIrrelevant(runId, cs, ns[..n], ms[..k] + ms[k + 1..]);
      RowsAround(runId, cs, ms, k);
    }
  }

  // ---------------------------------------------------------------------------
  // Worked scenarios
  // ---------------------------------------------------------------------------

  const Basis750 := InstalledComponent("SAP_BASIS", "750", 5)

  /** SP 5 against [3, 10] matches. */
  lemma ScenarioInRange()
    ensures var rule := NoteValidity("SAP_BASIS", "750", 3, 10);
      NoteReason([Basis750], [rule]) == Matched(rule, 5)
  {
    var rule := NoteValidity("SAP_BASIS", "750", 3, 10);
    assert FindComponent([Basis750], rule) == Some(Basis750);
  }

  /** The text stored for that match. */
  lemma ScenarioMatchedText()
    ensures ReasonText(Matched(NoteValidity("SAP_BASIS", "750", 3, 10), 5))
      == "Matched SAP_BASIS 750: client SP 5 in [3, 10]"
  {
    var rule := NoteValidity("SAP_BASIS", "750", 3, 10);
    SmallIntStrings();
    assert ReasonText(Matched(rule, 5))
      == "Matched " + "SAP_BASIS" + " " + "750" + ": client SP " + "5" + " in [" + "3" + ", " + "10" + "]";
    MatchedTextJoins();
  }

  lemma MatchedTextJoins()
    ensures "Matched " + "SAP_BASIS" + " " + "750" + ": client SP " + "5" + " in [" + "3" + ", " + "10" + "]"
      == "Matched SAP_BASIS 750: client SP 5 in [3, 10]"
  {
    assert "Matched " + "SAP_BASIS" + " " + "750" + ": client SP " == "Matched SAP_BASIS 750: client SP ";
  }

  /** SP 5 against [6, 10] does not match and reports the range. */
  lemma ScenarioOutOfRange()
    ensures var rule := NoteValidity("SAP_BASIS", "750", 6, 10);
      && NoteReason([Basis750], [rule]) == OutOfRange(rule, 5)
      && ReasonText(OutOfRange(rule, 5)) == "Component found but SP 5 outside [6, 10]"
  {
    var rule := NoteValidity("SAP_BASIS", "750", 6, 10);
    assert FindComponent([Basis750], rule) == Some(Basis750);
    assert [rule][1..] == [];
    assert ScanRules([Basis750], [rule], NoMatch) == ScanRules([Basis750], [], OutOfRange(rule, 5));
    SmallIntStrings();
  }

  /** The renderings the scenarios print. */
  lemma SmallIntStrings()
    ensures IntString(3) == "3" && IntString(5) == "5" && IntString(6) == "6" && IntString(10) == "10"
  {
    assert DecimalString(10) == DecimalString(1) + [DigitChar(0)];
  }

  /** A first rule whose component is not installed is skipped and the second rule matches. */
  lemma ScenarioSecondRuleMatches()
    ensures var r1 := NoteValidity("SAP_HR", "608", 0, 99);
      var r2 := NoteValidity("SAP_BASIS", "750", 3, 10);
      NoteReason([Basis750], [r1, r2]) == Matched(r2, 5)
  {
    var r1 := NoteValidity("SAP_HR", "608", 0, 99);
    var r2 := NoteValidity("SAP_BASIS", "750", 3, 10);
    assert !Fits(Basis750, r1) by {
      assert Basis750.name[4] != r1.component[4];
    }
    assert FindComponent([Basis750], r1) == None;
    assert FindComponent([Basis750], r2) == Some(Basis750);
    assert [r1, r2][1..] == [r2];
    assert ScanRules([Basis750], [r1, r2], NoMatch) == ScanRules([Basis750], [r2], NoMatch);
  }
}
