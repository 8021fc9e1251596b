/**
 * The row state of apps/client-app/components/molecules/systemDetailsTable.tsx:
 * the rows, the id of the row being edited and the draft of its fields, the
 * text filter over title, status and version, and the handlers that add,
 * cancel, save and delete rows. The fresh id (`uid`) and today's date are
 * parameters of `StartEdit`.
 */
module SystemDetailsTable {
  import opened Wrappers
  import opened JsStrings
  import Seqs

  datatype Status = Critical | Warning | Protected

  /** The status as it is stored and shown. */
  function StatusText(s: Status): string
  {
    match s
    case Critical => "Critical"
    case Warning => "Warning"
    case Protected => "Protected"
  }

  datatype SystemRow = SystemRow(id: string, title: string, status: Status, version: string,
                                 vulnerabilities: int, lastPatch: string)

  /** A `Partial<SystemRow>`: `None` is a key the draft does not hold. */
  datatype Draft = Draft(id: Option<string>, title: Option<string>, status: Option<Status>,
                         version: Option<string>, vulnerabilities: Option<int>, lastPatch: Option<string>)

  const EmptyDraft := Draft(None, None, None, None, None, None)

  /** `{ ...row }`: a draft holding every field of the row. */
  function FromRow(r: SystemRow): Draft
  {
    Draft(Some(r.id), Some(r.title), Some(r.status), Some(r.version), Some(r.vulnerabilities), Some(r.lastPatch))
  }

  /** `{ ...d, ...change }`: the keys of `change` win. */
  function MergeDraft(d: Draft, change: Draft): Draft
  {
    Draft(if change.id.Some? then change.id else d.id,
          if change.title.Some? then change.title else d.title,
          if change.status.Some? then change.status else d.status,
          if change.version.Some? then change.version else d.version,
          if change.vulnerabilities.Some? then change.vulnerabilities else d.vulnerabilities,
          if change.lastPatch.Some? then change.lastPatch else d.lastPatch)
  }

  // ---------------------------------------------------------------------------
  // filtered
  // ---------------------------------------------------------------------------

  /** The row's title, status or version, lower-cased, contains `q`. */
  predicate Matches(q: string, r: SystemRow)
  {
    Contains(ToLower(r.title), q) || Contains(ToLower(StatusText(r.status)), q) || Contains(ToLower(r.version), q)
  }

  /** `filtered`: every row for an empty filter, otherwise the rows matching the lower-cased filter. */
  function Filtered(rows: seq<SystemRow>, filter: string): seq<SystemRow>
  {
    if filter == "" then rows
    else
      var q := ToLower(filter);
      Seqs.Filter(rows, r => Matches(q, r))
  }

  /**
   * An empty filter shows every row; otherwise a row is shown exactly when its
   * title, status or version contains the filter, ignoring the case of ASCII
   * letters, and the shown rows keep their order.
   */
  lemma FilteredIff(rows: seq<SystemRow>, filter: string, r: SystemRow)
    ensures filter == "" ==> Filtered(rows, filter) == rows
    ensures r in Filtered(rows, filter) <==> r in rows && (filter == "" || Matches(ToLower(filter), r))
    ensures Seqs.IsSubsequence(Filtered(rows, filter), rows)
  {
    if filter == "" {
      Seqs.SubsequenceRefl(rows);
    }
  }

  /** Lower-casing twice is lower-casing once. */
  lemma ToLowerIdempotent(s: string)
    ensures ToLower(ToLower(s)) == ToLower(s)
  {
  }

  /** The filter ignores case: a filter and its lower-cased form show the same rows. */
  lemma FilterIgnoresCase(rows: seq<SystemRow>, filter: string)
    ensures Filtered(rows, filter) == Filtered(rows, ToLower(filter))
  {
    ToLowerIdempotent(filter);
  }

  /** Unlike the dashboard's search, this filter also reads the status: "CRIT" finds a critical row by its status. */
  lemma StatusIsSearched(rows: seq<SystemRow>)
    ensures var r := SystemRow("s-1", "SAP ECC 6.0", Critical, "ECC 6.0 EHP8", 5, "2024-01-15");
      r in Filtered([r] + rows, "CRIT")
  {
    var r := SystemRow("s-1", "SAP ECC 6.0", Critical, "ECC 6.0 EHP8", 5, "2024-01-15");
    assert ToLower("CRIT") == "crit";
    assert ToLower(StatusText(Critical)) == "critical";
    assert OccursAt("critical", "crit", 0);
    assert Matches("crit", r);
    assert ([r] + rows)[0] == r;
  }

  // ---------------------------------------------------------------------------
  // Row updates
  // ---------------------------------------------------------------------------

  /** The row `startEdit()` adds: no title, protected, no version, no vulnerabilities. */
  function BlankRow(id: string, today: string): SystemRow
  {
    SystemRow(id, "", Protected, "", 0, today)
  }

  /** The condition under which `cancelEdit` drops the row: nothing was typed into it. */
  predicate IsBlank(r: SystemRow)
  {
    r.title == "" && r.version == "" && r.vulnerabilities == 0
  }

  /** `rows.find((r) => r.id === id)`: the first row with that id. */
  function FindRow(rows: seq<SystemRow>, id: string): (found: Option<SystemRow>)
    ensures found.None? <==> forall i :: 0 <= i < |rows| ==> rows[i].id != id
    ensures found.Some? ==> exists i :: 0 <= i < |rows| && rows[i] == found.value
                               && found.value.id == id && forall j :: 0 <= j < i ==> rows[j].id != id
  {
    if rows == [] then None
    else if rows[0].id == id then Some(rows[0])
    else
      var found := FindRow(rows[1..], id);
      assert forall i :: 1 <= i < |rows| ==> rows[i] == rows[1..][i - 1];
      assert found.Some? ==> exists i :: 0 <= i < |rows| && rows[i] == found.value
                               && found.value.id == id && forall j :: 0 <= j < i ==> rows[j].id != id by {
        if found.Some? {
          var i :| 0 <= i < |rows[1..]| && rows[1..][i] == found.value && found.value.id == id
                   && forall j :: 0 <= j < i ==> rows[1..][j].id != id;
          assert rows[i + 1] == found.value && forall j :: 0 <= j < i + 1 ==> rows[j].id != id;
        }
      }
      found
  }

  predicate OtherId(id: string, r: SystemRow)
  {
    r.id != id
  }

  /** `rows.filter((r) => r.id !== id)`. */
  function WithoutId(rows: seq<SystemRow>, id: string): seq<SystemRow>
  {
    Seqs.Filter(rows, r => OtherId(id, r))
  }

  /**
   * Removing an id keeps exactly the rows with another id, in their order; when
   * no row has the id nothing changes.
   */
  lemma WithoutIdKeeps(rows: seq<SystemRow>, id: string, r: SystemRow)
    ensures r in WithoutId(rows, id) <==> r in rows && r.id != id
    ensures Seqs.IsSubsequence(WithoutId(rows, id), rows)
    ensures (forall i :: 0 <= i < |rows| ==> rows[i].id != id) ==> WithoutId(rows, id) == rows
  {
    if forall i :: 0 <= i < |rows| ==> rows[i].id != id {
      Seqs.FilterAll(rows, r => OtherId(id, r));
    }
  }

  /** `{ ...r, ...draft, id }`: the draft's fields over the row's, the id kept. */
  function Overlay(r: SystemRow, d: Draft, id: string): SystemRow
  {
    SystemRow(id, d.title.GetOr(r.title), d.status.GetOr(r.status), d.version.GetOr(r.version),
              d.vulnerabilities.GetOr(r.vulnerabilities), d.lastPatch.GetOr(r.lastPatch))
  }

  /**
   * Saving writes every field the draft holds and keeps every field it does not;
   * the id is never taken from the draft. Saving a row's own draft gives the row
   * back, and saving the same draft twice is saving it once.
   */
  lemma OverlayFields(r: SystemRow, d: Draft)
    ensures var v := Overlay(r, d, r.id);
      && v.id == r.id
      && (d.title.Some? ==> v.title == d.title.value) && (d.title.None? ==> v.title == r.title)
      && (d.status.Some? ==> v.status == d.status.value) && (d.status.None? ==> v.status == r.status)
      && (d.version.Some? ==> v.version == d.version.value) && (d.version.None? ==> v.version == r.version)
      && (d.vulnerabilities.Some? ==> v.vulnerabilities == d.vulnerabilities.value)
      && (d.vulnerabilities.None? ==> v.vulnerabilities == r.vulnerabilities)
      && (d.lastPatch.Some? ==> v.lastPatch == d.lastPatch.value) && (d.lastPatch.None? ==> v.lastPatch == r.lastPatch)
    ensures Overlay(r, FromRow(r), r.id) == r
    ensures Overlay(Overlay(r, d, r.id), d, r.id) == Overlay(r, d, r.id)
  {
  }

  /** `rows.map((r) => r.id === id ? { ...r, ...draft, id } : r)`. */
  function SaveRows(rows: seq<SystemRow>, id: string, d: Draft): seq<SystemRow>
  {
    seq(|rows|, i requires 0 <= i < |rows| => if rows[i].id == id then Overlay(rows[i], d, id) else rows[i])
  }

  /**
   * Saving keeps the number and the ids of the rows, leaves every row with
   * another id as it was, and overlays the draft on each row with that id.
   */
  lemma SaveRowsFrame(rows: seq<SystemRow>, id: string, d: Draft)
    ensures |SaveRows(rows, id, d)| == |rows|
    ensures forall i :: 0 <= i < |rows| ==> SaveRows(rows, id, d)[i].id == rows[i].id
    ensures forall i :: 0 <= i < |rows| && rows[i].id != id ==> SaveRows(rows, id, d)[i] == rows[i]
    ensures forall i :: 0 <= i < |rows| && rows[i].id == id ==> SaveRows(rows, id, d)[i] == Overlay(rows[i], d, rows[i].id)
    ensures (forall i :: 0 <= i < |rows| ==> rows[i].id != id) ==> SaveRows(rows, id, d) == rows
  {
  }

  /** `saveEdit` goes ahead only when the draft holds a title with some non-whitespace character. */
  predicate TitleGiven(d: Draft)
  {
    d.title.Some? && Trim(d.title.value) != ""
  }

  /** A missing, empty or all-whitespace title stops the save. */
  lemma TitleGivenIff(d: Draft)
    ensures TitleGiven(d) <==> d.title.Some? && exists i :: 0 <= i < |d.title.value| && !IsWhitespace(d.title.value[i])
    ensures !TitleGiven(d.(title := Some(" \t ")))
  {
    assert IsWhitespace(" \t "[0]) && IsWhitespace(" \t "[1]) && IsWhitespace(" \t "[2]);
  }

  /**
   * Adding a blank row with a fresh id and then cancelling it gives the table back
   * as it was: the blank row is dropped, and no other row shares its id.
   */
  lemma StartThenCancel(rows: seq<SystemRow>, newId: string, today: string)
    requires forall i :: 0 <= i < |rows| ==> rows[i].id != newId
    ensures var added := [BlankRow(newId, today)] + rows;
      && FindRow(added, newId) == Some(BlankRow(newId, today))
      && IsBlank(BlankRow(newId, today))
      && WithoutId(added, newId) == rows
  {
    var added := [BlankRow(newId, today)] + rows;
    assert added[1..] == rows;
    Seqs.FilterAll(rows, r => OtherId(newId, r));
  }

  // ---------------------------------------------------------------------------
  // The component's state
  // ---------------------------------------------------------------------------

  class Table {
    var rows: seq<SystemRow>
    var editingId: Option<string>
    var draft: Draft
    var filter: string

    /** The state before the rows are loaded. */
    constructor ()
      ensures rows == [] && editingId == None && draft == EmptyDraft && filter == ""
    {
      rows := [];
      editingId := None;
      draft := EmptyDraft;
      filter := "";
    }

    /** The rows on screen. */
    function Shown(): seq<SystemRow>
      reads this
    {
      Filtered(rows, filter)
    }

    method SetFilter(text: string)
      modifies this
      ensures filter == text && rows == old(rows) && editingId == old(editingId) && draft == old(draft)
    {
      filter := text;
    }

    /** `setDraft((d) => ({ ...d, ...change }))`, as each input of the edited row does. */
    method EditDraft(change: Draft)
      modifies this
      ensures draft == MergeDraft(old(draft), change)
      ensures rows == old(rows) && editingId == old(editingId) && filter == old(filter)
    {
      draft := MergeDraft(draft, change);
    }

    /**
     * `startEdit(row)`: edit an existing row from a copy of it, or, with no row,
     * add a blank row with the fresh id `newId` at the top and edit that.
     */
    method StartEdit(row: Option<SystemRow>, newId: string, today: string)
      modifies this
      ensures row.Some? ==> rows == old(rows) && draft == FromRow(row.value) && editingId == Some(row.value.id)
      ensures row.None? ==>
        && rows == [BlankRow(newId, today)] + old(rows)
        && draft == FromRow(BlankRow(newId, today)) && editingId == Some(newId)
      ensures filter == old(filter)
    {
      if row.Some? {
        draft := FromRow(row.value);
        editingId := Some(row.value.id);
      } else {
        var newRow := BlankRow(newId, today);
        rows := [newRow] + rows;
        draft := FromRow(newRow);
        editingId := Some(newRow.id);
      }
    }

    /**
     * `cancelEdit(id)`: when the first row with the id is still blank every row
     * with that id is dropped; the editing state is always cleared.
     */
    method CancelEdit(id: string)
      modifies this
      ensures var found := FindRow(old(rows), id);
        rows == if found.Some? && IsBlank(found.value) then WithoutId(old(rows), id) else old(rows)
      ensures editingId == None && draft == EmptyDraft && filter == old(filter)
    {
      var found := FindRow(rows, id);
      if found.Some? && IsBlank(found.value) {
        rows := WithoutId(rows, id);
      }
      editingId := None;
      draft := EmptyDraft;
    }

    /**
     * `saveEdit(id)`: without a title nothing changes; otherwise the draft is
     * written over the rows with that id and the editing state is cleared.
     */
    method SaveEdit(id: string)
      modifies this
      ensures !TitleGiven(old(draft)) ==>
        rows == old(rows) && editingId == old(editingId) && draft == old(draft)
      ensures TitleGiven(old(draft)) ==>
        rows == SaveRows(old(rows), id, old(draft)) && editingId == None && draft == EmptyDraft
      ensures filter == old(filter)
    {
      if !TitleGiven(draft) {
        return;
      }
      rows := SaveRows(rows, id, draft);
      editingId := None;
      draft := EmptyDraft;
    }

    /** `deleteRow(id)`: drop the rows with that id, and stop editing only if it was the edited one. */
    method DeleteRow(id: string)
      modifies this
      ensures rows == WithoutId(old(rows), id)
      ensures old(editingId) == Some(id) ==> editingId == None && draft == EmptyDraft
      ensures old(editingId) != Some(id) ==> editingId == old(editingId) && draft == old(draft)
      ensures filter == old(filter)
    {
      rows := WithoutId(rows, id);
      if editingId == Some(id) {
        editingId := None;
        draft := EmptyDraft;
      }
    }
  }
}
