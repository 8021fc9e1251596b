/**
 * The card filter of apps/client-app/components/molecules/systemDashboard.tsx:
 * a constant list of systems, a status filter ("" or a lower-case status name)
 * and a free-text search over title and version.
 */
module SystemDashboard {
  import opened JsStrings
  import Seqs
  import opened SystemDetailsTable

  /** One card of the dashboard (its icon is left out). */
  datatype SystemCard = SystemCard(title: string, status: Status, version: string, vulnerabilities: int, lastPatch: string)

  /** `systemsData`. */
  const SystemsData: seq<SystemCard> := [
    SystemCard("SAP ECC 6.0", Critical, "ECC 6.0 EHP8", 5, "2024-01-15"),
    SystemCard("SAP S/4HANA", Warning, "2022 FPS02", 2, "2024-02-10"),
    SystemCard("SAP BW/4HANA", Protected, "2023 FPS01", 0, "2024-02-28"),
    SystemCard("SAP Factors", Protected, "Cloud Q1 2024", 0, "Auto-updated")
  ]

  /** `statusMatches`: no status filter, or the statuses agree ignoring case. */
  predicate StatusMatches(sys: SystemCard, filter: string)
  {
    filter == "" || ToLower(StatusText(sys.status)) == ToLower(filter)
  }

  /** `searchMatches`: the trimmed, lower-cased search is empty or occurs in the lower-cased title or version. */
  predicate SearchMatches(sys: SystemCard, search: string)
  {
    var q := ToLower(Trim(search));
    q == "" || Contains(ToLower(sys.title), q) || Contains(ToLower(sys.version), q)
  }

  predicate Shows(filter: string, search: string, sys: SystemCard)
  {
    StatusMatches(sys, filter) && SearchMatches(sys, search)
  }

  /** `filtered`, over any list of systems. */
  function Filtered(systems: seq<SystemCard>, filter: string, search: string): seq<SystemCard>
  {
    Seqs.Filter(systems, sys => Shows(filter, search, sys))
  }

  /**
   * A system is shown exactly when it passes both the status filter and the
   * search; the shown systems keep their order, and with no filter and an empty
   * or all-whitespace search every system is shown.
   */
  lemma FilteredIff(systems: seq<SystemCard>, filter: string, search: string, sys: SystemCard)
    ensures sys in Filtered(systems, filter, search) <==>
      sys in systems && StatusMatches(sys, filter) && SearchMatches(sys, search)
    ensures Seqs.IsSubsequence(Filtered(systems, filter, search), systems)
    ensures filter == "" && Trim(search) == "" ==> Filtered(systems, filter, search) == systems
  {
    if filter == "" && Trim(search) == "" {
      Seqs.FilterAll(systems, sys => Shows(filter, search, sys));
    }
  }

  /** Each value of the status menu selects exactly the systems with that status. */
  lemma StatusFilterIff(sys: SystemCard)
    ensures StatusMatches(sys, "critical") <==> sys.status == Critical
    ensures StatusMatches(sys, "warning") <==> sys.status == Warning
    ensures StatusMatches(sys, "protected") <==> sys.status == Protected
    ensures StatusMatches(sys, "")
  {
    assert ToLower("critical") == "critical" && ToLower("Critical") == "critical";
    assert ToLower("warning") == "warning" && ToLower("Warning") == "warning";
    assert ToLower("protected") == "protected" && ToLower("Protected") == "protected";
  }

  /** Whitespace around the search does not matter. */
  lemma SearchIgnoresSurroundingSpace(sys: SystemCard, search: string)
    ensures SearchMatches(sys, search) == SearchMatches(sys, Trim(search))
  {
    TrimIdempotent(search);
  }

  /**
   * The status is not searched: typing a status name finds a system only
   * through its title or version.
   */
  lemma StatusNotSearched()
    ensures !SearchMatches(SystemCard("ECC", Critical, "6.0", 5, "2024-01-15"), "critical")
    ensures StatusMatches(SystemCard("ECC", Critical, "6.0", 5, "2024-01-15"), "critical")
  {
    assert TrimStart("critical") == "critical";
    assert TrimEnd("critical") == "critical";
    StatusFilterIff(SystemCard("ECC", Critical, "6.0", 5, "2024-01-15"));
  }

  /** On the dashboard's own data, "critical" shows the first system only. */
  lemma CriticalShowsFirst()
    ensures Filtered(SystemsData, "critical", "") == [SystemsData[0]]
  {
    var xs := SystemsData;
    var p := sys => Shows("critical", "", sys);
    assert Trim("") == "";
    forall i | 0 <= i < |xs|
      ensures p(xs[i]) <==> i == 0
    {
      StatusFilterIff(xs[i]);
    }
    var rest := xs[1..];
    assert forall i :: 0 <= i < |rest| ==> !p(rest[i]);
    Seqs.FilterNone(rest, p);
  }
}
