/** Classification of the raw labels of the issue history (statuses, issue
    types, tribes) into the canonical values the generators work on, and the
    filter that turns history rows into events. */
module Mapping {
  import opened Store

  /** Raw status labels by stage. */
  const BACKLOG_STATUSES: seq<string> := [
    "Wait/Watch", "Open", "Ready", "Selected for spec", "To Price", "To Do",
    "Reopened", "ToDo", "In Preparation", "Ready for development",
    "Ready for sprint", "Selected for Development", "Open / Ready for dev",
    "Backlog"]
  const WIP_STATUSES: seq<string> := [
    "To be tested", "Developed", "Waiting for validation", "In Staging",
    "Ready for Testing", "In Spec Review", "Tech review", "In Spec",
    "Quality check", "Technical review", "Développement", "Release for Review",
    "Stand-by", "Ready for Review", "In Development", "In Progress",
    "Functional Review", "Pending", "Pemding", "In Testing",
    "Ready for Staging", "To validate", "In Review", "In Design", "In Dev",
    "In Functional Review"]
  const DONE_STATUSES: seq<string> := [
    "To announce", "Ready for deploy", "To be released", "Functional GO",
    "Ready for Release"]
  const RESOLVED_STATUSES: seq<string> := [
    "Closed", "Canceled", "Terminé", "Done", "Released", "Resolved"]

  const STATUS_GROUPS: map<string, seq<string>> := map[
    BACKLOG := BACKLOG_STATUSES,
    WIP := WIP_STATUSES,
    DONE := DONE_STATUSES,
    RESOLVED := RESOLVED_STATUSES]

  /** Issue types (already passed through ToUnderscore) by type group. */
  const TYPE_GROUPS: map<string, seq<string>> := map[
    "product" := ["epic", "spec", "improvement", "story", "new_feature"],
    "ops" := ["sso_launch", "task"],
    "technical" := ["technical_task", "sub_task"],
    "bug" := ["bug"]
  ]

  /** The key of the groups map whose list holds `raw`, if any. */
  ghost predicate Listed(groups: map<string, seq<string>>, raw: string)
  {
    exists g :: g in groups && raw in groups[g]
  }

  /** No label is listed under two groups, so the order in which a lookup
      visits the groups cannot change its answer. */
  ghost predicate Disjoint(groups: map<string, seq<string>>)
  {
    forall g1, g2, raw :: g1 in groups && g2 in groups && raw in groups[g1] && raw in groups[g2] ==> g1 == g2
  }

  lemma BacklogWipDisjoint()
    ensures forall s :: s in BACKLOG_STATUSES ==> s !in WIP_STATUSES
  {
    BacklogWipDisjointSlice1();
    BacklogWipDisjointSlice2();
    BacklogWipDisjointSlice3();
    BacklogWipDisjointSlice4();
    BacklogWipDisjointSlice5();
    BacklogWipDisjointSlice6();
    BacklogWipDisjointSlice7();
    assert BACKLOG_STATUSES == BACKLOG_STATUSES[..2] + BACKLOG_STATUSES[2..4] + BACKLOG_STATUSES[4..6] + BACKLOG_STATUSES[6..8] + BACKLOG_STATUSES[8..10] + BACKLOG_STATUSES[10..12] + BACKLOG_STATUSES[12..];
  }

  lemma BacklogWipDisjointSlice1()
    ensures forall s :: s in BACKLOG_STATUSES[..2] ==> s !in WIP_STATUSES
  {
  }

  lemma BacklogWipDisjointSlice2()
    ensures forall s :: s in BACKLOG_STATUSES[2..4] ==> s !in WIP_STATUSES
  {
  }

  lemma BacklogWipDisjointSlice3()
    ensures forall s :: s in BACKLOG_STATUSES[4..6] ==> s !in WIP_STATUSES
  {
  }

  lemma BacklogWipDisjointSlice4()
    ensures forall s :: s in BACKLOG_STATUSES[6..8] ==> s !in WIP_STATUSES
  {
  }

  lemma BacklogWipDisjointSlice5()
    ensures forall s :: s in BACKLOG_STATUSES[8..10] ==> s !in WIP_STATUSES
  {
  }

  lemma BacklogWipDisjointSlice6()
    ensures forall s :: s in BACKLOG_STATUSES[10..12] ==> s !in WIP_STATUSES
  {
  }

  lemma BacklogWipDisjointSlice7()
    ensures forall s :: s in BACKLOG_STATUSES[12..] ==> s !in WIP_STATUSES
  {
  }

  lemma BacklogDoneDisjoint()
    ensures forall s :: s in BACKLOG_STATUSES ==> s !in DONE_STATUSES
  {
  }

  lemma BacklogResolvedDisjoint()
    ensures forall s :: s in BACKLOG_STATUSES ==> s !in RESOLVED_STATUSES
  {
  }

  lemma WipDoneDisjoint()
    ensures forall s :: s in WIP_STATUSES ==> s !in DONE_STATUSES
  {
    WipDoneDisjointSlice1();
    WipDoneDisjointSlice2();
    WipDoneDisjointSlice3();
    WipDoneDisjointSlice4();
    assert WIP_STATUSES == WIP_STATUSES[..7] + WIP_STATUSES[7..13] + WIP_STATUSES[13..20] + WIP_STATUSES[20..];
  }

  lemma WipDoneDisjointSlice1()
    ensures forall s :: s in WIP_STATUSES[..7] ==> s !in DONE_STATUSES
  {
  }

  lemma WipDoneDisjointSlice2()
    ensures forall s :: s in WIP_STATUSES[7..13] ==> s !in DONE_STATUSES
  {
  }

  lemma WipDoneDisjointSlice3()
    ensures forall s :: s in WIP_STATUSES[13..20] ==> s !in DONE_STATUSES
  {
  }

  lemma WipDoneDisjointSlice4()
    ensures forall s :: s in WIP_STATUSES[20..] ==> s !in DONE_STATUSES
  {
  }

  lemma WipResolvedDisjoint()
    ensures forall s :: s in WIP_STATUSES ==> s !in RESOLVED_STATUSES
  {
    WipResolvedDisjointSlice1();
    WipResolvedDisjointSlice2();
    WipResolvedDisjointSlice3();
    assert WIP_STATUSES == WIP_STATUSES[..13] + WIP_STATUSES[13..20] + WIP_STATUSES[20..];
  }

  lemma WipResolvedDisjointSlice1()
    ensures forall s :: s in WIP_STATUSES[..13] ==> s !in RESOLVED_STATUSES
  {
  }

  lemma WipResolvedDisjointSlice2()
    ensures forall s :: s in WIP_STATUSES[13..20] ==> s !in RESOLVED_STATUSES
  {
  }

  lemma WipResolvedDisjointSlice3()
    ensures forall s :: s in WIP_STATUSES[20..] ==> s !in RESOLVED_STATUSES
  {
  }

  lemma DoneResolvedDisjoint()
    ensures forall s :: s in DONE_STATUSES ==> s !in RESOLVED_STATUSES
  {
  }

  /** No raw status is listed under two stages, so the order in which
      `statusGroup` visits the stages cannot change its answer. */
  lemma StatusGroupsDisjoint()
    ensures Disjoint(STATUS_GROUPS)
  {
    BacklogWipDisjoint();
    BacklogDoneDisjoint();
    BacklogResolvedDisjoint();
    WipDoneDisjoint();
    WipResolvedDisjoint();
    DoneResolvedDisjoint();
  }

  lemma TypeGroupsDisjoint()
    ensures Disjoint(TYPE_GROUPS)
  {
  }

  /** `statusGroup`: the stage of a raw status; a missing status has the empty
      stage, an unlisted one is a fatal configuration error. */
  function StatusGroup(status: Option<string>): (r: Result<string>)
    ensures status.None? ==> r == Ok("")
    ensures status.Some? && r.Ok? ==> r.value in STATUS_GROUPS && status.value in STATUS_GROUPS[r.value]
    ensures status.Some? ==> (r.Fatal? <==> !Listed(STATUS_GROUPS, status.value))
  {
    match status
    case None => Ok("")
    case Some(s) =>
      if s in STATUS_GROUPS[BACKLOG] then Ok(BACKLOG)
      else if s in STATUS_GROUPS[WIP] then Ok(WIP)
      else if s in STATUS_GROUPS[DONE] then Ok(DONE)
      else if s in STATUS_GROUPS[RESOLVED] then Ok(RESOLVED)
      else Fatal("Status did not match any group: " + s)
  }

  /** `issueTypeGroup`: the type group of a raw issue type, looked up after
      ToUnderscore; an unlisted type is a fatal configuration error. */
  function IssueTypeGroup(issueType: string): (r: Result<string>)
    ensures r.Ok? ==> r.value in TYPE_GROUPS && ToUnderscore(issueType) in TYPE_GROUPS[r.value]
    ensures r.Fatal? <==> !Listed(TYPE_GROUPS, ToUnderscore(issueType))
  {
    var t := ToUnderscore(issueType);
    if t in TYPE_GROUPS["product"] then Ok("product")
    else if t in TYPE_GROUPS["ops"] then Ok("ops")
    else if t in TYPE_GROUPS["technical"] then Ok("technical")
    else if t in TYPE_GROUPS["bug"] then Ok("bug")
    else Fatal("Status did not match any group: " + issueType)
  }

  /** `segment`: the segment label of an issue's tribe ("none" when missing). */
  function Segment(issueTribe: Option<string>): (r: string)
    ensures |r| >= 6 && r[..6] == "tribe_"
    ensures issueTribe.None? ==> r == "tribe_none"
    ensures issueTribe.Some? ==> r[6..] == ToUnderscore(issueTribe.value)
  {
    var tribe := match issueTribe
      case None => "none"
      case Some(t) => t;
    "tribe_" + ToUnderscore(tribe)
  }

  /** The characters of the class `[\s-/]` (Go's `\s` is `[\t\n\f\r ]`). */
  predicate IsSeparator(c: char)
  {
    c == ' ' || c == '\t' || c == '\n' || c == '\U{C}' || c == '\r' || c == '-' || c == '/'
  }

  predicate IsUpper(c: char)
  {
    'A' <= c <= 'Z'
  }

  /** `strings.ToLower` on one character, restricted to ASCII letters. */
  function Lower(c: char): (l: char)
    ensures !IsUpper(l)
    ensures IsUpper(c) ==> l as int == c as int + 32
    ensures !IsUpper(c) ==> l == c
  {
    if IsUpper(c) then (c as int + 32) as char else c
  }

  /** `toUnderscore`: lower-cases, then replaces each separator by '_'. */
  function ToUnderscore(s: string): (r: string)
    ensures |r| == |s|
    ensures forall i :: 0 <= i < |s| ==> r[i] == if IsSeparator(s[i]) then '_' else Lower(s[i])
    ensures forall i :: 0 <= i < |r| ==> !IsSeparator(r[i]) && !IsUpper(r[i])
  {
    seq(|s|, i requires 0 <= i < |s| => if IsSeparator(s[i]) then '_' else Lower(s[i]))
  }

  lemma ToUnderscoreIdempotent(s: string)
    ensures ToUnderscore(ToUnderscore(s)) == ToUnderscore(s)
  {
  }

  /** A tribe literally named "none" cannot be told apart from a missing tribe. */
  lemma SegmentNoneCollision()
    ensures Segment(Some("None")) == Segment(None)
  {
    var u := ToUnderscore("None");
    assert u[0] == 'n' && u[1] == 'o' && u[2] == 'n' && u[3] == 'e';
    assert u == "none";
  }

  /** A row of the issue history, as `StreamEvents` scans it (the assignee
      columns are scanned but never used, so they are not kept). */
  datatype Row = Row(
    time: Time,
    kind: string,
    issueKey: string,
    issueType: string,
    issueTribe: Option<string>,
    statusFrom: Option<string>,
    statusTo: Option<string>,
    issueCreatedAt: Time)

  const STATUS_CHANGED: string := "status_changed"

  /** The event one row becomes: only a status change between two different
      stages is kept; its type and segment are the classified values. */
  function RowEvent(row: Row): (r: Result<Option<Event>>)
    ensures row.kind != STATUS_CHANGED ==> r == Ok(None)
    ensures r.Fatal? <==>
      && row.kind == STATUS_CHANGED
      && (|| StatusGroup(row.statusFrom).Fatal?
          || StatusGroup(row.statusTo).Fatal?
          || (StatusGroup(row.statusFrom).value != StatusGroup(row.statusTo).value && IssueTypeGroup(row.issueType).Fatal?))
    ensures r.Ok? && row.kind == STATUS_CHANGED ==>
      (r.value.None? <==> StatusGroup(row.statusFrom).value == StatusGroup(row.statusTo).value)
    ensures r.Ok? && r.value.Some? ==>
      var e := r.value.value;
      && e == Event(row.time, STATUS_CHANGED, row.issueKey, IssueTypeGroup(row.issueType).value,
                    Segment(row.issueTribe), StatusGroup(row.statusFrom).value,
                    StatusGroup(row.statusTo).value, row.issueCreatedAt)
      && e.valueFrom != e.valueTo
  {
    if row.kind != STATUS_CHANGED then Ok(None)
    else match StatusGroup(row.statusFrom)
      case Fatal(m) => Fatal(m)
      case Ok(from) =>
        match StatusGroup(row.statusTo)
        case Fatal(m) => Fatal(m)
        case Ok(to) =>
          if from == to then Ok(None)
          else match IssueTypeGroup(row.issueType)
            case Fatal(m) => Fatal(m)
            case Ok(issueType) =>
              Ok(Some(Event(row.time, row.kind, row.issueKey, issueType, Segment(row.issueTribe), from, to, row.issueCreatedAt)))
  }

  /** The events a sequence of rows becomes, or the first fatal error. */
  function EventsOf(rows: seq<Row>): (r: Result<seq<Event>>)
    ensures r.Ok? ==> |r.value| <= |rows|
  {
    if rows == [] then Ok([])
    else
      var last := |rows| - 1;
      match EventsOf(rows[..last])
      case Fatal(m) => Fatal(m)
      case Ok(events) =>
        match RowEvent(rows[last])
        case Fatal(m) => Fatal(m)
        case Ok(None) => Ok(events)
        case Ok(Some(e)) => Ok(events + [e])
  }

  /** Every event kept is the event of some row, a status change between two
      different stages; the whole is fatal exactly when some row is. */
  lemma {:induction false} EventsOfSpec(rows: seq<Row>)
    ensures var r := EventsOf(rows);
      r.Ok? ==> forall e :: e in r.value ==>
        && e.kind == STATUS_CHANGED
        && e.valueFrom != e.valueTo
        && exists i :: 0 <= i < |rows| && RowEvent(rows[i]) == Ok(Some(e))
    ensures EventsOf(rows).Fatal? <==> exists i :: 0 <= i < |rows| && RowEvent(rows[i]).Fatal?
  {
    if rows != [] {
      var last := |rows| - 1;
      EventsOfSpec(rows[..last]);
      assert forall i :: 0 <= i < last ==> rows[..last][i] == rows[i];
    }
  }

  /** The event a row contributes: its event when it has one, nothing
      otherwise (fatal rows included). */
  function RowKept(row: Row): (r: seq<Event>)
    ensures |r| <= 1
    ensures r != [] <==> RowEvent(row).Ok? && RowEvent(row).value.Some?
    ensures r != [] ==> r[0] == RowEvent(row).value.value
  {
    match RowEvent(row)
    case Ok(Some(e)) => [e]
    case _ => []
  }

  /** The events of the rows that have one, in row order, read from the
      front: a reference for the loop of `StreamEvents`. */
  function KeptEvents(rows: seq<Row>): seq<Event>
    decreases |rows|
  {
    if rows == [] then [] else RowKept(rows[0]) + KeptEvents(rows[1..])
  }

  lemma {:induction false} KeptEventsSnoc(rows: seq<Row>, row: Row)
    ensures KeptEvents(rows + [row]) == KeptEvents(rows) + RowKept(row)
    decreases |rows|
  {
    if rows == [] {
      assert KeptEvents([row]) == RowKept(row) + KeptEvents([]);
    } else {
      assert (rows + [row])[1..] == rows[1..] + [row];
      KeptEventsSnoc(rows[1..], row);
      ConcatAssoc(RowKept(rows[0]), KeptEvents(rows[1..]), RowKept(row));
    }
  }

  /** Every row that yields an event has it kept: when no row is fatal, the
      events are exactly those of the rows that have one, in row order. */
  lemma {:induction false} EventsOfKeepsAll(rows: seq<Row>)
    ensures EventsOf(rows).Ok? ==> EventsOf(rows).value == KeptEvents(rows)
    ensures EventsOf(rows).Ok? ==> forall i :: 0 <= i < |rows| && RowEvent(rows[i]).Ok? && RowEvent(rows[i]).value.Some? ==>
      RowEvent(rows[i]).value.value in EventsOf(rows).value
    decreases |rows|
  {
    if rows != [] && EventsOf(rows).Ok? {
      var last := |rows| - 1;
      var init := rows[..last];
      EventsOfKeepsAll(init);
      assert rows == init + [rows[last]];
      KeptEventsSnoc(init, rows[last]);
      assert EventsOf(rows).value == EventsOf(init).value + RowKept(rows[last]);
      forall i | 0 <= i < |rows| && RowEvent(rows[i]).Ok? && RowEvent(rows[i]).value.Some?
        ensures RowEvent(rows[i]).value.value in EventsOf(rows).value
      {
        if i < last {
          assert init[i] == rows[i];
        }
      }
    }
  }

  /** Rows in ascending time yield events in ascending time. */
  lemma {:induction false} EventsOfAscending(rows: seq<Row>)
    requires forall i, j :: 0 <= i < j < |rows| ==> rows[i].time <= rows[j].time
    requires EventsOf(rows).Ok?
    ensures Ascending(Times(EventsOf(rows).value))
  {
    if rows != [] {
      var last := |rows| - 1;
      var events := EventsOf(rows[..last]).value;
      EventsOfAscending(rows[..last]);
      EventsOfSpec(rows[..last]);
      var kept := RowEvent(rows[last]);
      if kept.value.Some? {
        var e := kept.value.value;
        assert EventsOf(rows).value == events + [e];
        forall x | x in events
          ensures x.time <= e.time
        {
          var i :| 0 <= i < last && RowEvent(rows[..last][i]) == Ok(Some(x));
          assert rows[..last][i] == rows[i];
        }
        AscendingAppend(events, e);
      }
    }
  }

  lemma AscendingAppend(events: seq<Event>, e: Event)
    requires Ascending(Times(events))
    requires forall x :: x in events ==> x.time <= e.time
    ensures Ascending(Times(events + [e]))
  {
    var ts := Times(events + [e]);
    forall i, j | 0 <= i < j < |ts|
      ensures ts[i] <= ts[j]
    {
      assert ts[i] == (events + [e])[i].time;
      if j < |events| {
        assert ts[i] == Times(events)[i] && ts[j] == Times(events)[j];
      } else {
        assert events[i] in events;
      }
    }
  }

  /** Once a prefix of the rows is fatal, so is the whole sequence, with the same message. */
  lemma {:induction false} EventsOfFatalPrefix(rows: seq<Row>, k: nat)
    requires k <= |rows|
    requires EventsOf(rows[..k]).Fatal?
    ensures EventsOf(rows) == EventsOf(rows[..k])
    decreases |rows| - k
  {
    if k < |rows| {
      var next := rows[..k + 1];
      assert next[..k] == rows[..k];
      assert EventsOf(next) == EventsOf(rows[..k]);
      EventsOfFatalPrefix(rows, k + 1);
    } else {
      assert rows[..k] == rows;
    }
  }

  /** The row loop of `StreamEvents`: classifies each row in order and
      forwards the events it keeps, aborting at the first fatal row. */
  method StreamEvents(rows: seq<Row>) returns (r: Result<seq<Event>>)
    ensures r == EventsOf(rows)
  {
    var events: seq<Event> := [];
    var i := 0;
    while i < |rows|
      invariant 0 <= i <= |rows|
      invariant EventsOf(rows[..i]) == Ok(events)
    {
      assert rows[..i + 1][..i] == rows[..i];
      var kept := RowEvent(rows[i]);
      if kept.Fatal? {
        EventsOfFatalPrefix(rows, i + 1);
        return Fatal(kept.message);
      }
      if kept.value.Some? {
        events := events + [kept.value.value];
      }
      i := i + 1;
    }
    assert rows[..i] == rows;
    r := Ok(events);
  }
}
