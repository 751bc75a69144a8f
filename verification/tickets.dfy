/** The admin support-ticket screen: the status workflow offered on a
    ticket, the confirmation asked before closing, the per-status counters,
    and the search/status filter over the unwrapped ticket list. */
module Tickets {
  import opened Wrappers
  import opened Text
  import Lists
  import Envelope

  /* ---------- the status workflow ---------- */

  /** The workflow stages a status string can name (ignoring case). */
  datatype Stage = Pending | InProgress | Resolved | Closed

  /** The status string the screen sends for a stage. */
  function StageName(st: Stage): String
  {
    match st
    case Pending => "Pending"
    case InProgress => "In Progress"
    case Resolved => "Resolved"
    case Closed => "Closed"
  }

  /** The stage a stored status names, compared in lower case; `None` for
      a missing or unknown status. */
  function StageOf(status: Option<String>): (r: Option<Stage>)
    ensures status.None? ==> r.None?
  {
    if status.None? then None
    else
      var k := Lower(status.value);
      if k == "pending" then Some(Pending)
      else if k == "in progress" then Some(InProgress)
      else if k == "resolved" then Some(Resolved)
      else if k == "closed" then Some(Closed)
      else None
  }

  lemma StageOfName(st: Stage)
    ensures StageOf(Some(StageName(st))) == Some(st)
  {
  }

  /** One button of the "Update Status" bar. */
  datatype Step = Step(target: String, caption: String, needsConfirm: bool)

  /** The buttons offered from a stage. */
  function StepsFrom(from: Option<Stage>): (r: seq<Step>)
    ensures from.None? || from == Some(Closed) ==> r == []
    ensures forall i :: 0 <= i < |r| ==> (r[i].needsConfirm <==> r[i].target == "Closed")
  {
    match from
    case Some(Pending) => [
      Step("In Progress", "Start Progress", false),
      Step("Resolved", "Mark Resolved", false),
      Step("Closed", "Close", true)]
    case Some(InProgress) => [
      Step("Resolved", "Mark Resolved", false),
      Step("Closed", "Close", true)]
    case Some(Resolved) => [
      Step("In Progress", "Reopen", false),
      Step("Closed", "Close", true)]
    case _ => []
  }

  /** `getNextStatusActions`: the buttons offered for a status, looked up ignoring case. */
  function NextSteps(status: Option<String>): (r: seq<Step>)
    ensures StageOf(status).None? || StageOf(status) == Some(Closed) ==> r == []
    ensures forall i :: 0 <= i < |r| ==> (r[i].needsConfirm <==> r[i].target == "Closed")
  {
    StepsFrom(StageOf(status))
  }

  function Targets(steps: seq<Step>): (r: seq<String>)
    ensures |r| == |steps|
    ensures forall i :: 0 <= i < |r| ==> r[i] == steps[i].target
  {
    seq(|steps|, i requires 0 <= i < |steps| => steps[i].target)
  }

  /** The workflow as a relation: an open ticket may move to any other
      stage except back to Pending; a closed ticket may not move. */
  predicate Allowed(from: Stage, to: Stage)
  {
    from != Closed && to != from && to != Pending
  }

  /** The stage a target string names exactly. */
  function NamedStage(s: String): (r: Option<Stage>)
    ensures r.Some? ==> StageName(r.value) == s
  {
    if s == "Pending" then Some(Pending)
    else if s == "In Progress" then Some(InProgress)
    else if s == "Resolved" then Some(Resolved)
    else if s == "Closed" then Some(Closed)
    else None
  }

  /** The offered targets name exactly the stages the workflow allows from
      the current one, each once; nothing else is offered. */
  lemma StepsFollowWorkflow(from: Stage)
    ensures forall i :: 0 <= i < |StepsFrom(Some(from))| ==>
      NamedStage(StepsFrom(Some(from))[i].target).Some? && Allowed(from, NamedStage(StepsFrom(Some(from))[i].target).value)
    ensures forall to :: StageName(to) in Targets(StepsFrom(Some(from))) <==> Allowed(from, to)
    ensures Lists.NoDuplicates(Targets(StepsFrom(Some(from))))
  {
    var t := Targets(StepsFrom(Some(from)));
    match from {
      case Pending =>
        assert t == [StageName(InProgress), StageName(Resolved), StageName(Closed)];
      case InProgress =>
        assert t == [StageName(Resolved), StageName(Closed)];
      case Resolved =>
        assert t == [StageName(InProgress), StageName(Closed)];
      case Closed =>
        assert t == [];
    }
  }

  /** The same, stated for a stored status: what is offered is what the
      workflow allows from the stage the status names. */
  lemma NextStepsFollowWorkflow(status: Option<String>)
    ensures forall to :: StageName(to) in Targets(NextSteps(status)) <==> StageOf(status).Some? && Allowed(StageOf(status).value, to)
    ensures Lists.NoDuplicates(Targets(NextSteps(status)))
  {
    if StageOf(status).Some? {
      StepsFollowWorkflow(StageOf(status).value);
    }
  }

  /** Worked table: pending offers In Progress, Resolved, Closed; in
      progress offers Resolved, Closed; resolved offers a reopen to In
      Progress and Closed. */
  lemma NextStepsTable(s: String)
    ensures Lower(s) == "pending" ==> Targets(NextSteps(Some(s))) == ["In Progress", "Resolved", "Closed"]
    ensures Lower(s) == "in progress" ==> Targets(NextSteps(Some(s))) == ["Resolved", "Closed"]
    ensures Lower(s) == "resolved" ==> Targets(NextSteps(Some(s))) == ["In Progress", "Closed"]
    ensures Lower(s) == "resolved" ==> NextSteps(Some(s))[0].caption == "Reopen"
    ensures Lower(s) == "closed" ==> NextSteps(Some(s)) == []
  {
  }

  /** No offered step keeps the ticket where it is. */
  lemma NoSelfTransition(status: Option<String>)
    ensures forall i :: 0 <= i < |NextSteps(status)| ==> NamedStage(NextSteps(status)[i].target) != StageOf(status)
  {
    if StageOf(status).Some? {
      StepsFollowWorkflow(StageOf(status).value);
    }
  }

  /** The lookup ignores case. */
  lemma NextStepsIgnoreCase(s: String)
    ensures NextSteps(Some(Lower(s))) == NextSteps(Some(s))
  {
    LowerIdempotent(s);
  }

  /** What a status button sends. */
  datatype Update = Update(id: Option<int>, status: String)

  /** Pressing a step: closing asks first, and a declined question sends nothing. */
  function Press(compId: Option<int>, step: Step, confirmed: bool): (r: Option<Update>)
    ensures r.None? <==> step.needsConfirm && !confirmed
    ensures r.Some? ==> r.value == Update(compId, step.target)
  {
    if step.needsConfirm && !confirmed then None else Some(Update(compId, step.target))
  }

  /** Among the offered steps, only the move to Closed can be declined. */
  lemma OnlyClosingAsks(status: Option<String>, compId: Option<int>)
    ensures forall i :: 0 <= i < |NextSteps(status)| ==>
      (Press(compId, NextSteps(status)[i], false).None? <==> NextSteps(status)[i].target == "Closed")
    ensures forall i :: 0 <= i < |NextSteps(status)| ==> Press(compId, NextSteps(status)[i], true).Some?
  {
  }

  /* ---------- ticket rows ---------- */

  datatype Complaint = Complaint(compId: Option<int>, subject: Option<String>, description: Option<String>, status: Option<String>)

  datatype DoctorNames = DoctorNames(fName: Option<String>, lName: Option<String>, firstName: Option<String>, lastName: Option<String>)

  /** A row of the tickets list. The counters and the "Update Status" bar
      read the row's own `status`; the filter and the offered steps read
      the nested complaint's. */
  datatype TicketRow = TicketRow(status: Option<String>, complaints: Complaint, doctors: Option<DoctorNames>)

  /** The details dialog shows the status bar unless the row is closed. */
  predicate StatusBarShown(row: TicketRow)
  {
    !(row.status.Some? && Lower(row.status.value) == "closed")
  }

  function StatusBarSteps(row: TicketRow): seq<Step>
  {
    if StatusBarShown(row) then NextSteps(row.complaints.status) else []
  }

  /** A closed row offers no step. */
  lemma ClosedRowOffersNothing(row: TicketRow)
    ensures StageOf(row.status) == Some(Closed) ==> StatusBarSteps(row) == []
    ensures StageOf(row.complaints.status) == Some(Closed) ==> StatusBarSteps(row) == []
  {
  }

  /** `field?.toLowerCase().includes(search.toLowerCase())`. */
  predicate FieldHas(field: Option<String>, search: String)
  {
    field.Some? && ContainsIgnoringCase(field.value, search)
  }

  predicate SearchMatches(row: TicketRow, search: String)
  {
    || FieldHas(row.complaints.subject, search)
    || FieldHas(row.complaints.description, search)
    || (row.complaints.compId.Some? && Contains(IntToString(row.complaints.compId.value), search))
    || (row.doctors.Some? &&
         (|| FieldHas(row.doctors.value.fName, search)
          || FieldHas(row.doctors.value.lName, search)
          || FieldHas(row.doctors.value.firstName, search)
          || FieldHas(row.doctors.value.lastName, search)))
  }

  predicate StatusMatches(row: TicketRow, statusFilter: String)
  {
    statusFilter == "all" ||
      (row.complaints.status.Some? && Lower(row.complaints.status.value) == Lower(statusFilter))
  }

  predicate TicketMatches(row: TicketRow, search: String, statusFilter: String)
  {
    SearchMatches(row, search) && StatusMatches(row, statusFilter)
  }

  /** The search/status filter over a list of rows. */
  function FilterTickets(rows: seq<TicketRow>, search: String, statusFilter: String): (r: seq<TicketRow>)
    ensures |r| <= |rows|
    ensures forall i :: 0 <= i < |r| ==> TicketMatches(r[i], search, statusFilter)
  {
    Lists.Filter(rows, row => TicketMatches(row, search, statusFilter))
  }

  /** A row holds some field the search looks in: a subject, a description,
      an id, or a doctor with a name part. */
  predicate HasSearchField(row: TicketRow)
  {
    || row.complaints.subject.Some? || row.complaints.description.Some? || row.complaints.compId.Some?
    || (row.doctors.Some? &&
         (|| row.doctors.value.fName.Some? || row.doctors.value.lName.Some?
          || row.doctors.value.firstName.Some? || row.doctors.value.lastName.Some?))
  }

  /** An empty search matches exactly the rows that have a field to search in. */
  lemma EmptySearchMatches(row: TicketRow)
    ensures SearchMatches(row, []) <==> HasSearchField(row)
  {
    var c := row.complaints;
    if c.subject.Some? { ContainsEmpty(Lower(c.subject.value)); }
    if c.description.Some? { ContainsEmpty(Lower(c.description.value)); }
    if c.compId.Some? { ContainsEmpty(IntToString(c.compId.value)); }
    if row.doctors.Some? {
      var d := row.doctors.value;
      if d.fName.Some? { ContainsEmpty(Lower(d.fName.value)); }
      if d.lName.Some? { ContainsEmpty(Lower(d.lName.value)); }
      if d.firstName.Some? { ContainsEmpty(Lower(d.firstName.value)); }
      if d.lastName.Some? { ContainsEmpty(Lower(d.lastName.value)); }
    }
  }

  /** The filter keeps, in order, exactly the matching rows; the status
      filter "all" with an empty search keeps every row that has a subject,
      description, id or doctor name to search in, and only those. */
  lemma FilterTicketsSpec(rows: seq<TicketRow>, search: String, statusFilter: String)
    ensures Lists.IsSubsequence(FilterTickets(rows, search, statusFilter), rows)
    ensures forall row :: row in FilterTickets(rows, search, statusFilter) <==>
      row in rows && SearchMatches(row, search) && StatusMatches(row, statusFilter)
    ensures search == [] && statusFilter == "all" ==>
      forall row :: row in FilterTickets(rows, search, statusFilter) <==> row in rows && HasSearchField(row)
  {
    var p := row => TicketMatches(row, search, statusFilter);
    Lists.FilterIsSubsequence(rows, p);
    forall row
      ensures row in FilterTickets(rows, search, statusFilter) <==> row in rows && p(row)
    {
      Lists.FilterMembers(rows, p, row);
    }
    if search == [] && statusFilter == "all" {
      forall row
        ensures SearchMatches(row, search) <==> HasSearchField(row)
      {
        EmptySearchMatches(row);
      }
    }
  }

  /** The status filter ignores the case of the chosen status. */
  lemma StatusFilterIgnoresCase(row: TicketRow, statusFilter: String)
    requires statusFilter != "all" && Lower(statusFilter) != "all"
    ensures StatusMatches(row, Lower(statusFilter)) == StatusMatches(row, statusFilter)
  {
    LowerIdempotent(statusFilter);
  }

  /** The property names a tickets response may wrap its list in, in the order tried. */
  const TicketKeys: seq<String> := ["data", "complaints"]

  /** The tickets list: the unwrapped response. */
  function TicketList(b: Envelope.Body<TicketRow>): (r: seq<TicketRow>)
    ensures b.ArrayBody? ==> r == b.items
  {
    Envelope.Unwrap(b, TicketKeys)
  }

  /** `filteredComplaints` as intended: the filter over the unwrapped list. */
  function FilteredTickets(b: Envelope.Body<TicketRow>, search: String, statusFilter: String): (r: seq<TicketRow>)
    ensures Lists.IsSubsequence(r, TicketList(b))
  {
    FilterTicketsSpec(TicketList(b), search, statusFilter);
    FilterTickets(TicketList(b), search, statusFilter)
  }

  /** `filteredComplaints` as written: it filters the raw response, so a
      wrapped response has no `.filter` and throws (`None`). */
  function FilteredTicketsAsWritten(b: Envelope.Body<TicketRow>, search: String, statusFilter: String): (r: Option<seq<TicketRow>>)
    ensures b.NoBody? ==> r == Some([])
    ensures b.ArrayBody? ==> r == Some(FilterTickets(b.items, search, statusFilter))
    ensures b.ObjectBody? ==> r.None?
  {
    match b
    case NoBody => Some([])
    case ArrayBody(items) => Some(FilterTickets(items, search, statusFilter))
    case ObjectBody(_) => None
  }

  /** The two agree on bare arrays, but a response wrapped under `data`
      that the counters read fine makes the filtered list throw. */
  lemma WrappedResponseBreaksFilter(b: Envelope.Body<TicketRow>, search: String, statusFilter: String, row: TicketRow)
    ensures !b.ObjectBody? ==> FilteredTicketsAsWritten(b, search, statusFilter) == Some(FilteredTickets(b, search, statusFilter))
    ensures var wrapped := Envelope.ObjectBody(map["data" := [row]]);
      && FilteredTicketsAsWritten(wrapped, search, statusFilter).None?
      && Stats(TicketList(wrapped)).total == 1
      && (TicketMatches(row, search, statusFilter) ==> FilteredTickets(wrapped, search, statusFilter) == [row])
  {
    var wrapped := Envelope.ObjectBody(map["data" := [row]]);
    Envelope.UnwrapOrder(map["data" := [row]], "data", "complaints");
    assert TicketList(wrapped) == [row];
    assert Lists.Filter([row][1..], (r: TicketRow) => TicketMatches(r, search, statusFilter)) == [];
  }

  /* ---------- counters ---------- */

  datatype Counters = Counters(total: nat, pending: nat, inProgress: nat, resolved: nat, closed: nat)

  function StatusIs(name: String): TicketRow -> bool
  {
    (row: TicketRow) => row.status.Some? && Lower(row.status.value) == name
  }

  /** `stats`: the list length and the rows per status (row's own status, ignoring case). */
  function Stats(rows: seq<TicketRow>): (r: Counters)
    ensures r.total == |rows|
    ensures r.pending + r.inProgress + r.resolved + r.closed <= r.total
  {
    var c := Counters(|rows|,
      Lists.Count(rows, StatusIs("pending")),
      Lists.Count(rows, StatusIs("in progress")),
      Lists.Count(rows, StatusIs("resolved")),
      Lists.Count(rows, StatusIs("closed")));
    Lists.CountDisjoint4(rows, StatusIs("pending"), StatusIs("in progress"), StatusIs("resolved"), StatusIs("closed"));
    c
  }

  /** Each counter is the number of rows whose status, lower-cased, is that
      stage's; rows with any other status are counted in no bucket. */
  lemma StatsCountStages(rows: seq<TicketRow>, row: TicketRow)
    ensures StageOf(row.status).None? ==> !StatusIs("pending")(row) && !StatusIs("in progress")(row) && !StatusIs("resolved")(row) && !StatusIs("closed")(row)
    ensures StageOf(row.status) == Some(Pending) <==> StatusIs("pending")(row)
    ensures StageOf(row.status) == Some(Closed) <==> StatusIs("closed")(row)
    ensures Stats(rows + [row]).total == Stats(rows).total + 1
  {
  }
}
