/** The patient's appointment list, in its two copies (the dashboard screen
    and the routed page): appointments grouped into three status sections,
    collapsible sections, a section filter, and the per-card actions. */
module PatientAppointments {
  import opened Wrappers
  import Lists

  datatype Appointment = Appointment(apId: int, apStatus: Option<string>)

  datatype Section = PendingSection | ConfirmedSection | CancelledSection

  /** The status string a section collects. */
  function SectionName(s: Section): string
  {
    match s
    case PendingSection => "pending"
    case ConfirmedSection => "confirmed"
    case CancelledSection => "cancelled"
  }

  /** The fixed order of the sections on screen. */
  const SectionOrder: seq<Section> := [PendingSection, ConfirmedSection, CancelledSection]

  function HasStatus(name: string): Appointment -> bool
  {
    (a: Appointment) => a.apStatus == Some(name)
  }

  /** `grouped[section]`. */
  function Grouped(appts: seq<Appointment>, s: Section): (r: seq<Appointment>)
    ensures |r| <= |appts|
    ensures forall i :: 0 <= i < |r| ==> r[i].apStatus == Some(SectionName(s))
  {
    Lists.Filter(appts, HasStatus(SectionName(s)))
  }

  /** Each section holds, in their order, exactly the appointments with its
      status; the three sections together hold at most all appointments. */
  lemma GroupedSpec(appts: seq<Appointment>, s: Section)
    ensures Lists.IsSubsequence(Grouped(appts, s), appts)
    ensures forall a :: a in Grouped(appts, s) <==> a in appts && a.apStatus == Some(SectionName(s))
    ensures |Grouped(appts, PendingSection)| + |Grouped(appts, ConfirmedSection)| + |Grouped(appts, CancelledSection)| <= |appts|
  {
    Lists.FilterIsSubsequence(appts, HasStatus(SectionName(s)));
    forall a
      ensures a in Grouped(appts, s) <==> a in appts && a.apStatus == Some(SectionName(s))
    {
      Lists.FilterMembers(appts, HasStatus(SectionName(s)), a);
    }
    Lists.CountDisjoint3(appts, HasStatus("pending"), HasStatus("confirmed"), HasStatus("cancelled"));
  }

  predicate KnownStatus(a: Appointment)
  {
    a.apStatus == Some("pending") || a.apStatus == Some("confirmed") || a.apStatus == Some("cancelled")
  }

  /** The sections lose no appointment exactly when every status is one of
      the three known ones; any other status is dropped from the screen. */
  lemma {:induction false} GroupedCoversAll(appts: seq<Appointment>)
    ensures |Grouped(appts, PendingSection)| + |Grouped(appts, ConfirmedSection)| + |Grouped(appts, CancelledSection)| == |appts|
      <==> forall i :: 0 <= i < |appts| ==> KnownStatus(appts[i])
    decreases |appts|
  {
    if |appts| > 0 {
      GroupedCoversAll(appts[1..]);
      GroupedSpec(appts[1..], PendingSection);
    }
  }

  /* ---------- collapsible sections ---------- */

  datatype Collapsed = Collapsed(pending: bool, confirmed: bool, cancelled: bool)

  /** Initially only the cancelled section is folded. */
  const InitialCollapsed: Collapsed := Collapsed(false, false, true)

  function IsCollapsed(c: Collapsed, s: Section): bool
  {
    match s
    case PendingSection => c.pending
    case ConfirmedSection => c.confirmed
    case CancelledSection => c.cancelled
  }

  /** Only the cancelled section starts folded, and one toggle unfolds it
      without folding anything else. */
  lemma InitialFolding(s: Section)
    ensures IsCollapsed(InitialCollapsed, s) <==> s == CancelledSection
    ensures !IsCollapsed(Toggle(InitialCollapsed, CancelledSection), s)
  {
  }

  /** `toggleSection`. */
  function Toggle(c: Collapsed, s: Section): (r: Collapsed)
    ensures IsCollapsed(r, s) == !IsCollapsed(c, s)
    ensures forall t :: t != s ==> IsCollapsed(r, t) == IsCollapsed(c, t)
  {
    match s
    case PendingSection => c.(pending := !c.pending)
    case ConfirmedSection => c.(confirmed := !c.confirmed)
    case CancelledSection => c.(cancelled := !c.cancelled)
  }

  /** Toggling twice restores the flags; toggling two sections commutes. */
  lemma ToggleInvolution(c: Collapsed, s: Section, t: Section)
    ensures Toggle(Toggle(c, s), s) == c
    ensures Toggle(Toggle(c, s), t) == Toggle(Toggle(c, t), s)
  {
  }

  /* ---------- which sections are rendered ---------- */

  /** The dashboard's section filter: "all" or one status. */
  predicate Shown(filter: string, s: Section)
  {
    filter == "all" || filter == SectionName(s)
  }

  function ShownBy(filter: string): Section -> bool
  {
    (s: Section) => Shown(filter, s)
  }

  /** The filter over the three sections, unrolled. */
  lemma FilterSectionOrder(p: Section -> bool)
    ensures Lists.Filter(SectionOrder, p) ==
      (if p(PendingSection) then [PendingSection] else [])
      + (if p(ConfirmedSection) then [ConfirmedSection] else [])
      + (if p(CancelledSection) then [CancelledSection] else [])
  {
    assert SectionOrder[1..] == [ConfirmedSection, CancelledSection];
    assert SectionOrder[1..][1..] == [CancelledSection];
    assert SectionOrder[1..][1..][1..] == [];
  }

  /** A section is kept exactly when the filter selects it. */
  lemma ShownMembers(filter: string)
    ensures forall s :: s in Lists.Filter(SectionOrder, ShownBy(filter)) <==> Shown(filter, s)
  {
    forall s
      ensures s in Lists.Filter(SectionOrder, ShownBy(filter)) <==> Shown(filter, s)
    {
      Lists.FilterMembers(SectionOrder, ShownBy(filter), s);
      assert s == SectionOrder[0] || s == SectionOrder[1] || s == SectionOrder[2];
    }
  }

  /** The sections rendered, in the fixed order, that the filter selects. */
  function VisibleSections(filter: string): (r: seq<Section>)
    ensures Lists.IsSubsequence(r, SectionOrder)
    ensures forall s :: s in r <==> Shown(filter, s)
  {
    Lists.FilterIsSubsequence(SectionOrder, ShownBy(filter));
    ShownMembers(filter);
    Lists.Filter(SectionOrder, ShownBy(filter))
  }

  /** "all" keeps the fixed order; a status shows just its own section. */
  lemma VisibleSectionsCases(filter: string, s: Section)
    ensures VisibleSections("all") == SectionOrder
    ensures filter == SectionName(s) ==> VisibleSections(filter) == [s]
  {
    FilterSectionOrder(ShownBy("all"));
    if filter == SectionName(s) {
      FilterSectionOrder(ShownBy(filter));
      match s
      case PendingSection =>
        assert !Shown(filter, ConfirmedSection) && !Shown(filter, CancelledSection);
      case ConfirmedSection =>
        assert !Shown(filter, PendingSection) && !Shown(filter, CancelledSection);
      case CancelledSection =>
        assert !Shown(filter, PendingSection) && !Shown(filter, ConfirmedSection);
    }
  }

  /** What the dashboard copy renders. */
  datatype Screen = Loading | Failed | NoAppointments | Sections(sections: seq<Section>)

  function DashboardScreen(loading: bool, error: bool, appts: seq<Appointment>, filter: string): (r: Screen)
    ensures r.Sections? ==> !loading && !error && |appts| > 0 && r.sections == VisibleSections(filter)
  {
    if loading then Loading
    else if error then Failed
    else if |appts| == 0 then NoAppointments
    else Sections(VisibleSections(filter))
  }

  /** The routed copy renders its messages side by side and the sections,
      always all three in the fixed order, only when neither loading nor
      failed. */
  function RoutedSections(loading: bool, error: bool): (r: seq<Section>)
    ensures r == [] <==> loading || error
    ensures r != [] ==> r == SectionOrder
  {
    if !loading && !error then SectionOrder else []
  }

  /* ---------- card actions ---------- */

  /** Cancel is offered for pending appointments only. */
  predicate OffersCancel(a: Appointment) { a.apStatus == Some("pending") }

  /** The complaint form is offered for confirmed appointments only (dashboard copy). */
  predicate OffersComplaint(a: Appointment) { a.apStatus == Some("confirmed") }

  /** Within the sections, cancel buttons appear exactly in the pending one
      and complaint forms exactly in the confirmed one; no card has both. */
  lemma ActionsFollowSections(appts: seq<Appointment>, s: Section, a: Appointment)
    requires a in Grouped(appts, s)
    ensures OffersCancel(a) <==> s == PendingSection
    ensures OffersComplaint(a) <==> s == ConfirmedSection
    ensures !(OffersCancel(a) && OffersComplaint(a))
  {
    GroupedSpec(appts, s);
  }

  datatype CancelRequest = CancelRequest(apId: int)

  /** `handleCancel`: the request is sent only when the dialog is confirmed. */
  function Cancel(a: Appointment, confirmed: bool): (r: Option<CancelRequest>)
    ensures r.Some? <==> confirmed
    ensures r.Some? ==> r.value.apId == a.apId
  {
    if confirmed then Some(CancelRequest(a.apId)) else None
  }

  /** The alert after a cancel request settles; a success also refetches. */
  datatype CancelAlert = CancelAlert(message: string, refetch: bool)

  function CancelOutcome(ok: bool): CancelAlert
  {
    if ok then CancelAlert("Appointment cancelled successfully.", true) else CancelAlert("Failed to cancel appointment.", false)
  }

  /** Only a success refetches, and the two alerts differ. */
  lemma CancelOutcomeSpec()
    ensures CancelOutcome(true).refetch && !CancelOutcome(false).refetch
    ensures CancelOutcome(true).message != CancelOutcome(false).message
  {
  }
}
