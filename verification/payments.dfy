/** The patient's payments: the status of a payment record, the three
    counters, and the list under the All / Paid / Unpaid tabs. */
module Payments {
  import opened Wrappers
  import opened Text
  import Lists

  datatype Nested = Nested(payStatus: Option<String>)

  /** A payment as the server may send it: the status either nested under
      `payments` or at the top level. */
  datatype Payment = Payment(payments: Option<Nested>, payStatus: Option<String>)

  /** `p.payments?.payStatus || p.payStatus`. */
  function StatusOf(p: Payment): (s: Option<String>)
    ensures p.payments.Some? && TruthyOpt(p.payments.value.payStatus) ==> s == p.payments.value.payStatus
    ensures !(p.payments.Some? && TruthyOpt(p.payments.value.payStatus)) ==> s == p.payStatus
  {
    OrElse(if p.payments.Some? then p.payments.value.payStatus else None, p.payStatus)
  }

  function StatusIs(name: String): Payment -> bool
  {
    (p: Payment) => StatusOf(p) == Some(name)
  }

  datatype Stats = Stats(total: nat, paid: nat, pending: nat)

  /** `stats` (the counters; the amount sums are left out). */
  function ComputeStats(payments: Option<seq<Payment>>): (s: Stats)
    ensures payments.None? ==> s == Stats(0, 0, 0)
    ensures payments.Some? ==> s.total == |payments.value|
    ensures s.paid + s.pending <= s.total
  {
    if payments.None? then Stats(0, 0, 0)
    else
      var ps := payments.value;
      Lists.CountDisjoint(ps, StatusIs("paid"), StatusIs("unpaid"));
      Stats(|ps|, Lists.Count(ps, StatusIs("paid")), Lists.Count(ps, StatusIs("unpaid")))
  }

  /** `filteredPayments`: no data stays no data. */
  function FilterPayments(payments: Option<seq<Payment>>, selected: String): (r: Option<seq<Payment>>)
    ensures payments.None? <==> r.None?
    ensures payments.Some? && selected == "ALL" ==> r == payments
    ensures r.Some? ==> |r.value| <= |payments.value|
  {
    if payments.None? || selected == "ALL" then payments
    else
      var wanted := if selected == "PAID" then "paid" else if selected == "PENDING" then "unpaid" else Lower(selected);
      Some(Lists.Filter(payments.value, StatusIs(wanted)))
  }

  /** Each tab lists as many payments as its counter shows, and exactly the
      payments with its status. */
  lemma TabsMatchCounters(ps: seq<Payment>, p: Payment)
    ensures |FilterPayments(Some(ps), "ALL").value| == ComputeStats(Some(ps)).total
    ensures |FilterPayments(Some(ps), "PAID").value| == ComputeStats(Some(ps)).paid
    ensures |FilterPayments(Some(ps), "PENDING").value| == ComputeStats(Some(ps)).pending
    ensures p in FilterPayments(Some(ps), "PAID").value <==> p in ps && StatusOf(p) == Some("paid")
    ensures p in FilterPayments(Some(ps), "PENDING").value <==> p in ps && StatusOf(p) == Some("unpaid")
  {
    Lists.FilterMembers(ps, StatusIs("paid"), p);
    Lists.FilterMembers(ps, StatusIs("unpaid"), p);
  }

  /** Any other tab value is compared lower-cased; for "PAID" that is the
      same rule, but "PENDING" is mapped to "unpaid" rather than "pending". */
  lemma TabNames(ps: seq<Payment>)
    ensures FilterPayments(Some(ps), "PAID") == Some(Lists.Filter(ps, StatusIs(Lower("PAID"))))
    ensures Lower("PENDING") != "unpaid"
  {
    assert Lower("PAID") == "paid";
  }

  /** A nested status wins over the top-level one; an empty nested status
      defers to it. */
  lemma NestedStatusWins(nested: String, top: Option<String>)
    ensures nested != [] ==> StatusOf(Payment(Some(Nested(Some(nested))), top)) == Some(nested)
    ensures StatusOf(Payment(Some(Nested(Some(""))), top)) == top
    ensures StatusOf(Payment(None, top)) == top
  {
  }
  /** The three stat cards and the three tab buttons: each sets the filter to
      its tab value and displays one counter. */
  datatype Card = AllCard | PaidCard | UnpaidCard

  function CardTab(c: Card): String
  {
    match c
    case AllCard => "ALL"
    case PaidCard => "PAID"
    case UnpaidCard => "PENDING"
  }

  function CardCount(c: Card, s: Stats): nat
  {
    match c
    case AllCard => s.total
    case PaidCard => s.paid
    case UnpaidCard => s.pending
  }

  /** Clicking a card lists exactly as many payments as the card displays,
      and distinct cards select distinct tabs. */
  lemma CardListsItsCount(ps: seq<Payment>, c: Card, c2: Card)
    ensures |FilterPayments(Some(ps), CardTab(c)).value| == CardCount(c, ComputeStats(Some(ps)))
    ensures CardTab(c) == CardTab(c2) ==> c == c2
  {
    TabsMatchCounters(ps, Payment(None, None));
  }
}
