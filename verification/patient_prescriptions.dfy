/** The patient's own prescriptions: a status derived from the age of each
    prescription, a search/specialization/status filter, four sort orders,
    and the specialization options. */
module PatientPrescriptions {
  import opened Wrappers
  import opened Text
  import Lists
  import Sorting

  const MillisPerDay: int := 1000 * 60 * 60 * 24

  datatype Doctor = Doctor(fName: Option<String>, lName: Option<String>, specialization: Option<String>)

  /** One prescription: `createdOn` in milliseconds since the epoch. */
  datatype Prescription = Prescription(notes: Option<String>, createdOn: int, doctors: Option<Doctor>)

  datatype Status = Active | Completed | Expired

  /** Whole days elapsed, `Math.floor((now - created) / 86400000)`. */
  function DaysSince(now: int, created: int): (d: int)
    ensures d * MillisPerDay <= now - created < (d + 1) * MillisPerDay
  {
    (now - created) / MillisPerDay
  }

  /** `getPrescriptionStatus` for an age in whole days. */
  function StatusForAge(days: int): (s: Status)
    ensures s == Expired <==> days > 30
    ensures s == Completed <==> 7 < days <= 30
    ensures s == Active <==> days <= 7
  {
    if days > 30 then Expired else if days > 7 then Completed else Active
  }

  function StatusOf(p: Prescription, now: int): Status
  {
    StatusForAge(DaysSince(now, p.createdOn))
  }

  function Rank(s: Status): nat
  {
    match s
    case Active => 0
    case Completed => 1
    case Expired => 2
  }

  /** Status only moves forward with age: active, then completed, then expired. */
  lemma StatusMonotone(d1: int, d2: int)
    requires d1 <= d2
    ensures Rank(StatusForAge(d1)) <= Rank(StatusForAge(d2))
  {
  }

  /** An older prescription (earlier `createdOn`) never has an earlier status. */
  lemma OlderIsNotFresher(p: Prescription, q: Prescription, now: int)
    requires p.createdOn <= q.createdOn
    ensures Rank(StatusOf(q, now)) <= Rank(StatusOf(p, now))
  {
    var dp := DaysSince(now, p.createdOn);
    var dq := DaysSince(now, q.createdOn);
    if dq > dp {
      assert false;
    }
    StatusMonotone(dq, dp);
  }

  datatype StatusFilter = AllStatuses | Only(status: Status)

  datatype SortOption = Newest | Oldest | ByDoctor | BySpecialization

  datatype View = View(search: String, specialization: String, status: StatusFilter, sortBy: SortOption)

  const Defaults: View := View("", "", AllStatuses, Newest)

  /** `${d?.fName ?? ''} ${d?.lName ?? ''}`. */
  function DoctorName(p: Prescription): String
  {
    if p.doctors.None? then " " else OrEmpty(p.doctors.value.fName) + " " + OrEmpty(p.doctors.value.lName)
  }

  function SpecializationOf(p: Prescription): Option<String>
  {
    if p.doctors.None? then None else p.doctors.value.specialization
  }

  predicate PrescriptionMatches(p: Prescription, v: View, now: int)
  {
    && ((p.notes.Some? && ContainsIgnoringCase(p.notes.value, v.search)) || ContainsIgnoringCase(DoctorName(p), v.search))
    && (v.specialization == [] || SpecializationOf(p) == Some(v.specialization))
    && (v.status == AllStatuses || Only(StatusOf(p, now)) == v.status)
  }

  function Matches(v: View, now: int): Prescription -> bool
  {
    p => PrescriptionMatches(p, v, now)
  }

  /** The column each sort option compares. */
  function SortColumn(o: SortOption): Prescription -> Sorting.Key
  {
    match o
    case Newest => (p: Prescription) => Sorting.IntKey(p.createdOn)
    case Oldest => (p: Prescription) => Sorting.IntKey(p.createdOn)
    case ByDoctor => (p: Prescription) => Sorting.StrKey(DoctorName(p))
    case BySpecialization => (p: Prescription) => Sorting.StrKey(OrEmpty(SpecializationOf(p)))
  }

  /** Only "newest" is descending. */
  function SortOrder(o: SortOption): Sorting.Order
  {
    if o == Newest then Sorting.Desc else Sorting.Asc
  }

  /** `filteredAndSortedPrescriptions`. */
  function Listed(ps: seq<Prescription>, v: View, now: int): (r: seq<Prescription>)
    ensures multiset(r) == multiset(Lists.Filter(ps, Matches(v, now)))
    ensures forall i :: 0 <= i < |r| ==> PrescriptionMatches(r[i], v, now)
  {
    var filtered := Lists.Filter(ps, Matches(v, now));
    var r := Sorting.SortBy(filtered, SortColumn(v.sortBy), SortOrder(v.sortBy));
    assert forall i :: 0 <= i < |r| ==> r[i] in multiset(filtered);
    r
  }

  /** The list holds exactly the matching prescriptions. */
  lemma ListedMembers(ps: seq<Prescription>, v: View, now: int)
    ensures forall p :: p in Listed(ps, v, now) <==> p in ps && PrescriptionMatches(p, v, now)
  {
    var filtered := Lists.Filter(ps, Matches(v, now));
    var r := Listed(ps, v, now);
    forall p
      ensures p in r <==> p in ps && PrescriptionMatches(p, v, now)
    {
      Lists.FilterMembers(ps, Matches(v, now), p);
      assert p in r <==> p in multiset(filtered);
    }
  }

  /** "newest" puts later `createdOn` first and "oldest" earlier first. */
  lemma ListedByDate(ps: seq<Prescription>, v: View, now: int)
    requires v.sortBy == Newest || v.sortBy == Oldest
    ensures v.sortBy == Newest ==> forall i, j :: 0 <= i < j < |Listed(ps, v, now)| ==>
      Listed(ps, v, now)[i].createdOn >= Listed(ps, v, now)[j].createdOn
    ensures v.sortBy == Oldest ==> forall i, j :: 0 <= i < j < |Listed(ps, v, now)| ==>
      Listed(ps, v, now)[i].createdOn <= Listed(ps, v, now)[j].createdOn
  {
    var filtered := Lists.Filter(ps, Matches(v, now));
    var r := Listed(ps, v, now);
    Sorting.SortBySorted(filtered, SortColumn(v.sortBy), SortOrder(v.sortBy));
    forall i, j | 0 <= i < j < |r|
      ensures v.sortBy == Newest ==> r[i].createdOn >= r[j].createdOn
      ensures v.sortBy == Oldest ==> r[i].createdOn <= r[j].createdOn
    {
      assert Sorting.Precedes(SortColumn(v.sortBy)(r[i]), SortColumn(v.sortBy)(r[j]), SortOrder(v.sortBy));
    }
  }

  /** "doctor" orders by the "first last" name and "specialization" by the
      specialization, a missing one read as empty; both ascending. */
  lemma ListedByName(ps: seq<Prescription>, v: View, now: int)
    requires v.sortBy == ByDoctor || v.sortBy == BySpecialization
    ensures v.sortBy == ByDoctor ==> forall i, j :: 0 <= i < j < |Listed(ps, v, now)| ==>
      !Sorting.StrLess(DoctorName(Listed(ps, v, now)[j]), DoctorName(Listed(ps, v, now)[i]))
    ensures v.sortBy == BySpecialization ==> forall i, j :: 0 <= i < j < |Listed(ps, v, now)| ==>
      !Sorting.StrLess(OrEmpty(SpecializationOf(Listed(ps, v, now)[j])), OrEmpty(SpecializationOf(Listed(ps, v, now)[i])))
  {
    var filtered := Lists.Filter(ps, Matches(v, now));
    var r := Listed(ps, v, now);
    Sorting.SortBySorted(filtered, SortColumn(v.sortBy), SortOrder(v.sortBy));
    forall i, j | 0 <= i < j < |r|
      ensures v.sortBy == ByDoctor ==> !Sorting.StrLess(DoctorName(r[j]), DoctorName(r[i]))
      ensures v.sortBy == BySpecialization ==> !Sorting.StrLess(OrEmpty(SpecializationOf(r[j])), OrEmpty(SpecializationOf(r[i])))
    {
      var a, b := SortColumn(v.sortBy)(r[i]), SortColumn(v.sortBy)(r[j]);
      assert Sorting.Precedes(a, b, Sorting.Asc);
      Sorting.LessTrichotomy(a, b);
      assert !Sorting.Less(b, a);
    }
  }

  /** The list holds exactly the matching prescriptions, ordered by the
      chosen option's column in its direction: "newest" puts later
      `createdOn` first, "oldest" earlier first, "doctor" and
      "specialization" run alphabetically. Prescriptions that tie on the
      column keep their fetched order. */
  lemma ListedSpec(ps: seq<Prescription>, v: View, now: int, k: Sorting.Key)
    ensures forall p :: p in Listed(ps, v, now) <==> p in ps && PrescriptionMatches(p, v, now)
    ensures Sorting.SortedBy(Listed(ps, v, now), SortColumn(v.sortBy), SortOrder(v.sortBy))
    ensures Lists.Filter(Listed(ps, v, now), Sorting.KeyIs(SortColumn(v.sortBy), k)) ==
      Lists.Filter(Lists.Filter(ps, Matches(v, now)), Sorting.KeyIs(SortColumn(v.sortBy), k))
    ensures v.sortBy == Newest ==> forall i, j :: 0 <= i < j < |Listed(ps, v, now)| ==>
      Listed(ps, v, now)[i].createdOn >= Listed(ps, v, now)[j].createdOn
    ensures v.sortBy == Oldest ==> forall i, j :: 0 <= i < j < |Listed(ps, v, now)| ==>
      Listed(ps, v, now)[i].createdOn <= Listed(ps, v, now)[j].createdOn
    ensures v.sortBy == ByDoctor ==> forall i, j :: 0 <= i < j < |Listed(ps, v, now)| ==>
      !Sorting.StrLess(DoctorName(Listed(ps, v, now)[j]), DoctorName(Listed(ps, v, now)[i]))
    ensures v.sortBy == BySpecialization ==> forall i, j :: 0 <= i < j < |Listed(ps, v, now)| ==>
      !Sorting.StrLess(OrEmpty(SpecializationOf(Listed(ps, v, now)[j])), OrEmpty(SpecializationOf(Listed(ps, v, now)[i])))
  {
    var filtered := Lists.Filter(ps, Matches(v, now));
    ListedMembers(ps, v, now);
    Sorting.SortBySorted(filtered, SortColumn(v.sortBy), SortOrder(v.sortBy));
    Sorting.SortByStable(filtered, SortColumn(v.sortBy), SortOrder(v.sortBy), k);
    if v.sortBy == Newest || v.sortBy == Oldest {
      ListedByDate(ps, v, now);
    } else {
      ListedByName(ps, v, now);
    }
  }

  /** The default view filters nothing out. */
  lemma DefaultsKeepEverything(ps: seq<Prescription>, now: int)
    ensures forall p :: p in Listed(ps, Defaults, now) <==> p in ps
  {
    ListedMembers(ps, Defaults, now);
    forall p | p in ps
      ensures PrescriptionMatches(p, Defaults, now)
    {
      ContainsEmpty(Lower(DoctorName(p)));
    }
  }

  /** The specializations that are present and non-empty, in order. */
  function PresentSpecializations(ps: seq<Prescription>): (r: seq<String>)
    ensures forall i :: 0 <= i < |r| ==> r[i] != []
    ensures forall s :: s in r <==> s != [] && exists i :: 0 <= i < |ps| && SpecializationOf(ps[i]) == Some(s)
  {
    if |ps| == 0 then []
    else
      var rest := PresentSpecializations(ps[1..]);
      assert forall s :: (exists i :: 0 <= i < |ps[1..]| && SpecializationOf(ps[1..][i]) == Some(s)) <==>
        (exists i :: 1 <= i < |ps| && SpecializationOf(ps[i]) == Some(s));
      var sp := SpecializationOf(ps[0]);
      if TruthyOpt(sp) then [sp.value] + rest else rest
  }

  /** `specializations`: the distinct present specializations (see
      `SpecializationOptionsOrder` for their order). */
  function SpecializationOptions(ps: seq<Prescription>): (r: seq<String>)
    ensures Lists.NoDuplicates(r)
    ensures forall s :: s in r <==> s != [] && exists i :: 0 <= i < |ps| && SpecializationOf(ps[i]) == Some(s)
  {
    var present := PresentSpecializations(ps);
    var r := Lists.Dedupe(present);
    assert forall s :: s in r <==> s in present;
    r
  }

  /** The options come in the order in which their first prescription appears. */
  lemma SpecializationOptionsOrder(ps: seq<Prescription>)
    ensures var present := PresentSpecializations(ps); var r := SpecializationOptions(ps);
      forall i, j :: 0 <= i < j < |r| ==> Lists.FirstIndex(present, r[i]) < Lists.FirstIndex(present, r[j])
  {
    Lists.DedupeFirstOccurrenceOrder(PresentSpecializations(ps));
  }

  /** Choosing any offered specialization keeps at least the prescriptions
      written by a doctor of it (when the other filters are at their defaults). */
  lemma OfferedSpecializationSelectsSomething(ps: seq<Prescription>, s: String, now: int)
    requires s in SpecializationOptions(ps)
    ensures |Listed(ps, Defaults.(specialization := s), now)| > 0
  {
    var v := Defaults.(specialization := s);
    var i :| 0 <= i < |ps| && SpecializationOf(ps[i]) == Some(s);
    ContainsEmpty(Lower(DoctorName(ps[i])));
    assert PrescriptionMatches(ps[i], v, now);
    ListedMembers(ps, v, now);
    assert ps[i] in Listed(ps, v, now);
  }

  /** `clearFilters`. */
  function ClearFilters(v: View): (r: View)
    ensures !HasActiveFilters(r)
  {
    Defaults
  }

  /** `hasActiveFilters`. */
  predicate HasActiveFilters(v: View)
  {
    v.search != [] || v.specialization != [] || v.status != AllStatuses || v.sortBy != Newest
  }

  /** Something is active exactly when the view differs from the defaults. */
  lemma ActiveIffNotDefaults(v: View)
    ensures HasActiveFilters(v) <==> v != Defaults
  {
  }
}
