/** The admin "manage users" screen: the role/name/email filter, the
    click-to-sort table, the page size and the ellipsis pager, and the
    role-gated promote/demote/delete actions. */
module Users {
  import opened Wrappers
  import opened Text
  import Lists
  import Sorting
  import Paging

  /** `createdOn` is the creation time in milliseconds (`getTime()`). */
  datatype User = User(userId: int, fName: String, lName: String, email: String, role: String, createdOn: int)

  datatype Column = ByName | ByEmail | ByRole | ByDate

  /** The screen's filter, sort and paging state. */
  datatype View = View(
    roleFilter: String,
    emailSearch: String,
    nameSearch: String,
    sortBy: Column,
    order: Sorting.Order,
    page: int,
    perPage: nat)

  const PageSizes: seq<nat> := [5, 10, 25, 50]

  const InitialView: View := View("all", "", "", ByName, Sorting.Asc, 1, 10)

  /** A well-formed view: pages count from 1 and the page size is one of the offered ones. */
  predicate ValidView(v: View)
  {
    v.page >= 1 && v.perPage in PageSizes
  }

  /* ---------- filtering ---------- */

  function FullName(u: User): String
  {
    u.fName + " " + u.lName
  }

  predicate UserMatches(u: User, v: View)
  {
    && (v.roleFilter == "all" || u.role == v.roleFilter)
    && ContainsIgnoringCase(u.email, v.emailSearch)
    && ContainsIgnoringCase(FullName(u), v.nameSearch)
  }

  function Matches(v: View): User -> bool
  {
    u => UserMatches(u, v)
  }

  /** The filter half of `filteredAndSortedUsers`. */
  function FilterUsers(users: seq<User>, v: View): (r: seq<User>)
    ensures |r| <= |users|
    ensures forall i :: 0 <= i < |r| ==> UserMatches(r[i], v)
  {
    Lists.Filter(users, Matches(v))
  }

  /** The filter keeps, in order, exactly the users of the chosen role (any
      role for "all") whose email and "first last" contain the searches,
      ignoring case; with the default filters nobody is dropped. */
  lemma FilterUsersSpec(users: seq<User>, v: View)
    ensures Lists.IsSubsequence(FilterUsers(users, v), users)
    ensures forall u :: u in FilterUsers(users, v) <==>
      u in users && (v.roleFilter == "all" || u.role == v.roleFilter) &&
      ContainsIgnoringCase(u.email, v.emailSearch) && ContainsIgnoringCase(FullName(u), v.nameSearch)
    ensures v.roleFilter == "all" && v.emailSearch == [] && v.nameSearch == [] ==> FilterUsers(users, v) == users
  {
    Lists.FilterIsSubsequence(users, Matches(v));
    forall u
      ensures u in FilterUsers(users, v) <==> u in users && UserMatches(u, v)
    {
      Lists.FilterMembers(users, Matches(v), u);
    }
    if v.roleFilter == "all" && v.emailSearch == [] && v.nameSearch == [] {
      forall i | 0 <= i < |users|
        ensures UserMatches(users[i], v)
      {
        ContainsEmpty(Lower(users[i].email));
        ContainsEmpty(Lower(FullName(users[i])));
      }
      Lists.FilterAll(users, Matches(v));
    }
  }

  /* ---------- sorting ---------- */

  /** The value the comparator reads for a column. */
  function SortKey(column: Column, u: User): Sorting.Key
  {
    match column
    case ByName => Sorting.StrKey(Lower(FullName(u)))
    case ByEmail => Sorting.StrKey(Lower(u.email))
    case ByRole => Sorting.StrKey(u.role)
    case ByDate => Sorting.IntKey(u.createdOn)
  }

  function KeyOf(column: Column): User -> Sorting.Key
  {
    u => SortKey(column, u)
  }

  /** The comparator handed to `sort`, step by step as the screen writes it:
      negative when `a` goes first in the chosen direction, 0 exactly when
      the two users have the same key. */
  function UserComparator(column: Column, order: Sorting.Order, a: User, b: User): (c: int)
    ensures c == -1 || c == 0 || c == 1
    ensures c == 0 <==> SortKey(column, a) == SortKey(column, b)
    ensures order == Sorting.Asc ==> (c < 0 <==> Sorting.Less(SortKey(column, a), SortKey(column, b)))
    ensures order == Sorting.Desc ==> (c < 0 <==> Sorting.Less(SortKey(column, b), SortKey(column, a)))
  {
    var x := SortKey(column, a);
    var y := SortKey(column, b);
    Sorting.LessTrichotomy(x, y);
    if Sorting.Less(x, y) then (if order == Sorting.Asc then -1 else 1)
    else if Sorting.Less(y, x) then (if order == Sorting.Asc then 1 else -1)
    else 0
  }

  /** The comparator is -1/0/1, is 0 exactly on equal keys, and the
      descending order is the ascending one negated. */
  lemma UserComparatorSpec(column: Column, order: Sorting.Order, a: User, b: User)
    ensures UserComparator(column, order, a, b) in {-1, 0, 1}
    ensures UserComparator(column, order, a, b) == 0 <==> SortKey(column, a) == SortKey(column, b)
    ensures UserComparator(column, Sorting.Flip(order), a, b) == -UserComparator(column, order, a, b)
    ensures UserComparator(column, order, b, a) == -UserComparator(column, order, a, b)
  {
    Sorting.CompareAntisymmetric(SortKey(column, a), SortKey(column, b), order);
  }

  /** `filteredAndSortedUsers`. */
  function ListedUsers(users: seq<User>, v: View): (r: seq<User>)
    ensures multiset(r) == multiset(FilterUsers(users, v))
  {
    Sorting.SortBy(FilterUsers(users, v), KeyOf(v.sortBy), v.order)
  }

  /** The listed users are the matching ones, reordered by the chosen
      column; users that tie on it keep their fetched order. */
  lemma ListedUsersSpec(users: seq<User>, v: View, k: Sorting.Key)
    ensures |ListedUsers(users, v)| == |FilterUsers(users, v)|
    ensures Sorting.SortedBy(ListedUsers(users, v), KeyOf(v.sortBy), v.order)
    ensures Lists.Filter(ListedUsers(users, v), Sorting.KeyIs(KeyOf(v.sortBy), k)) ==
            Lists.Filter(FilterUsers(users, v), Sorting.KeyIs(KeyOf(v.sortBy), k))
  {
    Sorting.SortBySorted(FilterUsers(users, v), KeyOf(v.sortBy), v.order);
    Sorting.SortByStable(FilterUsers(users, v), KeyOf(v.sortBy), v.order, k);
  }

  /** The screen's comparator agrees with the shared key comparison, so the
      listing is in the order the comparator asks for: no user is listed
      before one the comparator puts strictly ahead of it. */
  lemma ListedFollowsComparator(users: seq<User>, v: View)
    ensures forall a, b :: UserComparator(v.sortBy, v.order, a, b) == Sorting.Compare(SortKey(v.sortBy, a), SortKey(v.sortBy, b), v.order)
    ensures forall i, j :: 0 <= i < j < |ListedUsers(users, v)| ==>
      UserComparator(v.sortBy, v.order, ListedUsers(users, v)[i], ListedUsers(users, v)[j]) <= 0
  {
    var r := ListedUsers(users, v);
    forall a, b
      ensures UserComparator(v.sortBy, v.order, a, b) == Sorting.Compare(SortKey(v.sortBy, a), SortKey(v.sortBy, b), v.order)
    {
      Sorting.LessTrichotomy(SortKey(v.sortBy, a), SortKey(v.sortBy, b));
    }
    Sorting.SortBySorted(FilterUsers(users, v), KeyOf(v.sortBy), v.order);
    forall i, j | 0 <= i < j < |r|
      ensures UserComparator(v.sortBy, v.order, r[i], r[j]) <= 0
    {
      assert Sorting.Precedes(KeyOf(v.sortBy)(r[i]), KeyOf(v.sortBy)(r[j]), v.order);
    }
  }

  /* ---------- paging ---------- */

  function TotalPages(users: seq<User>, v: View): nat
    requires v.perPage > 0
  {
    Paging.TotalPages(|ListedUsers(users, v)|, v.perPage)
  }

  /** `paginatedUsers`. */
  function PageOfUsers(users: seq<User>, v: View): (r: seq<User>)
    requires ValidView(v)
    ensures |r| <= v.perPage
    ensures |r| > 0 ==> Paging.PageStart(v.page, v.perPage) + |r| <= |ListedUsers(users, v)|
    ensures forall k :: 0 <= k < |r| ==> r[k] == ListedUsers(users, v)[Paging.PageStart(v.page, v.perPage) + k]
  {
    Paging.PageRows(ListedUsers(users, v), v.page, v.perPage)
  }

  /** The pager is drawn only when there is more than one page. */
  predicate PagerShown(users: seq<User>, v: View)
    requires v.perPage > 0
  {
    TotalPages(users, v) > 1
  }

  /** The numbered buttons and ellipses between « and ». */
  function PagerButtons(users: seq<User>, v: View): (r: seq<Paging.PagerItem>)
    requires v.perPage > 0
    ensures Paging.Buttons(r) == Paging.ShownPages(TotalPages(users, v), v.page)
  {
    Paging.EllipsisPager(TotalPages(users, v), v.page)
  }

  /** «: disabled on page 1. */
  function PressPrevious(v: View): (r: View)
    ensures v.page == 1 ==> r == v
    ensures v.page != 1 ==> r == v.(page := v.page - 1)
  {
    if v.page == 1 then v else v.(page := v.page - 1)
  }

  /** »: disabled on the last page. */
  function PressNext(v: View, totalPages: int): (r: View)
    ensures v.page == totalPages ==> r == v
    ensures v.page != totalPages ==> r == v.(page := v.page + 1)
  {
    if v.page == totalPages then v else v.(page := v.page + 1)
  }

  /** From a page in range, « and » keep the page in range and change nothing else. */
  lemma PagerStaysInRange(v: View, totalPages: int)
    requires 1 <= v.page <= totalPages
    ensures 1 <= PressPrevious(v).page <= totalPages
    ensures 1 <= PressNext(v, totalPages).page <= totalPages
    ensures PressPrevious(v).(page := v.page) == v && PressNext(v, totalPages).(page := v.page) == v
  {
  }

  /* ---------- controls ---------- */

  /** Clicking a column header: the same column flips the order, another
      column sorts ascending by it; either way back to page 1. */
  function HandleSort(v: View, column: Column): (r: View)
    ensures r.sortBy == column && r.page == 1
    ensures v.sortBy == column ==> r.order == Sorting.Flip(v.order)
    ensures v.sortBy != column ==> r.order == Sorting.Asc
    ensures r.(sortBy := v.sortBy, order := v.order, page := v.page) == v
  {
    if v.sortBy == column then v.(order := Sorting.Flip(v.order), page := 1)
    else v.(sortBy := column, order := Sorting.Asc, page := 1)
  }

  /** Clicking the same header twice restores the order; a new column
      always starts ascending whatever the previous order was. */
  lemma HandleSortTwice(v: View, column: Column)
    ensures HandleSort(HandleSort(v, column), column).order == (if v.sortBy == column then v.order else Sorting.Desc)
    ensures HandleSort(HandleSort(v, column), column).sortBy == column
  {
  }

  function SetRoleFilter(v: View, role: String): View { v.(roleFilter := role, page := 1) }
  function SetNameSearch(v: View, s: String): View { v.(nameSearch := s, page := 1) }
  function SetEmailSearch(v: View, s: String): View { v.(emailSearch := s, page := 1) }
  function SetPageSize(v: View, n: nat): View { v.(perPage := n, page := 1) }

  /** Every filter and page-size control goes back to page 1 and touches
      nothing but its own field. */
  lemma ControlsResetPage(v: View, s: String, n: nat)
    ensures SetRoleFilter(v, s).page == 1 && SetRoleFilter(v, s).(roleFilter := v.roleFilter, page := v.page) == v
    ensures SetNameSearch(v, s).page == 1 && SetNameSearch(v, s).(nameSearch := v.nameSearch, page := v.page) == v
    ensures SetEmailSearch(v, s).page == 1 && SetEmailSearch(v, s).(emailSearch := v.emailSearch, page := v.page) == v
    ensures SetPageSize(v, n).page == 1 && SetPageSize(v, n).(perPage := v.perPage, page := v.page) == v
  {
  }

  /** `clearFilters`. */
  function ClearFilters(v: View): (r: View)
    ensures r.roleFilter == "all" && r.emailSearch == [] && r.nameSearch == [] && r.page == 1
    ensures r.sortBy == v.sortBy && r.order == v.order && r.perPage == v.perPage
  {
    v.(roleFilter := "all", emailSearch := "", nameSearch := "", page := 1)
  }

  /** After clearing, every user is listed again and the sort is kept;
      from the initial view clearing changes nothing. */
  lemma ClearFiltersListsEveryone(users: seq<User>, v: View)
    ensures FilterUsers(users, ClearFilters(v)) == users
    ensures ClearFilters(InitialView) == InitialView
    ensures ClearFilters(ClearFilters(v)) == ClearFilters(v)
  {
    FilterUsersSpec(users, ClearFilters(v));
  }

  /** The initial view sorts by name ascending and shows page 1 of 10 rows. */
  lemma InitialViewDefaults()
    ensures ValidView(InitialView)
    ensures InitialView.sortBy == ByName && InitialView.order == Sorting.Asc
    ensures InitialView.page == 1 && InitialView.perPage == 10
  {
  }

  /* ---------- role-gated actions ---------- */

  datatype Action = Promote | Demote | Delete

  /** The actions the user-details dialog offers for a role. */
  function ActionsFor(role: String): (r: seq<Action>)
    ensures Promote in r <==> role == "patient"
    ensures Demote in r <==> role == "doctor"
    ensures Delete in r <==> role != "admin"
    ensures Lists.NoDuplicates(r)
  {
    (if role == "patient" then [Promote] else []) +
    (if role == "doctor" then [Demote] else []) +
    (if role != "admin" then [Delete] else [])
  }

  /** Admins get no action at all, and no role can be both promoted and demoted. */
  lemma AdminsUntouchable(role: String)
    ensures role == "admin" ==> ActionsFor(role) == []
    ensures !(Promote in ActionsFor(role) && Demote in ActionsFor(role))
    ensures role == "patient" ==> ActionsFor(role) == [Promote, Delete]
    ensures role == "doctor" ==> ActionsFor(role) == [Demote, Delete]
  {
  }

  datatype Request = Request(action: Action, userId: int)

  /** Demoting and deleting ask first; promoting does not. */
  predicate NeedsConfirm(a: Action)
  {
    a != Promote
  }

  /** Pressing an action button for a user, with the answer to the question if one is asked. */
  function PressAction(u: User, a: Action, confirmed: bool): (r: Option<Request>)
    ensures a !in ActionsFor(u.role) ==> r.None?
    ensures a in ActionsFor(u.role) ==> (r.Some? <==> !NeedsConfirm(a) || confirmed)
    ensures r.Some? ==> r.value == Request(a, u.userId)
  {
    if a !in ActionsFor(u.role) || (NeedsConfirm(a) && !confirmed) then None else Some(Request(a, u.userId))
  }
}
