/** Where a signed-in user can go: the sidebar's role-dependent link groups
    and the dashboard the login page lands on. */
module Navigation {
  import opened Wrappers
  import opened Text
  import opened Session

  datatype Link = Link(to: String, caption: String)

  const AdminLinks: seq<Link> := [
    Link("/admin/users", "Manage Users"),
    Link("/admin/analytics", "System Analytics"),
    Link("/admin/tickets", "Support Tickets"),
    Link("/admin/config", "System Config"),
    Link("/admin/audit", "Audit Monitor")]

  const DoctorLinks: seq<Link> := [
    Link("/doctor/appointments", "Manage Appointments"),
    Link("/doctor/patients", "Patient Records"),
    Link("/doctor/prescriptions", "Prescriptions"),
    Link("/doctor/schedule", "My Schedule"),
    Link("/doctor/analytics", "Analytics")]

  const PatientLinks: seq<Link> := [
    Link("/user/doctors", "Browse Doctors"),
    Link("/user/appointments", "My Appointments"),
    Link("/user/prescriptions", "Prescriptions"),
    Link("/user/tickets", "Support Tickets"),
    Link("/user/payments", "Payments")]

  /** The route prefix of each role's part of the application. */
  function AreaPrefix(role: String): String
  {
    if role == "admin" then "/admin/"
    else if role == "doctor" then "/doctor/"
    else "/user/"
  }

  /** The sidebar renders three independent role tests, one group each. */
  function SidebarLinks(user: Option<UserRecord>): (r: seq<Link>)
    ensures HasRole(user, "admin") ==> r == AdminLinks
    ensures HasRole(user, "doctor") ==> r == DoctorLinks
    ensures HasRole(user, "patient") ==> r == PatientLinks
    ensures !HasRole(user, "admin") && !HasRole(user, "doctor") && !HasRole(user, "patient") ==> r == []
  {
    (if HasRole(user, "admin") then AdminLinks else [])
    + (if HasRole(user, "doctor") then DoctorLinks else [])
    + (if HasRole(user, "patient") then PatientLinks else [])
  }

  /** Every link of a group lies under one route prefix. */
  predicate InArea(links: seq<Link>, prefix: String)
  {
    forall i :: 0 <= i < |links| ==> StartsWith(links[i].to, prefix)
  }

  lemma AdminLinksInArea()
    ensures InArea(AdminLinks, "/admin/")
  {
    assert StartsWith(AdminLinks[0].to, "/admin/");
    assert StartsWith(AdminLinks[1].to, "/admin/");
    assert StartsWith(AdminLinks[2].to, "/admin/");
    assert StartsWith(AdminLinks[3].to, "/admin/");
    assert StartsWith(AdminLinks[4].to, "/admin/");
  }

  lemma DoctorLinksInArea()
    ensures InArea(DoctorLinks, "/doctor/")
  {
    assert StartsWith(DoctorLinks[0].to, "/doctor/");
    assert StartsWith(DoctorLinks[1].to, "/doctor/");
    assert StartsWith(DoctorLinks[2].to, "/doctor/");
    assert StartsWith(DoctorLinks[3].to, "/doctor/");
    assert StartsWith(DoctorLinks[4].to, "/doctor/");
  }

  lemma PatientLinksInArea()
    ensures InArea(PatientLinks, "/user/")
  {
    assert StartsWith(PatientLinks[0].to, "/user/");
    assert StartsWith(PatientLinks[1].to, "/user/");
    assert StartsWith(PatientLinks[2].to, "/user/");
    assert StartsWith(PatientLinks[3].to, "/user/");
    assert StartsWith(PatientLinks[4].to, "/user/");
  }

  /** At most one group shows, it has five links, and every link stays inside
      the area of the user's role. */
  lemma SidebarStaysInArea(user: Option<UserRecord>, role: String)
    requires HasRole(user, role)
    ensures |SidebarLinks(user)| == 0 || |SidebarLinks(user)| == 5
    ensures |SidebarLinks(user)| == 5 <==> role == "admin" || role == "doctor" || role == "patient"
    ensures forall i :: 0 <= i < |SidebarLinks(user)| ==> StartsWith(SidebarLinks(user)[i].to, AreaPrefix(role))
  {
    if role == "admin" {
      AdminLinksInArea();
    } else if role == "doctor" {
      DoctorLinksInArea();
    } else if role == "patient" {
      PatientLinksInArea();
    }
  }

  /** Signed out, the sidebar is empty. */
  lemma NoUserNoLinks()
    ensures SidebarLinks(None) == []
  {
  }

  /** The dashboard a successful login navigates to. */
  function LandingRoute(user: UserRecord): (r: String)
    ensures Get(user, "role") == Str("admin") ==> r == "/admin/dashboard"
    ensures Get(user, "role") == Str("doctor") ==> r == "/doctor/dashboard"
    ensures Get(user, "role") != Str("admin") && Get(user, "role") != Str("doctor") ==> r == "/user/dashboard"
  {
    if Get(user, "role") == Str("admin") then "/admin/dashboard"
    else if Get(user, "role") == Str("doctor") then "/doctor/dashboard"
    else "/user/dashboard"
  }

  /** The dashboard a user lands on lies in the same area as every sidebar
      link they are offered. Users of any other role land in the patient
      area and are offered no links. */
  lemma LandingAgreesWithSidebar(user: UserRecord, role: String)
    requires Get(user, "role") == Str(role)
    ensures StartsWith(LandingRoute(user), AreaPrefix(role))
    ensures forall i :: 0 <= i < |SidebarLinks(Some(user))| ==>
      StartsWith(SidebarLinks(Some(user))[i].to, AreaPrefix(role))
    ensures role != "admin" && role != "doctor" && role != "patient" ==>
      SidebarLinks(Some(user)) == [] && LandingRoute(user) == "/user/dashboard"
  {
    SidebarStaysInArea(Some(user), role);
  }
}
