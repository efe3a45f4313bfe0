/**
 * The analyst dashboard: the role gate run when it mounts, complaint resolution, the
 * guard of the navigation form and the labeling statistics card.
 */
module AnalystDashboard {
  import opened Wrappers
  import opened JsText
  import opened UiState
  import AccountStore
  import AdminDashboard

  // ----- role gate -----

  datatype Route = LoginPage | HomePage

  /** Where the mount effect sends the visitor, or the user it keeps as `currentUser`. */
  datatype Gate = Redirect(to: Route) | Admit(user: AccountStore.PublicUser)

  /**
   * The mount effect on the `currentUser` entry of local storage (`None` when there is none):
   * no entry goes to the login page, a role other than `'analyst'` goes home, and only an
   * analyst becomes the current user.
   */
  function RoleGate(stored: Option<AccountStore.PublicUser>): (g: Gate)
    ensures g == Redirect(LoginPage) <==> stored.None?
    ensures g == Redirect(HomePage) <==> stored.Some? && stored.value.role != "analyst"
    ensures g.Admit? <==> stored.Some? && stored.value.role == "analyst"
    ensures g.Admit? ==> g.user == stored.value
  {
    match stored
    case None => Redirect(LoginPage)
    case Some(u) => if u.role != "analyst" then Redirect(HomePage) else Admit(u)
  }

  /**
   * After a successful login the stored record is the one the store returned, so the
   * dashboard admits exactly the accounts whose role is `'analyst'`.
   */
  lemma GateAfterLogin(s: AccountStore.Store, email: string, password: string)
    requires AccountStore.Login(s, email, password).Ok?
    ensures RoleGate(Some(AccountStore.Login(s, email, password).value)).Admit?
        <==> AccountStore.Login(s, email, password).value.role == "analyst"
  {
  }

  /** The seeded analyst is admitted with the seeded password; the seeded traveler is sent home. */
  lemma SeedAccountsAtTheGate()
    ensures AccountStore.Login(AccountStore.Seed, "analyst@bdrap.com", "anal321").Ok?
    ensures RoleGate(Some(AccountStore.Login(AccountStore.Seed, "analyst@bdrap.com", "anal321").value)).Admit?
    ensures AccountStore.Login(AccountStore.Seed, "traveler@bdrap.com", "traveller321").Ok?
    ensures RoleGate(Some(AccountStore.Login(AccountStore.Seed, "traveler@bdrap.com", "traveller321").value)) == Redirect(HomePage)
  {
    assert AccountStore.FirstWith(AccountStore.Seed.users, "analyst@bdrap.com", 2);
    assert AccountStore.FirstWith(AccountStore.Seed.users, "traveler@bdrap.com", 0);
  }

  // ----- complaints -----

  datatype ComplaintStatus = Pending | Resolved

  datatype Complaint = Complaint(id: int, roadId: string, roadName: string, remark: string, date: string,
                                 status: ComplaintStatus)

  const InitialComplaints: seq<Complaint> := [
    Complaint(1, "RD-001", "Main Street Segment", "Labels are inaccurate for lane width", "2025-01-10", Pending),
    Complaint(2, "RD-002", "Dhaka Ring Road", "Missing hazard assessment", "2025-01-08", Resolved)
  ]

  /** `handleResolveComplaint(complaintId)`: every complaint with that id becomes resolved. */
  function ResolveComplaint(cs: seq<Complaint>, id: int): (r: seq<Complaint>)
    ensures |r| == |cs|
    ensures forall i | 0 <= i < |cs| && cs[i].id == id :: r[i].status == Resolved && r[i].(status := cs[i].status) == cs[i]
    ensures forall i | 0 <= i < |cs| && cs[i].id != id :: r[i] == cs[i]
  {
    MapWhere(cs, (c: Complaint) => c.id == id, (c: Complaint) => c.(status := Resolved))
  }

  /** Resolving twice is resolving once. */
  lemma ResolveIdempotent(cs: seq<Complaint>, id: int)
    ensures ResolveComplaint(ResolveComplaint(cs, id), id) == ResolveComplaint(cs, id)
  {
    var once := ResolveComplaint(cs, id);
    var twice := ResolveComplaint(once, id);
    forall i | 0 <= i < |cs|
      ensures twice[i] == once[i]
    {
      assert once[i].id == cs[i].id;
    }
  }

  /** Resolving an id that no complaint carries changes nothing. */
  lemma ResolveAbsentIsNoOp(cs: seq<Complaint>, id: int)
    requires forall i | 0 <= i < |cs| :: cs[i].id != id
    ensures ResolveComplaint(cs, id) == cs
  {
  }

  /** Resolutions of two complaints can happen in either order. */
  lemma ResolveCommutes(cs: seq<Complaint>, a: int, b: int)
    ensures ResolveComplaint(ResolveComplaint(cs, a), b) == ResolveComplaint(ResolveComplaint(cs, b), a)
  {
    var ab := ResolveComplaint(ResolveComplaint(cs, a), b);
    var ba := ResolveComplaint(ResolveComplaint(cs, b), a);
    forall i | 0 <= i < |cs|
      ensures ab[i] == ba[i]
    {
      assert ResolveComplaint(cs, a)[i].id == cs[i].id;
      assert ResolveComplaint(cs, b)[i].id == cs[i].id;
    }
  }

  /** The ids of the complaints still waiting. */
  function PendingIds(cs: seq<Complaint>): set<int> {
    set i | 0 <= i < |cs| && cs[i].status == Pending :: cs[i].id
  }

  /** Resolving takes exactly that id off the pending ones and puts nothing back. */
  lemma ResolveRemovesFromPending(cs: seq<Complaint>, id: int)
    ensures PendingIds(ResolveComplaint(cs, id)) == PendingIds(cs) - {id}
  {
    var r := ResolveComplaint(cs, id);
    forall x | x in PendingIds(r)
      ensures x in PendingIds(cs) - {id}
    {
      var i :| 0 <= i < |r| && r[i].status == Pending && r[i].id == x;
      assert cs[i].id == x;
    }
    forall x | x in PendingIds(cs) - {id}
      ensures x in PendingIds(r)
    {
      var i :| 0 <= i < |cs| && cs[i].status == Pending && cs[i].id == x;
      assert r[i] == cs[i];
    }
  }

  // ----- navigation form -----

  datatype Navigation = Navigation(startLocation: string, endLocation: string, realTimeAlerts: bool)

  /** The outcome of a submit: an error message, or the loading flag raised. */
  datatype NavSubmit = ErrorMessage(text: string) | Loading

  const StartMissing := "Please enter start location"
  const DestinationMissing := "Please enter destination"

  /** `handleNavigationSubmit`: the start is checked before the destination, both after trimming. */
  function SubmitNavigation(nav: Navigation): (r: NavSubmit)
    ensures r == ErrorMessage(StartMissing) <==> Blank(nav.startLocation)
    ensures r == ErrorMessage(DestinationMissing) <==> !Blank(nav.startLocation) && Blank(nav.endLocation)
    ensures r == Loading <==> !Blank(nav.startLocation) && !Blank(nav.endLocation)
  {
    if Blank(nav.startLocation) then ErrorMessage(StartMissing)
    else if Blank(nav.endLocation) then ErrorMessage(DestinationMissing)
    else Loading
  }

  /** The analyst's and the administrator's navigation forms accept exactly the same pairs of places. */
  lemma SameGuardAsAdmin(start: string, destination: string, realTimeAlerts: bool)
    ensures SubmitNavigation(Navigation(start, destination, realTimeAlerts)) == Loading
        <==> AdminDashboard.SubmitNavigation(AdminDashboard.Navigation(start, destination)).Done?
  {
  }

  // ----- statistics -----

  datatype LabeledRoad = LabeledRoad(id: int, name: string, date: string)

  /** The three figures of the statistics card. */
  datatype Stats = Stats(totalRoads: nat, pendingReview: nat, completed: nat)

  function Statistics(labeledRoads: seq<LabeledRoad>): (st: Stats)
    ensures st.totalRoads == |labeledRoads| && st.completed == st.totalRoads
    ensures st.pendingReview == 0
  {
    Stats(|labeledRoads|, 0, |labeledRoads|)
  }

  /** The state the dashboard's handlers read and write. */
  datatype Dashboard = Dashboard(labeledRoads: seq<LabeledRoad>, complaints: seq<Complaint>,
                                 loading: bool, message: string)

  const InitialDashboard := Dashboard([], InitialComplaints, false, "")

  datatype Event = Resolve(complaintId: int) | Navigate(nav: Navigation)

  /**
   * One event: a resolution touches only the complaint list; a rejected submit only sets the
   * message, the start being checked first; an accepted submit only raises the loading flag.
   */
  function Handle(d: Dashboard, e: Event): (d': Dashboard)
    ensures d'.labeledRoads == d.labeledRoads
    ensures e.Resolve? ==> d' == d.(complaints := ResolveComplaint(d.complaints, e.complaintId))
    ensures e.Navigate? && Blank(e.nav.startLocation) ==> d' == d.(message := StartMissing)
    ensures e.Navigate? && !Blank(e.nav.startLocation) && Blank(e.nav.endLocation) ==>
              d' == d.(message := DestinationMissing)
    ensures e.Navigate? && !Blank(e.nav.startLocation) && !Blank(e.nav.endLocation) ==>
              d' == d.(loading := true)
  {
    match e
    case Resolve(id) => d.(complaints := ResolveComplaint(d.complaints, id))
    case Navigate(nav) =>
      match SubmitNavigation(nav)
      case ErrorMessage(text) => d.(message := text)
      case Loading => d.(loading := true)
  }

  /** The dashboard after the analyst's events, one at a time. */
  function Run(d: Dashboard, events: seq<Event>): Dashboard
    decreases |events|
  {
    if events == [] then d else Run(Handle(d, events[0]), events[1..])
  }

  /** No handler records a labeled road, so the list keeps its value through any run. */
  lemma {:induction false} RunKeepsLabeledRoads(d: Dashboard, events: seq<Event>)
    ensures Run(d, events).labeledRoads == d.labeledRoads
    decreases |events|
  {
    if events != [] {
      RunKeepsLabeledRoads(Handle(d, events[0]), events[1..]);
    }
  }

  /** Whatever the analyst does, the statistics card shows 0, 0 and 0. */
  lemma StatisticsStayZero(events: seq<Event>)
    ensures Statistics(Run(InitialDashboard, events).labeledRoads) == Stats(0, 0, 0)
  {
    RunKeepsLabeledRoads(InitialDashboard, events);
  }
}
