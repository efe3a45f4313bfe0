/**
 * The administrator dashboard's handlers: review of labeling submissions, analyst
 * management (add, suspend, lift a suspension), the analyst search by email and the
 * guard of the navigation form. Each handler is a pure function from the state it
 * reads to the state it sets, or to the alert it raises instead.
 */
module AdminDashboard {
  import opened JsText
  import opened UiState

  // ----- labeling submissions -----

  datatype ReviewStatus = Pending | Approved | Rejected

  datatype Submission = Submission(id: int, analystName: string, analystEmail: string, roadName: string,
                                   segmentId: string, submittedDate: string, status: ReviewStatus,
                                   comment: string, reviewComment: string)

  const InitialSubmissions: seq<Submission> := [
    Submission(1, "Ahmed Hassan", "analyst@bdrap.com", "Dhaka-Chittagong Highway", "SEG-001-100m",
               "2025-11-18", Pending, "", ""),
    Submission(2, "Fatima Khan", "analyst2@bdrap.com", "Mirpur Main Road", "SEG-002-100m",
               "2025-11-17", Pending, "", "")
  ]

  const RejectionReasonAlert := "Please provide a rejection reason"

  /** The status a review action leads to: only the exact action `'approve'` approves. */
  function Verdict(action: string): (st: ReviewStatus)
    ensures st == Approved <==> action == "approve"
    ensures st != Pending
  {
    if action == "approve" then Approved else Rejected
  }

  /**
   * `handleReviewSubmit(submissionId, action, comment)`: a rejection needs a comment that is
   * not blank; otherwise every submission with that id gets the verdict and the comment.
   */
  function ReviewSubmit(subs: seq<Submission>, id: int, action: string, comment: string): (r: Handled<seq<Submission>>)
    ensures r.Alerted? <==> action == "reject" && Blank(comment)
    ensures r.Alerted? ==> r.message == RejectionReasonAlert
    ensures r.Done? ==> |r.value| == |subs|
    ensures r.Done? ==> forall i | 0 <= i < |subs| && subs[i].id == id ::
      && r.value[i].status == Verdict(action)
      && r.value[i].reviewComment == comment
      && r.value[i].(status := subs[i].status, reviewComment := subs[i].reviewComment) == subs[i]
    ensures r.Done? ==> forall i | 0 <= i < |subs| && subs[i].id != id :: r.value[i] == subs[i]
  {
    if action == "reject" && Blank(comment) then Alerted(RejectionReasonAlert)
    else Done(MapWhere(subs, (s: Submission) => s.id == id,
                       (s: Submission) => s.(status := Verdict(action), reviewComment := comment)))
  }

  /** Reviewing an id that no submission carries changes nothing. */
  lemma ReviewAbsentIsNoOp(subs: seq<Submission>, id: int, action: string, comment: string)
    requires forall i | 0 <= i < |subs| :: subs[i].id != id
    ensures ReviewSubmit(subs, id, action, comment).Done? ==> ReviewSubmit(subs, id, action, comment).value == subs
  {
  }

  /** A second review of the same submission overrides the first: the last verdict and comment win. */
  lemma ReviewLastWins(subs: seq<Submission>, id: int, a1: string, c1: string, a2: string, c2: string)
    requires ReviewSubmit(subs, id, a1, c1).Done?
    requires ReviewSubmit(subs, id, a2, c2).Done?
    ensures ReviewSubmit(ReviewSubmit(subs, id, a1, c1).value, id, a2, c2) == ReviewSubmit(subs, id, a2, c2)
  {
    var once := ReviewSubmit(subs, id, a1, c1).value;
    var twice := ReviewSubmit(once, id, a2, c2).value;
    var direct := ReviewSubmit(subs, id, a2, c2).value;
    assert |twice| == |direct|;
    forall i | 0 <= i < |subs|
      ensures twice[i] == direct[i]
    {
      assert once[i].id == subs[i].id;
    }
    assert twice == direct;
  }

  /** The approve button passes an empty comment; the reject path refuses a comment of spaces. */
  lemma ReviewButtonsExample()
    ensures ReviewSubmit(InitialSubmissions, 1, "approve", "").Done?
    ensures ReviewSubmit(InitialSubmissions, 1, "approve", "").value[0].status == Approved
    ensures ReviewSubmit(InitialSubmissions, 1, "approve", "").value[1] == InitialSubmissions[1]
    ensures ReviewSubmit(InitialSubmissions, 2, "reject", "  ") == Alerted(RejectionReasonAlert)
  {
    assert AllSpace("  ");
  }

  // ----- analyst management -----

  datatype AnalystStatus = Active | Suspended

  /** An analyst record; the password typed when adding one is not kept. */
  datatype Analyst = Analyst(id: int, firstName: string, lastName: string, email: string,
                             status: AnalystStatus, joiningDate: string, totalLabelings: nat,
                             suspensionReason: string)

  const InitialAnalysts: seq<Analyst> := [
    Analyst(1, "Ahmed", "Hassan", "analyst@bdrap.com", Active, "2025-01-15", 45, ""),
    Analyst(2, "Fatima", "Khan", "analyst2@bdrap.com", Active, "2025-02-20", 32, "")
  ]

  /** The add-analyst form. */
  datatype NewAnalyst = NewAnalyst(firstName: string, lastName: string, email: string, password: string)

  const MissingFieldsAlert := "Please fill in all fields"
  const SuspensionReasonAlert := "Please provide a suspension reason"
  const RemovalReasonAlert := "Please provide a reason for removal"

  /**
   * `handleAddAnalyst`: every field must be non-blank after trimming; the new analyst gets
   * the next id, is active, has no labelings and joins on `today` (the clock's date).
   * The values are stored as typed, untrimmed, and no duplicate email is looked for.
   */
  function AddAnalyst(list: seq<Analyst>, form: NewAnalyst, today: string): (r: Handled<seq<Analyst>>)
    ensures r.Alerted? <==> Blank(form.firstName) || Blank(form.lastName) || Blank(form.email) || Blank(form.password)
    ensures r.Alerted? ==> r.message == MissingFieldsAlert
    ensures r.Done? ==> |r.value| == |list| + 1 && r.value[..|list|] == list
    ensures r.Done? ==>
      var a := r.value[|list|];
      && a.id == |list| + 1
      && a.firstName == form.firstName && a.lastName == form.lastName && a.email == form.email
      && a.status == Active && a.totalLabelings == 0 && a.suspensionReason == ""
      && a.joiningDate == today
  {
    if Blank(form.firstName) || Blank(form.lastName) || Blank(form.email) || Blank(form.password) then
      Alerted(MissingFieldsAlert)
    else
      Done(list + [Analyst(|list| + 1, form.firstName, form.lastName, form.email, Active, today, 0, "")])
  }

  /** `handleSuspendAnalyst`: with a non-blank reason every analyst with that id is suspended for it. */
  function Suspend(list: seq<Analyst>, id: int, reason: string): (r: Handled<seq<Analyst>>)
    ensures r.Alerted? <==> Blank(reason)
    ensures r.Alerted? ==> r.message == SuspensionReasonAlert
    ensures r.Done? ==> |r.value| == |list|
    ensures r.Done? ==> forall i | 0 <= i < |list| && list[i].id == id ::
      && r.value[i].status == Suspended && r.value[i].suspensionReason == reason
      && r.value[i].(status := list[i].status, suspensionReason := list[i].suspensionReason) == list[i]
    ensures r.Done? ==> forall i | 0 <= i < |list| && list[i].id != id :: r.value[i] == list[i]
  {
    if Blank(reason) then Alerted(SuspensionReasonAlert)
    else Done(MapWhere(list, (a: Analyst) => a.id == id,
                       (a: Analyst) => a.(status := Suspended, suspensionReason := reason)))
  }

  /**
   * `handleRemoveSuspension`: with a non-blank reason every analyst with that id is active
   * again and the suspension reason is cleared; the reason given is not stored.
   */
  function RemoveSuspension(list: seq<Analyst>, id: int, reason: string): (r: Handled<seq<Analyst>>)
    ensures r.Alerted? <==> Blank(reason)
    ensures r.Alerted? ==> r.message == RemovalReasonAlert
    ensures r.Done? ==> |r.value| == |list|
    ensures r.Done? ==> forall i | 0 <= i < |list| && list[i].id == id ::
      && r.value[i].status == Active && r.value[i].suspensionReason == ""
      && r.value[i].(status := list[i].status, suspensionReason := list[i].suspensionReason) == list[i]
    ensures r.Done? ==> forall i | 0 <= i < |list| && list[i].id != id :: r.value[i] == list[i]
  {
    if Blank(reason) then Alerted(RemovalReasonAlert)
    else Done(MapWhere(list, (a: Analyst) => a.id == id,
                       (a: Analyst) => a.(status := Active, suspensionReason := "")))
  }

  /** Suspending an active analyst and then lifting the suspension restores the list exactly. */
  lemma SuspendThenRemoveRestores(list: seq<Analyst>, id: int, why: string, whyNot: string)
    requires !Blank(why) && !Blank(whyNot)
    requires forall i | 0 <= i < |list| && list[i].id == id :: list[i].status == Active && list[i].suspensionReason == ""
    ensures Suspend(list, id, why).Done?
    ensures RemoveSuspension(Suspend(list, id, why).value, id, whyNot) == Done(list)
  {
    var s := Suspend(list, id, why).value;
    var back := RemoveSuspension(s, id, whyNot).value;
    assert |back| == |list|;
    forall i | 0 <= i < |list|
      ensures back[i] == list[i]
    {
      assert s[i].id == list[i].id;
      if list[i].id == id {
        assert s[i] == list[i].(status := Suspended, suspensionReason := why);
        assert back[i] == s[i].(status := Active, suspensionReason := "");
      }
    }
    assert back == list;
  }

  /** The ids run 1, 2, 3, ... in list order, as the add handler numbers them. */
  predicate NumberedInOrder(list: seq<Analyst>) {
    forall i | 0 <= i < |list| :: list[i].id == i + 1
  }

  /** With ids numbered in order an id names at most one analyst. */
  lemma NumberedIdsUnique(list: seq<Analyst>, i: int, j: int)
    requires NumberedInOrder(list)
    requires 0 <= i < |list| && 0 <= j < |list| && list[i].id == list[j].id
    ensures i == j
  {
  }

  /** Adding, suspending and lifting a suspension all keep the ids numbered in order. */
  lemma AnalystHandlersKeepNumbering(list: seq<Analyst>, form: NewAnalyst, today: string, id: int, reason: string)
    requires NumberedInOrder(list)
    ensures AddAnalyst(list, form, today).Done? ==> NumberedInOrder(AddAnalyst(list, form, today).value)
    ensures Suspend(list, id, reason).Done? ==> NumberedInOrder(Suspend(list, id, reason).value)
    ensures RemoveSuspension(list, id, reason).Done? ==> NumberedInOrder(RemoveSuspension(list, id, reason).value)
  {
    AddKeepsNumbering(list, form, today);
    SameIdsKeepNumbering(list, Suspend(list, id, reason));
    SameIdsKeepNumbering(list, RemoveSuspension(list, id, reason));
  }

  lemma AddKeepsNumbering(list: seq<Analyst>, form: NewAnalyst, today: string)
    requires NumberedInOrder(list)
    ensures AddAnalyst(list, form, today).Done? ==> NumberedInOrder(AddAnalyst(list, form, today).value)
  {
    var r := AddAnalyst(list, form, today);
    if r.Done? {
      var added := r.value;
      assert added == added[..|list|] + [added[|list|]];
      AppendKeepsNumbering(list, added[|list|]);
    }
  }

  /** Appending the analyst numbered one past the end keeps the numbering. */
  lemma AppendKeepsNumbering(list: seq<Analyst>, a: Analyst)
    requires NumberedInOrder(list) && a.id == |list| + 1
    ensures NumberedInOrder(list + [a])
  {
  }

  /** A list that keeps every id in place keeps the numbering. */
  lemma SameIdsKeepNumbering(list: seq<Analyst>, r: Handled<seq<Analyst>>)
    requires NumberedInOrder(list)
    requires r.Done? ==> |r.value| == |list| && forall i | 0 <= i < |list| :: r.value[i].id == list[i].id
    ensures r.Done? ==> NumberedInOrder(r.value)
  {
  }

  lemma InitialAnalystsNumbered()
    ensures NumberedInOrder(InitialAnalysts)
  {
  }

  /**
   * No duplicate check: an analyst's address can be added a second time, and the
   * newcomer gets an id of its own.
   */
  lemma DuplicateEmailAccepted(list: seq<Analyst>, form: NewAnalyst, today: string, i: int)
    requires NumberedInOrder(list)
    requires 0 <= i < |list| && list[i].email == form.email
    requires !Blank(form.firstName) && !Blank(form.lastName) && !Blank(form.email) && !Blank(form.password)
    ensures var r := AddAnalyst(list, form, today);
      && r.Done? && |r.value| == |list| + 1
      && r.value[i].email == r.value[|list|].email && r.value[i].id != r.value[|list|].id
  {
    var r := AddAnalyst(list, form, today);
    assert r.value[i] == r.value[..|list|][i];
  }

  // ----- analyst search -----

  /** The analyst card is shown when the lower-cased email contains the lower-cased search text. */
  predicate EmailMatches(a: Analyst, query: string) {
    Includes(ToLower(a.email), ToLower(query))
  }

  /** `analystList.filter(analyst => analyst.email.toLowerCase().includes(searchEmail.toLowerCase()))`. */
  function Search(list: seq<Analyst>, query: string): (r: seq<Analyst>)
    ensures |r| <= |list|
    ensures forall i | 0 <= i < |r| :: r[i] in list && EmailMatches(r[i], query)
    ensures forall i | 0 <= i < |list| && EmailMatches(list[i], query) :: list[i] in r
  {
    Filter(list, (a: Analyst) => EmailMatches(a, query))
  }

  /** An empty search box shows the whole list, in order. */
  lemma SearchEmptyShowsAll(list: seq<Analyst>)
    ensures Search(list, "") == list
  {
    forall i | 0 <= i < |list|
      ensures EmailMatches(list[i], "")
    {
      IncludesEmpty(ToLower(list[i].email));
    }
    FilterKeepsAll(list, (a: Analyst) => EmailMatches(a, ""));
  }

  /** Searching a list made of two parts searches each part, so the order of the cards is kept. */
  lemma SearchKeepsOrder(xs: seq<Analyst>, ys: seq<Analyst>, query: string)
    ensures Search(xs + ys, query) == Search(xs, query) + Search(ys, query)
  {
    FilterConcat(xs, ys, (a: Analyst) => EmailMatches(a, query));
  }

  /** The search ignores the case of ASCII letters in the query. */
  lemma SearchIgnoresQueryCase(list: seq<Analyst>, query: string)
    ensures Search(list, query) == Search(list, ToLower(query))
  {
    ToLowerIdempotent(query);
    FilterAgree(list, (a: Analyst) => EmailMatches(a, query), (a: Analyst) => EmailMatches(a, ToLower(query)));
  }

  // ----- navigation form -----

  datatype Navigation = Navigation(startLocation: string, destination: string)

  const NavigationFieldsAlert := "Please fill in all navigation fields"

  /**
   * `handleNavigationSubmit`: both fields must be non-blank after trimming; then the
   * loading flag is raised (`Done(true)`) and the route is computed on a timer.
   */
  function SubmitNavigation(nav: Navigation): (r: Handled<bool>)
    ensures r.Alerted? <==> Blank(nav.startLocation) || Blank(nav.destination)
    ensures r.Alerted? ==> r.message == NavigationFieldsAlert
    ensures r.Done? ==> r.value
  {
    if Blank(nav.startLocation) || Blank(nav.destination) then Alerted(NavigationFieldsAlert)
    else Done(true)
  }

  /** A start made only of spaces and line breaks is refused although it is not empty. */
  lemma WhitespaceStartRefused()
    ensures SubmitNavigation(Navigation(" \n", "Uttara")).Alerted?
  {
    assert AllSpace(" \n");
  }
}
