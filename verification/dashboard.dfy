/**
 * The administrator dashboard of `client/src/pages/admin/dashboard.tsx`: the
 * search and status filter over the fetched applications, which decision
 * buttons a row offers, when the decision dialog may be confirmed, and the
 * status request a confirmed decision sends.
 */
module Dashboard {
  import opened Wrappers
  import opened Text
  import opened Schema
  import RequestSchemas

  /** The three decisions of the dialog (`actionType`). */
  datatype Action = Approve | Reject | RequestInfo

  /** The status a decision asks for. */
  function ActionStatus(a: Action): (s: Status)
    ensures s in RequestSchemas.AdminStatuses
    ensures a == Approve <==> s == Approved
    ensures a == Reject <==> s == Rejected
    ensures a == RequestInfo <==> s == NeedInfo
  {
    match a
    case Approve => Approved
    case Reject => Rejected
    case RequestInfo => NeedInfo
  }

  /** Distinct decisions ask for distinct statuses. */
  lemma ActionStatusInjective(a: Action, b: Action)
    ensures ActionStatus(a) == ActionStatus(b) ==> a == b
  {
  }

  /** The `PATCH /api/admin/applications/:id/status` request a decision sends. */
  datatype StatusRequest = StatusRequest(id: string, body: RequestSchemas.AdminStatusBody)

  /**
   * `handleAction`: nothing without a selected application and a decision;
   * otherwise the decision's status and the typed note, verbatim, for the
   * selected application.
   */
  function HandleAction(selected: Option<Application>, action: Option<Action>, note: string): (r: Option<StatusRequest>)
    ensures r.Some? <==> selected.Some? && action.Some?
    ensures r.Some? ==> r.value.id == selected.value.id
    ensures r.Some? ==> r.value.body.status == Some(StatusName(ActionStatus(action.value)))
    ensures r.Some? ==> r.value.body.notes == Some(Some(note))
  {
    match (selected, action)
    case (Some(app), Some(a)) =>
      Some(StatusRequest(app.id, RequestSchemas.AdminStatusBody(Some(StatusName(ActionStatus(a))), Some(Some(note)))))
    case _ => None
  }

  /**
   * Every request the dashboard sends passes the server's status schema,
   * which hands back exactly the decision's status and the note.
   */
  lemma SentDecisionAccepted(selected: Option<Application>, action: Option<Action>, note: string)
    requires selected.Some? && action.Some?
    ensures var r := HandleAction(selected, action, note);
      RequestSchemas.ParseAdminStatus(r.value.body)
        == Some(RequestSchemas.AdminDecision(ActionStatus(action.value), Some(Some(note))))
  {
    var s := ActionStatus(action.value);
    StatusesComplete();
    assert ParseStatus(StatusName(s)) == Some(s);
  }

  /** The decision buttons of a row are drawn for `SUBMITTED` and `UNDER_REVIEW` applications only. */
  predicate ActionsShown(app: Application) {
    app.status == Submitted || app.status == UnderReview
  }

  /** The confirm button is disabled while a request is pending, and for a refusal or information request with a blank note. */
  predicate ConfirmDisabled(pending: bool, action: Option<Action>, note: string) {
    pending || (action != Some(Approve) && Trim(note) == "")
  }

  /**
   * A refusal or an information request can only be confirmed with a note
   * that is not blank; an approval can always be confirmed when nothing is
   * pending.
   */
  lemma ConfirmRule(pending: bool, action: Option<Action>, note: string)
    ensures !ConfirmDisabled(pending, action, note) && action != Some(Approve) ==> !IsBlank(note)
    ensures !pending && action == Some(Approve) ==> !ConfirmDisabled(pending, action, note)
    ensures pending ==> ConfirmDisabled(pending, action, note)
  {
  }

  /** `haystack.toLowerCase().includes(query.toLowerCase())`. */
  predicate IncludesIgnoringCase(haystack: string, query: string) {
    Contains(ToLower(haystack), ToLower(query))
  }

  /**
   * The search box: the empty query matches every row; any other matches
   * when it occurs, ignoring case, in the application number, in
   * "first last", or in the passport number when the row has one.
   */
  predicate MatchesSearch(app: Application, query: string) {
    || query == ""
    || IncludesIgnoringCase(app.applicationNumber, query)
    || IncludesIgnoringCase(app.firstName + " " + app.lastName, query)
    || (Column(app, "passportNumber").Some? && IncludesIgnoringCase(Column(app, "passportNumber").value, query))
  }

  /** The status filter: `all`, or exactly the row's status name. */
  predicate MatchesStatus(app: Application, filter: string) {
    filter == "all" || StatusName(app.status) == filter
  }

  predicate Shown(app: Application, query: string, filter: string) {
    MatchesSearch(app, query) && MatchesStatus(app, filter)
  }

  /**
   * `filteredApps`: the fetched rows that match both the search and the
   * status filter, and every such row.
   */
  function FilterApps(apps: seq<Application>, query: string, filter: string): (r: seq<Application>)
    ensures |r| <= |apps|
    ensures forall k :: 0 <= k < |r| ==> r[k] in apps && Shown(r[k], query, filter)
    ensures forall k :: 0 <= k < |apps| && Shown(apps[k], query, filter) ==> apps[k] in r
    decreases |apps|
  {
    if |apps| == 0 then []
    else
      var rest := FilterApps(apps[1..], query, filter);
      assert forall k :: 1 <= k < |apps| ==> apps[k] == apps[1..][k - 1];
      if Shown(apps[0], query, filter) then [apps[0]] + rest else rest
  }

  /** `xs` is `ys` with some elements left out, the rest in their order. */
  predicate SubsequenceOf<T(==)>(xs: seq<T>, ys: seq<T>)
    decreases |ys|
  {
    if |ys| == 0 then |xs| == 0
    else (|xs| > 0 && xs[0] == ys[0] && SubsequenceOf(xs[1..], ys[1..])) || SubsequenceOf(xs, ys[1..])
  }

  /** Filtering keeps the fetched order: the shown rows are a subsequence of the fetched ones. */
  lemma {:induction false} FilterIsSubsequence(apps: seq<Application>, query: string, filter: string)
    ensures SubsequenceOf(FilterApps(apps, query, filter), apps)
    decreases |apps|
  {
    if |apps| > 0 {
      FilterIsSubsequence(apps[1..], query, filter);
      var r := FilterApps(apps, query, filter);
      var rest := FilterApps(apps[1..], query, filter);
      if Shown(apps[0], query, filter) {
        assert r[0] == apps[0] && r[1..] == rest;
      } else {
        assert r == rest;
      }
    }
  }

  /** With an empty search and the `all` filter, every fetched row is shown, in order. */
  lemma {:induction false} NoFilterShowsAll(apps: seq<Application>)
    ensures FilterApps(apps, "", "all") == apps
    decreases |apps|
  {
    if |apps| > 0 {
      NoFilterShowsAll(apps[1..]);
      assert [apps[0]] + apps[1..] == apps;
    }
  }

  /** Lower-casing forgets an earlier upper-casing. */
  lemma LowerOfUpper(s: string)
    ensures ToLower(ToUpper(s)) == ToLower(s)
  {
    assert forall k :: 0 <= k < |s| ==> LowerChar(UpperChar(s[k])) == LowerChar(s[k]);
  }

  /** The search ignores the case of the query: typing it in capitals shows the same rows. */
  lemma SearchIgnoresCase(apps: seq<Application>, query: string, filter: string)
    ensures FilterApps(apps, ToUpper(query), filter) == FilterApps(apps, query, filter)
  {
    LowerOfUpper(query);
    assert ToUpper(query) == "" <==> query == "";
    assert forall app :: Shown(app, ToUpper(query), filter) == Shown(app, query, filter);
    SameShownSameFilter(apps, ToUpper(query), query, filter);
  }

  lemma {:induction false} SameShownSameFilter(apps: seq<Application>, q1: string, q2: string, filter: string)
    requires forall app :: Shown(app, q1, filter) == Shown(app, q2, filter)
    ensures FilterApps(apps, q1, filter) == FilterApps(apps, q2, filter)
    decreases |apps|
  {
    if |apps| > 0 {
      SameShownSameFilter(apps[1..], q1, q2, filter);
    }
  }
}
