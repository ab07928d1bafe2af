/**
 * The collection endpoint for applications: GET lists every stored record,
 * newest first; POST builds a record from the request body, defaulting its
 * status and date, and stores it.
 *
 * The store is an abstract sequence of records. What the database does is
 * passed in: whether it was reachable, and the id it assigned to a new record.
 */
module ApplicationsRoute {
  import opened Wrappers
  import opened Dates
  import opened Records

  /** What the handler sends back: an HTTP status and a JSON payload. */
  datatype Payload =
    | One(app: Application)
    | Many(apps: seq<Application>)
    | Failure(error: string)

  datatype Response = Response(status: nat, payload: Payload)

  /*
   * GET
   */

  /** Every record is at least as recent as every record after it. */
  predicate NewestFirst(apps: seq<Application>)
  {
    forall i, j :: 0 <= i < j < |apps| ==> AtOrAfter(apps[i].dateApplied, apps[j].dateApplied)
  }

  /** A record at least as recent as every record of a newest-first list may lead it. */
  lemma PrependNewest(x: Application, apps: seq<Application>)
    requires NewestFirst(apps)
    requires forall j :: 0 <= j < |apps| ==> AtOrAfter(x.dateApplied, apps[j].dateApplied)
    ensures NewestFirst([x] + apps)
  {
    var r := [x] + apps;
    forall i, j | 0 <= i < j < |r|
      ensures AtOrAfter(r[i].dateApplied, r[j].dateApplied)
    {
      assert r[j] == apps[j - 1];
      if i > 0 {
        assert r[i] == apps[i - 1];
      }
    }
  }

  /** A record at least as recent as `a` and as every record of `apps` dominates any rearrangement of them. */
  lemma Dominates(h: Application, a: Application, apps: seq<Application>, rest: seq<Application>)
    requires AtOrAfter(h.dateApplied, a.dateApplied)
    requires forall j :: 0 <= j < |apps| ==> AtOrAfter(h.dateApplied, apps[j].dateApplied)
    requires multiset(rest) == multiset(apps) + multiset{a}
    ensures forall j :: 0 <= j < |rest| ==> AtOrAfter(h.dateApplied, rest[j].dateApplied)
  {
    forall j | 0 <= j < |rest|
      ensures AtOrAfter(h.dateApplied, rest[j].dateApplied)
    {
      assert rest[j] in multiset(rest);
      if rest[j] != a {
        assert rest[j] in multiset(apps);
        var k :| 0 <= k < |apps| && apps[k] == rest[j];
      }
    }
  }

  /** In a newest-first list, the tail is newest-first and the head is as recent as all of it. */
  lemma HeadLeads(apps: seq<Application>)
    requires NewestFirst(apps) && |apps| > 0
    ensures NewestFirst(apps[1..])
    ensures forall j :: 0 <= j < |apps| - 1 ==> AtOrAfter(apps[0].dateApplied, apps[1..][j].dateApplied)
  {
    assert forall j :: 0 <= j < |apps| - 1 ==> apps[1..][j] == apps[j + 1];
  }

  /** A record at least as recent as the head of a newest-first list is as recent as all of it. */
  lemma LeadsAll(a: Application, apps: seq<Application>)
    requires NewestFirst(apps) && |apps| > 0
    requires AtOrAfter(a.dateApplied, apps[0].dateApplied)
    ensures forall j :: 0 <= j < |apps| ==> AtOrAfter(a.dateApplied, apps[j].dateApplied)
  {
    forall j | 0 <= j < |apps|
      ensures AtOrAfter(a.dateApplied, apps[j].dateApplied)
    {
      AtOrAfterTransitive(a.dateApplied, apps[0].dateApplied, apps[j].dateApplied);
    }
  }

  /** Places `a` into a newest-first list, before the first record not newer than it. */
  function Insert(a: Application, apps: seq<Application>): (r: seq<Application>)
    requires NewestFirst(apps)
    ensures NewestFirst(r)
    ensures multiset(r) == multiset(apps) + multiset{a}
  {
    if |apps| == 0 then [a]
    else if AtOrAfter(a.dateApplied, apps[0].dateApplied) then
      LeadsAll(a, apps);
      PrependNewest(a, apps);
      [a] + apps
    else
      AtOrAfterTotal(a.dateApplied, apps[0].dateApplied);
      HeadLeads(apps);
      var rest := Insert(a, apps[1..]);
      Dominates(apps[0], a, apps[1..], rest);
      PrependNewest(apps[0], rest);
      assert multiset(apps) == multiset{apps[0]} + multiset(apps[1..]) by {
        assert apps == [apps[0]] + apps[1..];
      }
      [apps[0]] + rest
  }

  /** The records ordered by `dateApplied`, most recent first. */
  function SortNewestFirst(apps: seq<Application>): (r: seq<Application>)
    ensures NewestFirst(r)
    ensures multiset(r) == multiset(apps)
  {
    if |apps| == 0 then []
    else
      assert apps == [apps[0]] + apps[1..];
      Insert(apps[0], SortNewestFirst(apps[1..]))
  }

  /**
   * GET: every stored record, most recent `dateApplied` first (records with
   * equal dates may come in any order), or a 500 when the store fails.
   */
  function Get(store: seq<Application>, storeAvailable: bool): (r: Response)
    ensures !storeAvailable ==> r == Response(500, Failure("Failed to fetch applications"))
    ensures storeAvailable ==> r.status == 200 && r.payload.Many?
    ensures storeAvailable ==> multiset(r.payload.apps) == multiset(store)
    ensures storeAvailable ==> NewestFirst(r.payload.apps)
  {
    if storeAvailable then Response(200, Many(SortNewestFirst(store)))
    else Response(500, Failure("Failed to fetch applications"))
  }

  /** An empty store lists as an empty list, never as an error. */
  lemma GetEmpty()
    ensures Get([], true) == Response(200, Many([]))
  {
  }

  /*
   * POST
   */

  /**
   * The parsed JSON request body: the eight fields the handler reads, plus
   * every other field it was sent. An absent or null field is `None`.
   */
  datatype Body = Body(
    company: Option<string>,
    position: Option<string>,
    status: Option<string>,
    dateApplied: Option<Timestamp>,
    jobUrl: Option<string>,
    salary: Option<string>,
    location: Option<string>,
    notes: Option<string>,
    others: map<string, string>)

  /** The `data` object handed to the store's create call. */
  datatype NewApplication = NewApplication(
    company: Option<string>,
    position: Option<string>,
    status: string,
    dateApplied: Timestamp,
    jobUrl: Option<string>,
    salary: Option<string>,
    location: Option<string>,
    notes: Option<string>)

  /** JavaScript falsiness of an optional string: absent, null or empty. */
  predicate Falsy(v: Option<string>)
  {
    v.None? || v.value == ""
  }

  /**
   * The record data built from a request body: `status` falls back to
   * "Applied" and `dateApplied` to the current time; the other six fields
   * are copied as sent, empty strings included.
   */
  function CreateData(body: Body, now: Timestamp): (d: NewApplication)
    ensures Falsy(body.status) ==> d.status == Name(Applied)
    ensures !Falsy(body.status) ==> d.status == body.status.value
    ensures body.dateApplied.Some? ==> d.dateApplied == body.dateApplied.value
    ensures body.dateApplied.None? ==> d.dateApplied == now
    ensures d.company == body.company && d.position == body.position
    ensures d.jobUrl == body.jobUrl && d.salary == body.salary
    ensures d.location == body.location && d.notes == body.notes
  {
    NewApplication(
      body.company,
      body.position,
      if Falsy(body.status) then Name(Applied) else body.status.value,
      body.dateApplied.GetOr(now),
      body.jobUrl,
      body.salary,
      body.location,
      body.notes)
  }

  /** A created record never has an empty status. */
  lemma CreatedStatusNonEmpty(body: Body, now: Timestamp)
    ensures CreateData(body, now).status != ""
  {
  }

  /**
   * The created status is one of the five the UI offers exactly when the
   * body's status was falsy or already one of them: the handler does not
   * validate it.
   */
  lemma CreatedStatusWellFormed(body: Body, now: Timestamp)
    ensures Parse(CreateData(body, now).status).Some?
        <==> Falsy(body.status) || Parse(body.status.value).Some?
  {
  }

  /** Fields outside the eight the handler reads never reach the record. */
  lemma CreateIgnoresOtherFields(body: Body, extra: map<string, string>, now: Timestamp)
    ensures CreateData(body.(others := extra), now) == CreateData(body, now)
  {
  }

  /** The stored row: the data plus the id the store assigned. */
  function Stored(id: string, d: NewApplication): Application
  {
    Application(id, d.company, d.position, d.status, d.dateApplied,
                d.jobUrl, d.salary, d.location, d.notes)
  }

  /** What the store's create call did: stored the row under a fresh id, or failed. */
  datatype StoreOutcome = StoredAs(id: string) | StoreFailed

  /** The store after a request, with the response sent. */
  datatype Handled = Handled(store: seq<Application>, response: Response)

  /**
   * POST: on success the new record is appended to the store and returned
   * with status 201; when the body cannot be parsed or the store fails, the
   * store is unchanged and the response is a 500 with an error message.
   */
  function Post(store: seq<Application>, request: Option<Body>, now: Timestamp, outcome: StoreOutcome)
    : (r: Handled)
    ensures r.response.status == 201 <==> request.Some? && outcome.StoredAs?
    ensures r.response.status != 201 ==>
      r.store == store && r.response == Response(500, Failure("Failed to create application"))
    ensures r.response.status == 201 ==>
      && r.response.payload.One?
      && r.response.payload.app == Stored(outcome.id, CreateData(request.value, now))
      && r.store == store + [r.response.payload.app]
  {
    match request
    case None => Handled(store, Response(500, Failure("Failed to create application")))
    case Some(body) =>
      match outcome
      case StoreFailed => Handled(store, Response(500, Failure("Failed to create application")))
      case StoredAs(id) =>
        var a := Stored(id, CreateData(body, now));
        Handled(store + [a], Response(201, One(a)))
  }

  /** The ids of the stored records. */
  function Ids(store: seq<Application>): set<string>
  {
    set a | a in store :: a.id
  }

  /** A create that gets an id not yet in use keeps ids unique. */
  lemma PostKeepsIdsUnique(store: seq<Application>, request: Option<Body>, now: Timestamp, outcome: StoreOutcome)
    requires UniqueIds(store)
    requires outcome.StoredAs? ==> outcome.id !in Ids(store)
    ensures UniqueIds(Post(store, request, now, outcome).store)
  {
    var s := Post(store, request, now, outcome).store;
    if s != store {
      var a := s[|store|];
      assert s == store + [a];
      forall i, j | 0 <= i < j < |s|
        ensures s[i].id != s[j].id
      {
        if j == |store| {
          assert store[i] in store;
        } else {
          assert seq(|store|, k requires 0 <= k < |store| => store[k].id)[i] == store[i].id;
          assert seq(|store|, k requires 0 <= k < |store| => store[k].id)[j] == store[j].id;
        }
      }
      assert forall i :: 0 <= i < |s| ==> seq(|s|, k requires 0 <= k < |s| => s[k].id)[i] == s[i].id;
    }
  }

  /**
   * A create keeps every stored status among the five the UI offers when the
   * body's status is falsy or one of them.
   */
  lemma PostKeepsStatusesWellFormed(store: seq<Application>, request: Option<Body>, now: Timestamp, outcome: StoreOutcome)
    requires forall i :: 0 <= i < |store| ==> WellFormed(store[i])
    requires request.Some? ==> Falsy(request.value.status) || Parse(request.value.status.value).Some?
    ensures var s := Post(store, request, now, outcome).store;
      forall i :: 0 <= i < |s| ==> WellFormed(s[i])
  {
  }
}
