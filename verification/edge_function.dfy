/** The public announcements endpoint
    (supabase/functions/announcements/index.ts): the CORS preflight, the
    user-id check, the store query (owner and status filter, newest publish
    instant first) and the projection to the public summary. Creating the
    store client and running the query are external: their outcomes are
    inputs. */
module EdgeFunction {
  import opened Common
  import opened Types

  /** A response header. */
  type Header = (string, string)

  /** The request headers a preflight allows. */
  const AllowedHeaders: string := "authorization, x-client-info, apikey, content-type, x-user-id"

  /** The CORS headers every response carries. */
  const CorsHeaders: seq<Header> := [
    ("Access-Control-Allow-Origin", "*"),
    ("Access-Control-Allow-Headers", AllowedHeaders),
    ("Access-Control-Allow-Methods", "GET, POST, OPTIONS")
  ]

  /** The headers of a JSON response. */
  const JsonHeaders: seq<Header> := CorsHeaders + [("Content-Type", "application/json")]

  /** The part of a request the handler reads. */
  datatype Request = Request(httpMethod: string, userIdHeader: Option<string>)

  /** A response body: plain text, an `{error}` object or the summary list. */
  datatype Body = Text(text: string) | ErrorJson(error: string) | ListJson(items: seq<Summary>)

  datatype Response = Response(status: nat, headers: seq<Header>, body: Body)

  /** The outcome of creating the store client. */
  datatype ClientOutcome = ClientThrew(message: string) | ClientReady

  /** The outcome of the query: an error, or the table it ran against. */
  datatype QueryOutcome = QueryError(message: string) | Table(rows: seq<Announcement>)

  const UserIdRequired: string := "User ID required"

  // ---------------------------------------------------------------------
  // The query

  /** `published_at` descending as the store orders it: absent instants
      sort first, as nulls do in a descending order. */
  predicate Precedes(x: Option<int>, y: Option<int>) {
    x.None? || (y.Some? && x.value >= y.value)
  }

  /** Every element precedes every later one. */
  predicate SortedDesc(xs: seq<Announcement>) {
    forall i, j :: 0 <= i < j < |xs| ==> Precedes(xs[i].publishedAt, xs[j].publishedAt)
  }

  /** Insert `x` before the first element it precedes. */
  function Insert(x: Announcement, xs: seq<Announcement>): (r: seq<Announcement>)
    ensures multiset(r) == multiset(xs) + multiset{x}
    ensures |r| == |xs| + 1
  {
    if xs == [] then [x]
    else if Precedes(x.publishedAt, xs[0].publishedAt) then [x] + xs
    else
      assert xs == [xs[0]] + xs[1..];
      [xs[0]] + Insert(x, xs[1..])
  }

  /** Every element after insertion is the inserted one or an old one. */
  lemma InsertMembers(x: Announcement, xs: seq<Announcement>, b: Announcement)
    requires b in Insert(x, xs)
    ensures b == x || b in xs
  {
    assert b in multiset(Insert(x, xs));
  }

  /** `y` precedes every element of `ys`. */
  predicate Bounds(y: Announcement, ys: seq<Announcement>) {
    forall b :: b in ys ==> Precedes(y.publishedAt, b.publishedAt)
  }

  /** The head of a sorted list precedes the rest, and the rest is sorted. */
  lemma SortedSplit(xs: seq<Announcement>)
    requires SortedDesc(xs) && xs != []
    ensures Bounds(xs[0], xs[1..]) && SortedDesc(xs[1..])
  {
    forall b | b in xs[1..] ensures Precedes(xs[0].publishedAt, b.publishedAt) {
      var m :| 0 <= m < |xs[1..]| && xs[1..][m] == b;
      assert xs[m + 1] == b;
    }
  }

  /** A sorted list stays sorted under a head that precedes all of it. */
  lemma SortedCons(y: Announcement, rest: seq<Announcement>)
    requires SortedDesc(rest) && Bounds(y, rest)
    ensures SortedDesc([y] + rest)
  {
    var r := [y] + rest;
    forall i, j | 0 <= i < j < |r| ensures Precedes(r[i].publishedAt, r[j].publishedAt) {
      assert r[j] == rest[j - 1] && rest[j - 1] in rest;
      if i > 0 {
        assert r[i] == rest[i - 1];
      }
    }
  }

  /** An element that `y` precedes keeps `y` a bound when inserted. */
  lemma InsertBounded(y: Announcement, x: Announcement, ys: seq<Announcement>)
    requires Bounds(y, ys) && Precedes(y.publishedAt, x.publishedAt)
    ensures Bounds(y, Insert(x, ys))
  {
    forall b | b in Insert(x, ys) ensures Precedes(y.publishedAt, b.publishedAt) {
      InsertMembers(x, ys, b);
    }
  }

  /** Inserting into a sorted list keeps it sorted. */
  lemma {:induction false} InsertSorted(x: Announcement, xs: seq<Announcement>)
    requires SortedDesc(xs)
    ensures SortedDesc(Insert(x, xs))
    ensures Insert(x, xs) != [] && (Insert(x, xs)[0] == x || (xs != [] && Insert(x, xs)[0] == xs[0]))
    decreases |xs|
  {
    if xs == [] {
    } else if Precedes(x.publishedAt, xs[0].publishedAt) {
      SortedSplit(xs);
      assert xs == [xs[0]] + xs[1..];
      assert Bounds(xs[0], xs[1..]);
      SortedCons(xs[0], xs[1..]);
      forall b | b in xs ensures Precedes(x.publishedAt, b.publishedAt) {
        if b != xs[0] {
          assert b in xs[1..];
        }
      }
      SortedCons(x, xs);
    } else {
      SortedSplit(xs);
      InsertSorted(x, xs[1..]);
      InsertBounded(xs[0], x, xs[1..]);
      SortedCons(xs[0], Insert(x, xs[1..]));
    }
  }

  /** The list in `published_at` descending order; ties keep their order. */
  function SortDesc(xs: seq<Announcement>): (r: seq<Announcement>)
    ensures multiset(r) == multiset(xs)
    ensures |r| == |xs|
    ensures SortedDesc(r)
  {
    if xs == [] then []
    else
      var rest := SortDesc(xs[1..]);
      InsertSorted(xs[0], rest);
      assert xs == [xs[0]] + xs[1..];
      Insert(xs[0], rest)
  }

  /** The rows the query selects: the user's published announcements. */
  predicate Selected(uid: string, a: Announcement) {
    a.userId == uid && a.status == Published
  }

  /** The public fields of a row. */
  function Project(a: Announcement): (s: Summary)
    ensures s.id == a.id && s.title == a.title && s.content == a.content
    ensures s.kind == a.kind && s.priority == a.priority && s.status == a.status
    ensures s.publishedAt == a.publishedAt && s.createdAt == a.createdAt
    ensures s.imageUrl == a.imageUrl && s.linkUrl == a.linkUrl && s.linkText == a.linkText
  {
    Summary(a.id, a.title, a.content, a.kind, a.priority, a.status, a.publishedAt,
            a.createdAt, a.imageUrl, a.linkUrl, a.linkText)
  }

  /** The projection forgets exactly the owner, the time zone, the schedule
      instant and the update instant: rows that differ only there project to
      the same summary. */
  lemma ProjectionDrops(a: Announcement, uid: string, tz: string, sched: Option<int>, upd: int)
    ensures Project(a.(userId := uid, timezone := tz, scheduledAt := sched, updatedAt := upd)) == Project(a)
  {
  }

  /** `announcements.map(...)`. */
  function ProjectAll(xs: seq<Announcement>): (r: seq<Summary>)
    ensures |r| == |xs|
  {
    if xs == [] then [] else [Project(xs[0])] + ProjectAll(xs[1..])
  }

  /** The mapped list projects each element in place. */
  lemma {:induction false} ProjectAllAt(xs: seq<Announcement>)
    ensures forall i :: 0 <= i < |xs| ==> ProjectAll(xs)[i] == Project(xs[i])
    decreases |xs|
  {
    if xs != [] {
      ProjectAllAt(xs[1..]);
    }
  }

  /** Sorting neither adds nor drops an element. */
  lemma SortDescMembers(xs: seq<Announcement>, a: Announcement)
    ensures a in SortDesc(xs) <==> a in xs
  {
    assert a in SortDesc(xs) <==> a in multiset(SortDesc(xs));
    assert a in xs <==> a in multiset(xs);
  }

  /** Every summary comes from some row, and every row's summary is listed. */
  lemma ProjectAllMembers(xs: seq<Announcement>)
    ensures forall s :: s in ProjectAll(xs) ==> exists a :: a in xs && s == Project(a)
    ensures forall a :: a in xs ==> Project(a) in ProjectAll(xs)
  {
    var r := ProjectAll(xs);
    ProjectAllAt(xs);
    forall s | s in r ensures exists a :: a in xs && s == Project(a) {
      var i :| 0 <= i < |r| && r[i] == s;
      assert xs[i] in xs;
    }
    forall a | a in xs ensures Project(a) in r {
      var i :| 0 <= i < |xs| && xs[i] == a;
      assert r[i] == Project(a);
    }
  }

  /** The rows the query returns: the selected rows, each as often as it
      occurs in the table, newest publish instant first. */
  function SelectedRows(uid: string, rows: seq<Announcement>): (r: seq<Announcement>)
    ensures multiset(r) == multiset(Filter(rows, (a: Announcement) => Selected(uid, a)))
    ensures SortedDesc(r)
  {
    SortDesc(Filter(rows, (a: Announcement) => Selected(uid, a)))
  }

  /** The body of a successful query over `rows` for user `uid`: the
      projections of the selected rows, position by position. */
  function QueryResult(uid: string, rows: seq<Announcement>): (items: seq<Summary>)
    ensures |items| == |SelectedRows(uid, rows)|
    ensures forall i :: 0 <= i < |items| ==> items[i] == Project(SelectedRows(uid, rows)[i])
    ensures forall s :: s in items ==> exists a :: a in rows && Selected(uid, a) && s == Project(a)
    ensures forall a :: a in rows && Selected(uid, a) ==> Project(a) in items
    ensures forall i, j :: 0 <= i < j < |items| ==> Precedes(items[i].publishedAt, items[j].publishedAt)
  {
    var kept := Filter(rows, (a: Announcement) => Selected(uid, a));
    var sorted := SelectedRows(uid, rows);
    ProjectAllMembers(sorted);
    ProjectAllAt(sorted);
    forall a ensures a in sorted <==> a in kept {
      SortDescMembers(kept, a);
    }
    ProjectAll(sorted)
  }

  // ---------------------------------------------------------------------
  // The handler

  /** The request handler, given how client creation and the query turn
      out. */
  function Handle(req: Request, client: ClientOutcome, query: QueryOutcome): (resp: Response)
    ensures req.httpMethod == "OPTIONS" ==> resp == Response(200, CorsHeaders, Text("ok"))
    ensures req.httpMethod != "OPTIONS" && client.ClientThrew? ==>
      resp == Response(500, JsonHeaders, ErrorJson(client.message))
    ensures req.httpMethod != "OPTIONS" && client.ClientReady? && !Truthy(req.userIdHeader) ==>
      resp == Response(400, JsonHeaders, ErrorJson(UserIdRequired))
    ensures req.httpMethod != "OPTIONS" && client.ClientReady? && Truthy(req.userIdHeader) && query.Table? ==>
      resp == Response(200, JsonHeaders, ListJson(QueryResult(req.userIdHeader.value, query.rows)))
    ensures req.httpMethod != "OPTIONS" && client.ClientReady? && Truthy(req.userIdHeader) && query.QueryError? ==>
      resp == Response(500, JsonHeaders, ErrorJson(query.message))
    ensures resp.status == 200 && req.httpMethod != "OPTIONS" ==>
      client.ClientReady? && Truthy(req.userIdHeader) && query.Table?
      && resp.body == ListJson(QueryResult(req.userIdHeader.value, query.rows))
    ensures resp.status == 500 <==>
      (req.httpMethod != "OPTIONS" && (client.ClientThrew? || (Truthy(req.userIdHeader) && query.QueryError?)))
  {
    if req.httpMethod == "OPTIONS" then Response(200, CorsHeaders, Text("ok"))
    else
      match client
      case ClientThrew(m) => Response(500, JsonHeaders, ErrorJson(m))
      case ClientReady =>
        if !Truthy(req.userIdHeader) then Response(400, JsonHeaders, ErrorJson(UserIdRequired))
        else
          match query
          case QueryError(m) => Response(500, JsonHeaders, ErrorJson(m))
          case Table(rows) => Response(200, JsonHeaders, ListJson(QueryResult(req.userIdHeader.value, rows)))
  }

  /** The header's value, if the response has it. */
  function HeaderValue(hs: seq<Header>, name: string): Option<string> {
    if hs == [] then None
    else if hs[0].0 == name then Some(hs[0].1)
    else HeaderValue(hs[1..], name)
  }

  /** Every response, whatever the branch, allows every origin and lists
      `x-user-id` among the allowed request headers. */
  lemma EveryResponseIsCors(req: Request, client: ClientOutcome, query: QueryOutcome)
    ensures HeaderValue(Handle(req, client, query).headers, "Access-Control-Allow-Origin") == Some("*")
    ensures HeaderValue(Handle(req, client, query).headers, "Access-Control-Allow-Headers") == Some(AllowedHeaders)
    ensures Contains(AllowedHeaders, "x-user-id")
  {
    ContainsAt(AllowedHeaders, "x-user-id", |AllowedHeaders| - 9);
  }

  /** A user with published announcements gets exactly those, projected and
      newest first, when the store works. */
  lemma ServesOwnPublished(uid: string, rows: seq<Announcement>, a: Announcement)
    requires uid != "" && a in rows && Selected(uid, a)
    ensures Handle(Request("GET", Some(uid)), ClientReady, Table(rows)).status == 200
    ensures Project(a) in Handle(Request("GET", Some(uid)), ClientReady, Table(rows)).body.items
  {
  }

  // ---------------------------------------------------------------------
  // The handler as written

  /** The file calls `createClient` without importing it, so creating the
      client always throws this reference error. */
  const NotDefined: string := "createClient is not defined"

  /** The handler as written: client creation always throws. */
  function HandleAsWritten(req: Request, query: QueryOutcome): Response {
    Handle(req, ClientThrew(NotDefined), query)
  }

  /** As written, every request other than a preflight is answered 500,
      before the user id is even looked at. */
  lemma AsWrittenAlwaysFails(req: Request, query: QueryOutcome)
    requires req.httpMethod != "OPTIONS"
    ensures HandleAsWritten(req, query).status == 500
    ensures HandleAsWritten(req, query).body == ErrorJson(NotDefined)
  {
  }
}
