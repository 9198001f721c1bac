/** The movie routes (routes/movies.js): the row normalizer of the bulk upload,
    the filter and pagination of the listing, and the order in which each route
    runs the gate and its handler. The collection is a fixed sequence of
    documents, so `find` has a well-defined order. */
module Movies {

  import opened Wrappers
  import opened JsText
  import opened Auth

  // ---------------------------------------------------------------------------
  // Bulk upload: row normalizer
  // ---------------------------------------------------------------------------

  /** A cell value of a decoded spreadsheet row; `TextList` stands for a value
      that is already an array. An absent key is a missing cell. */
  datatype Cell = Text(s: string) | Number(n: int) | Boolean(b: bool) | TextList(items: seq<string>)

  /** One decoded row: column name to cell. */
  type Row = map<string, Cell>

  const GenresKey: string := "genres"
  const WatchedUsersKey: string := "watchedUsers"

  /** `typeof row[key] === 'string' ? row[key].split(',') : []`. */
  function ListField(row: Row, key: string): (items: seq<string>)
    ensures key in row && row[key].Text? ==>
      |items| >= 1 && Join(items, ',') == row[key].s &&
      forall i :: 0 <= i < |items| ==> ',' !in items[i]
    ensures !(key in row && row[key].Text?) ==> items == []
  {
    if key in row && row[key].Text? then
      SplitJoin(row[key].s, ',');
      Split(row[key].s, ',')
    else []
  }

  /** `{...movie, genres: …, watchedUsers: …}` for one row. */
  function NormalizeRow(row: Row): (out: Row)
    ensures out.Keys == row.Keys + {GenresKey, WatchedUsersKey}
    ensures forall k :: k in row && k != GenresKey && k != WatchedUsersKey ==> out[k] == row[k]
    ensures out[GenresKey] == TextList(ListField(row, GenresKey))
    ensures out[WatchedUsersKey] == TextList(ListField(row, WatchedUsersKey))
  {
    row[GenresKey := TextList(ListField(row, GenresKey))][WatchedUsersKey := TextList(ListField(row, WatchedUsersKey))]
  }

  /** A row in the shape the store is given: both list fields are present and
      list-valued. */
  predicate IsCanonical(row: Row) {
    GenresKey in row && row[GenresKey].TextList? &&
    WatchedUsersKey in row && row[WatchedUsersKey].TextList?
  }

  /** The `.map` over the decoded rows: one canonical output row per input row,
      same order. */
  function NormalizeRows(rows: seq<Row>): (out: seq<Row>)
    ensures |out| == |rows|
    ensures forall i :: 0 <= i < |rows| ==> out[i] == NormalizeRow(rows[i])
    ensures forall i :: 0 <= i < |out| ==> IsCanonical(out[i])
    decreases |rows|
  {
    if rows == [] then [] else [NormalizeRow(rows[0])] + NormalizeRows(rows[1..])
  }

  /** A text `genres` (or `watchedUsers`) becomes exactly its comma-split list:
      the pieces in order, empty pieces kept, nothing trimmed. */
  lemma TextFieldIsSplit(row: Row, key: string, pieces: seq<string>)
    requires key == GenresKey || key == WatchedUsersKey
    requires |pieces| >= 1 && forall i :: 0 <= i < |pieces| ==> ',' !in pieces[i]
    requires key in row && row[key] == Text(Join(pieces, ','))
    ensures NormalizeRow(row)[key] == TextList(pieces)
  {
    JoinSplit(pieces, ',');
  }

  /** A `genres` or `watchedUsers` that is not text (missing, a number, a
      boolean, an array already) becomes the empty list. */
  lemma NonTextFieldIsEmpty(row: Row, key: string)
    requires key == GenresKey || key == WatchedUsersKey
    requires key !in row || !row[key].Text?
    ensures NormalizeRow(row)[key] == TextList([])
  {
  }

  /** Row `{name: "X", genres: "a,b,c", watchedUsers: "u1,u2"}`. */
  lemma NormalizeExample()
    ensures var out := NormalizeRow(ExampleRow());
      out["name"] == Text("X") &&
      out[GenresKey] == TextList(["a", "b", "c"]) &&
      out[WatchedUsersKey] == TextList(["u1", "u2"])
  {
    ExampleGenres();
    ExampleWatchedUsers();
  }

  function ExampleRow(): Row {
    map["name" := Text("X"), GenresKey := Text("a,b,c"), WatchedUsersKey := Text("u1,u2")]
  }

  lemma ExampleGenres()
    ensures NormalizeRow(ExampleRow())[GenresKey] == TextList(["a", "b", "c"])
  {
    JoinThree(["a", "b", "c"]);
    assert ExampleRow()[GenresKey] == Text("a,b,c");
    TextFieldIsSplit(ExampleRow(), GenresKey, ["a", "b", "c"]);
  }

  lemma ExampleWatchedUsers()
    ensures NormalizeRow(ExampleRow())[WatchedUsersKey] == TextList(["u1", "u2"])
  {
    JoinTwo(["u1", "u2"]);
    assert ExampleRow()[WatchedUsersKey] == Text("u1,u2");
    TextFieldIsSplit(ExampleRow(), WatchedUsersKey, ["u1", "u2"]);
  }

  lemma JoinTwo(parts: seq<string>)
    requires |parts| == 2
    ensures Join(parts, ',') == parts[0] + "," + parts[1]
  {
    assert parts[1..][1..] == [];
  }

  lemma JoinThree(parts: seq<string>)
    requires |parts| == 3
    ensures Join(parts, ',') == parts[0] + "," + parts[1] + "," + parts[2]
  {
    JoinTwo(parts[1..]);
  }

  /** Normalizing is not idempotent: an already list-valued `genres` is
      discarded by a second pass. */
  lemma NormalizeNotIdempotent()
    ensures var row := map[GenresKey := Text("a")];
      NormalizeRow(NormalizeRow(row)) != NormalizeRow(row)
  {
    var row := map[GenresKey := Text("a")];
    assert Join(["a"], ',') == "a";
    TextFieldIsSplit(row, GenresKey, ["a"]);
    assert NormalizeRow(NormalizeRow(row))[GenresKey] == TextList([]);
  }

  // ---------------------------------------------------------------------------
  // Listing: filter
  // ---------------------------------------------------------------------------

  /** A stored document, as far as the listing looks at it. */
  datatype Movie = Movie(name: Option<string>, rating: Option<int>, genres: seq<string>, watchedUsers: seq<string>)

  /** The query parameters of `GET /`; `page` and `limit` are the numbers they
      convert to, `None` when omitted. */
  datatype ListQuery = ListQuery(genre: Option<string>, rating: Option<string>, page: Option<int>, limit: Option<int>)

  /** The query object handed to the store: `query.genres` and
      `query.rating.$gte`, each possibly unset. */
  datatype Filter = Filter(genre: Option<string>, minRating: Option<int>)

  /** A query-string value is truthy when it is given and not empty. */
  predicate Supplied(p: Option<string>) {
    p.Some? && p.value != ""
  }

  /** What the listing accepts: a non-empty `rating` is an integer literal,
      `page` is at least 1 and `limit` is not negative. */
  predicate ValidQuery(q: ListQuery) {
    (Supplied(q.rating) ==> IsIntegerLiteral(q.rating.value)) &&
    (q.page.Some? ==> q.page.value >= 1) &&
    (q.limit.Some? ==> q.limit.value >= 0)
  }

  /** A document matches the store query: the genre clause, when set, asks for
      the genre among the document's genres (Mongo equality on an array
      field); the rating clause, when set, asks for a rating at least the
      bound. */
  predicate Matches(f: Filter, m: Movie) {
    (f.genre.Some? ==> f.genre.value in m.genres) &&
    (f.minRating.Some? ==> m.rating.Some? && m.rating.value >= f.minRating.value)
  }

  /** The query object the handler builds from the parameters. */
  function QueryOf(q: ListQuery): (f: Filter)
    requires ValidQuery(q)
  {
    Filter(if Supplied(q.genre) then q.genre else None,
           if Supplied(q.rating) then Some(NumberValue(q.rating.value)) else None)
  }

  /** The listing's selection stated on the parameters themselves: every
      supplied clause holds, and an omitted or empty one imposes nothing. */
  predicate SatisfiesQuery(q: ListQuery, m: Movie)
    requires ValidQuery(q)
  {
    (Supplied(q.genre) ==> q.genre.value in m.genres) &&
    (Supplied(q.rating) ==> m.rating.Some? && m.rating.value >= NumberValue(q.rating.value))
  }

  /** The built query selects exactly the documents that satisfy every
      supplied clause, and a clause is present exactly when its parameter is
      supplied. */
  lemma QueryOfMeaning(q: ListQuery)
    requires ValidQuery(q)
    ensures QueryOf(q).genre.Some? <==> Supplied(q.genre)
    ensures QueryOf(q).minRating.Some? <==> Supplied(q.rating)
    ensures forall m :: Matches(QueryOf(q), m) <==> SatisfiesQuery(q, m)
  {
  }

  /** `const query = {}` followed by the two conditional assignments. */
  method BuildQuery(q: ListQuery) returns (query: Filter)
    requires ValidQuery(q)
    ensures query == QueryOf(q)
    ensures forall m :: Matches(query, m) <==> SatisfiesQuery(q, m)
  {
    query := Filter(None, None);
    if Supplied(q.genre) {
      query := query.(genre := q.genre);
    }
    if Supplied(q.rating) {
      query := query.(minRating := Some(NumberValue(q.rating.value)));
    }
  }

  /** `Movie.find(query)`: the matching documents in store order. */
  function Find(store: seq<Movie>, f: Filter): (found: seq<Movie>)
    ensures |found| <= |store|
    ensures forall m :: m in found ==> m in store && Matches(f, m)
    decreases |store|
  {
    if store == [] then []
    else (if Matches(f, store[0]) then [store[0]] else []) + Find(store[1..], f)
  }

  /** `Movie.countDocuments(query)`. */
  function CountDocuments(store: seq<Movie>, f: Filter): nat
  {
    |Find(store, f)|
  }

  /** `find` keeps store order: it distributes over concatenation. */
  lemma {:induction false} FindConcat(a: seq<Movie>, b: seq<Movie>, f: Filter)
    ensures Find(a + b, f) == Find(a, f) + Find(b, f)
    decreases |a|
  {
    if a == [] {
      assert a + b == b;
    } else {
      assert (a + b)[0] == a[0];
      assert (a + b)[1..] == a[1..] + b;
      FindConcat(a[1..], b, f);
    }
  }

  /** `find` keeps every matching document as often as the store holds it and
      no other document. */
  lemma {:induction false} FindMultiplicity(store: seq<Movie>, f: Filter, m: Movie)
    ensures multiset(Find(store, f))[m] == if Matches(f, m) then multiset(store)[m] else 0
    decreases |store|
  {
    if store != [] {
      FindMultiplicity(store[1..], f, m);
      assert store == [store[0]] + store[1..];
    }
  }

  /** A query with no clause selects the whole collection. */
  lemma {:induction false} FindWithoutClauses(store: seq<Movie>)
    ensures Find(store, Filter(None, None)) == store
    decreases |store|
  {
    if store != [] {
      FindWithoutClauses(store[1..]);
      assert store == [store[0]] + store[1..];
    }
  }

  // ---------------------------------------------------------------------------
  // Listing: pagination and envelope
  // ---------------------------------------------------------------------------

  /** `.skip(skip).limit(limit)` on a cursor; a limit of 0 means no limit. */
  function SkipLimit<T>(s: seq<T>, skip: nat, limit: nat): (page: seq<T>)
    ensures |page| <= |s|
    ensures limit > 0 ==> |page| <= limit
    ensures forall i :: 0 <= i < |page| ==> skip + i < |s| && page[i] == s[skip + i]
    ensures |page| == if skip >= |s| then 0
                      else if limit == 0 || skip + limit > |s| then |s| - skip
                      else limit
  {
    var rest := if skip <= |s| then s[skip..] else [];
    if limit == 0 || limit >= |rest| then rest else rest[..limit]
  }

  /** The concatenation of pages 1 through n of size `limit`. */
  function PagesUpTo<T>(s: seq<T>, limit: nat, n: nat): seq<T>
    decreases n
  {
    if n == 0 then [] else PagesUpTo(s, limit, n - 1) + SkipLimit(s, (n - 1) * limit, limit)
  }

  /** A page of positive size is a slice of the input. */
  lemma SkipLimitSlice<T>(s: seq<T>, skip: nat, limit: nat)
    requires limit > 0
    ensures SkipLimit(s, skip, limit) == s[Min(skip, |s|)..Min(skip + limit, |s|)]
  {
  }

  /** Successive pages tile the selection: pages 1..n together are its first
      n*limit elements, so no document is skipped or shown twice. */
  lemma {:induction false} PagesTile<T>(s: seq<T>, limit: nat, n: nat)
    requires limit > 0
    ensures PagesUpTo(s, limit, n) == s[..Min(n * limit, |s|)]
    decreases n
  {
    if n > 0 {
      var lo: nat := (n - 1) * limit;
      NextOffset(n, limit);
      PagesTile(s, limit, n - 1);
      SkipLimitSlice(s, lo, limit);
      SliceConcat(s, Min(lo, |s|), Min(lo + limit, |s|));
    }
  }

  lemma SliceConcat<T>(s: seq<T>, a: nat, b: nat)
    requires a <= b <= |s|
    ensures s[..a] + s[a..b] == s[..b]
  {
  }

  function Min(x: int, y: int): int {
    if x <= y then x else y
  }

  lemma NextOffset(n: nat, limit: nat)
    requires n > 0
    ensures n * limit == (n - 1) * limit + limit
  {
  }

  /** The response `{ total, page, limit, data }`. */
  datatype Envelope = Envelope(total: nat, page: int, limit: int, data: seq<Movie>)

  const DefaultPage: int := 1
  const DefaultLimit: int := 10

  function PageOf(q: ListQuery): int {
    if q.page.Some? then q.page.value else DefaultPage
  }

  function LimitOf(q: ListQuery): int {
    if q.limit.Some? then q.limit.value else DefaultLimit
  }

  /** `(page - 1) * limit`, the number of matches before the page. */
  function Offset(q: ListQuery): nat
    requires ValidQuery(q)
  {
    (PageOf(q) - 1) * LimitOf(q)
  }

  /** The envelope `GET /` answers with. */
  function ListResponse(store: seq<Movie>, q: ListQuery): (env: Envelope)
    requires ValidQuery(q)
    ensures env.page == PageOf(q) >= 1 && env.limit == LimitOf(q) >= 0
    ensures env.total == |Find(store, QueryOf(q))|
    ensures |env.data| <= env.total
    ensures env.limit > 0 ==> |env.data| <= env.limit
    ensures |env.data| == if Offset(q) >= env.total then 0
                          else if env.limit == 0 then env.total - Offset(q)
                          else Min(env.limit, env.total - Offset(q))
    ensures forall i :: 0 <= i < |env.data| ==>
      Offset(q) + i < env.total && env.data[i] == Find(store, QueryOf(q))[Offset(q) + i]
    ensures forall m :: m in env.data ==> m in store && SatisfiesQuery(q, m)
  {
    var f := QueryOf(q);
    var page := PageOf(q);
    var limit := LimitOf(q);
    QueryOfMeaning(q);
    var data := SkipLimit(Find(store, f), Offset(q), limit);
    assert forall m :: m in data ==> m in Find(store, f);
    Envelope(CountDocuments(store, f), page, limit, data)
  }

  /** The `GET /` handler after the gate: build the query, count, fetch one
      page, answer the envelope. */
  method ListMovies(store: seq<Movie>, q: ListQuery) returns (env: Envelope)
    requires ValidQuery(q)
    ensures env == ListResponse(store, q)
  {
    var query := BuildQuery(q);
    var page := if q.page.Some? then q.page.value else 1;
    var limit := if q.limit.Some? then q.limit.value else 10;
    var total := CountDocuments(store, query);
    var skip: nat := (page - 1) * limit;
    var movies := SkipLimit(Find(store, query), skip, limit);
    env := Envelope(total, page, limit, movies);
  }

  /** Omitted `page` and `limit` give page 1 of size 10. */
  lemma ListDefaults(store: seq<Movie>, q: ListQuery)
    requires ValidQuery(q) && q.page.None? && q.limit.None?
    ensures ListResponse(store, q).page == 1 && ListResponse(store, q).limit == 10
    ensures ListResponse(store, q).data == SkipLimit(Find(store, QueryOf(q)), 0, 10)
  {
  }

  /** `total` counts every matching document and does not depend on the page
      asked for. */
  lemma TotalIgnoresPaging(store: seq<Movie>, q1: ListQuery, q2: ListQuery)
    requires ValidQuery(q1) && ValidQuery(q2)
    requires q1.genre == q2.genre && q1.rating == q2.rating
    ensures ListResponse(store, q1).total == ListResponse(store, q2).total
  {
  }

  /** With `limit=0` the store applies no limit, so the page holds every match
      from the offset on; the envelope then echoes `limit: 0`. */
  lemma ZeroLimitIsUnlimited(store: seq<Movie>, q: ListQuery)
    requires ValidQuery(q) && q.limit == Some(0)
    ensures ListResponse(store, q).data == Find(store, QueryOf(q))
  {
  }

  /** `?genre=Drama&rating=7`: only Drama documents rated at least 7 are
      shown, and `total` counts all of them. */
  lemma DramaAtLeastSeven(store: seq<Movie>, page: Option<int>, limit: Option<int>)
    requires page.Some? ==> page.value >= 1
    requires limit.Some? ==> limit.value >= 0
    ensures var q := ListQuery(Some("Drama"), Some("7"), page, limit);
      ValidQuery(q) &&
      (forall m :: m in ListResponse(store, q).data ==>
         "Drama" in m.genres && m.rating.Some? && m.rating.value >= 7) &&
      ListResponse(store, q).total == |Find(store, Filter(Some("Drama"), Some(7)))|
  {
    var q := ListQuery(Some("Drama"), Some("7"), page, limit);
    assert "7"[..0] == "";
    assert NumberValue("7") == 7;
    assert QueryOf(q) == Filter(Some("Drama"), Some(7));
  }

  // ---------------------------------------------------------------------------
  // Routes: gate, then handler
  // ---------------------------------------------------------------------------

  datatype Route = CreateOne | BulkUpload | List

  /** The roles each route passes to `authorizeRole`, if it uses it. */
  function RouteRoles(r: Route): Option<seq<string>> {
    match r
    case CreateOne => Some(["admin"])
    case BulkUpload => Some(["admin"])
    case List => None
  }

  /** The middleware chain in front of a route's handler. */
  function RouteGate(r: Route, header: Option<string>, verify: Verifier): GateOutcome {
    match RouteRoles(r)
    case None => Authenticate(header, verify)
    case Some(roles) => AuthenticateThenAuthorize(header, verify, roles)
  }

  /** The two upload routes admit exactly verified callers with role
      `admin`; the listing admits every verified caller and never answers
      `Forbidden`. */
  lemma RouteGateAdmits(r: Route, header: Option<string>, verify: Verifier)
    ensures r != List ==>
      (forall c :: RouteGate(r, header, verify) == Allowed(c) <==>
         Authenticate(header, verify) == Allowed(c) && c.role == Some("admin"))
    ensures r == List ==> RouteGate(r, header, verify) == Authenticate(header, verify)
    ensures r == List ==> RouteGate(r, header, verify) != Forbidden
    ensures !Authenticate(header, verify).Allowed? ==>
      RouteGate(r, header, verify) == Authenticate(header, verify)
  {
    AuthenticateCases(header, verify);
    AuthorizeAfterAuthenticate(header, verify, ["admin"]);
  }

  /** What a route answers: a gate status, or what its handler produces. */
  datatype Reply<T> = Denied(status: int) | Handled(value: T)

  function Answer<T>(o: GateOutcome, handled: T): (reply: Reply<T>)
  {
    if o.Allowed? then Handled(handled) else Denied(StatusOf(o).value)
  }

  /** `POST /bulk-upload`: the rows handed to `insertMany`, if the gate lets
      the request through. */
  function BulkUploadReply(header: Option<string>, verify: Verifier, decoded: seq<Row>): (reply: Reply<seq<Row>>)
    ensures reply.Handled? <==> RouteGate(BulkUpload, header, verify).Allowed?
    ensures reply.Handled? ==> reply.value == NormalizeRows(decoded)
    ensures reply.Denied? ==> reply.status in {401, 403}
  {
    Answer(RouteGate(BulkUpload, header, verify), NormalizeRows(decoded))
  }

  /** `GET /`: the envelope, if the token verifies. */
  function ListReply(store: seq<Movie>, header: Option<string>, verify: Verifier, q: ListQuery): (reply: Reply<Envelope>)
    requires ValidQuery(q)
    ensures reply.Handled? <==> Authenticate(header, verify).Allowed?
    ensures reply.Handled? ==> reply.value == ListResponse(store, q)
    ensures reply.Denied? ==> reply.status in {401, 403}
  {
    Answer(RouteGate(List, header, verify), ListResponse(store, q))
  }
}
