/** Discovery pages: a deterministic order of the visible names, and a walk over
    continuation cursors that enumerates it exactly once. Scores are abstract numbers. */
module Discovery {
  import opened Wrappers
  import opened Json
  import opened Texts
  import opened Cursor

  // ---------------------------------------------------------------- the order of results

  /** Python's order on strings, by code point. */
  predicate TextAtMost(a: string, b: string) {
    a == [] || (b != [] && (a[0] < b[0] || (a[0] == b[0] && TextAtMost(a[1..], b[1..]))))
  }

  lemma {:induction false} TextTotal(a: string, b: string)
    ensures TextAtMost(a, b) || TextAtMost(b, a)
    ensures TextAtMost(a, b) && TextAtMost(b, a) ==> a == b
  {
    if a != [] && b != [] && a[0] == b[0] {
      TextTotal(a[1..], b[1..]);
      assert a == [a[0]] + a[1..] && b == [b[0]] + b[1..];
    }
  }

  lemma {:induction false} TextTransitive(a: string, b: string, c: string)
    requires TextAtMost(a, b) && TextAtMost(b, c)
    ensures TextAtMost(a, c)
  {
    if a != [] && a[0] == b[0] == c[0] {
      TextTransitive(a[1..], b[1..], c[1..]);
    }
  }

  /** Higher scores first, equal scores by name. */
  predicate NotAfter(score: string -> int, a: string, b: string) {
    score(a) > score(b) || (score(a) == score(b) && TextAtMost(a, b))
  }

  lemma NotAfterTotal(score: string -> int, a: string, b: string)
    ensures NotAfter(score, a, b) || NotAfter(score, b, a)
    ensures NotAfter(score, a, b) && NotAfter(score, b, a) ==> a == b
  {
    TextTotal(a, b);
  }

  lemma NotAfterTransitive(score: string -> int, a: string, b: string, c: string)
    requires NotAfter(score, a, b) && NotAfter(score, b, c)
    ensures NotAfter(score, a, c)
  {
    if score(a) == score(b) == score(c) {
      TextTransitive(a, b, c);
    }
  }

  ghost predicate Ordered(score: string -> int, s: seq<string>) {
    forall i, j | 0 <= i < j < |s| :: NotAfter(score, s[i], s[j])
  }

  function Insert(score: string -> int, x: string, s: seq<string>): seq<string> {
    if s == [] then [x]
    else if NotAfter(score, x, s[0]) then [x] + s
    else [s[0]] + Insert(score, x, s[1..])
  }

  function Sort(score: string -> int, s: seq<string>): seq<string> {
    if s == [] then [] else Insert(score, s[0], Sort(score, s[1..]))
  }

  lemma {:induction false} InsertKeeps(score: string -> int, x: string, s: seq<string>)
    ensures multiset(Insert(score, x, s)) == multiset([x]) + multiset(s)
    ensures Ordered(score, s) ==> Ordered(score, Insert(score, x, s))
  {
    if s == [] {
    } else {
      assert s == [s[0]] + s[1..];
      if NotAfter(score, x, s[0]) {
        if Ordered(score, s) {
          forall j | 0 <= j < |s| ensures NotAfter(score, x, s[j]) {
            if j > 0 {
              NotAfterTransitive(score, x, s[0], s[j]);
            }
          }
        }
      } else {
        InsertKeeps(score, x, s[1..]);
        var r := Insert(score, x, s[1..]);
        if Ordered(score, s) {
          forall j | 0 <= j < |r| ensures NotAfter(score, s[0], r[j]) {
            NotAfterTotal(score, x, s[0]);
            assert r[j] in multiset(r);
            assert r[j] == x || r[j] in s[1..];
          }
        }
      }
    }
  }

  lemma {:induction false} SortKeeps(score: string -> int, s: seq<string>)
    ensures multiset(Sort(score, s)) == multiset(s)
    ensures Ordered(score, Sort(score, s))
  {
    if s != [] {
      SortKeeps(score, s[1..]);
      InsertKeeps(score, s[0], Sort(score, s[1..]));
      assert s == [s[0]] + s[1..];
    }
  }

  /** Ordered sequences of the same names start alike. */
  lemma SameHead(score: string -> int, s: seq<string>, t: seq<string>)
    requires Ordered(score, s) && Ordered(score, t) && multiset(s) == multiset(t) && s != [] && t != []
    ensures s[0] == t[0]
  {
    assert s[0] in multiset(t) && t[0] in multiset(s);
    var i :| 0 <= i < |t| && t[i] == s[0];
    var j :| 0 <= j < |s| && s[j] == t[0];
    NotAfterTotal(score, s[0], t[0]);
  }

  /** Ordered sequences of the same names are the same sequence. */
  lemma {:induction false} OrderedUnique(score: string -> int, s: seq<string>, t: seq<string>)
    requires Ordered(score, s) && Ordered(score, t) && multiset(s) == multiset(t)
    ensures s == t
  {
    assert |multiset(s)| == |s| && |multiset(t)| == |t|;
    if s != [] {
      SameHead(score, s, t);
      assert s == [s[0]] + s[1..] && t == [t[0]] + t[1..];
      assert multiset(s[1..]) == multiset(s) - multiset([s[0]]);
      assert multiset(t[1..]) == multiset(t) - multiset([t[0]]);
      OrderedUnique(score, s[1..], t[1..]);
    }
  }

  function Positive(score: string -> int, s: seq<string>): seq<string> {
    if s == [] then []
    else (if score(s[0]) > 0 then [s[0]] else []) + Positive(score, s[1..])
  }

  /** One request's catalog: its revision, the visible names in any enumeration order, and the
      score of a name for a query. */
  datatype View = View(revision: Text, names: seq<string>, score: (Text, string) -> int)

  /** `_rank` for searches, alphabetical for the catalog. */
  function ResultList(v: View, mode: string, query: Text): seq<string> {
    if mode == "search" then
      var score := (name: string) => v.score(query, name);
      Sort(score, Positive(score, v.names))
    else Sort((name: string) => 0, v.names)
  }

  lemma {:induction false} PositiveCounts(score: string -> int, s: seq<string>, x: string)
    ensures multiset(Positive(score, s))[x] == if score(x) > 0 then multiset(s)[x] else 0
  {
    if s != [] {
      PositiveCounts(score, s[1..], x);
      assert s == [s[0]] + s[1..];
    }
  }

  /** The enumeration order of the set of visible names never shows in the result. */
  lemma ResultIgnoresEnumeration(v: View, names: seq<string>, mode: string, query: Text)
    requires multiset(names) == multiset(v.names)
    ensures ResultList(v, mode, query) == ResultList(v.(names := names), mode, query)
  {
    var w := v.(names := names);
    if mode == "search" {
      var score := (name: string) => v.score(query, name);
      assert multiset(Positive(score, names)) == multiset(Positive(score, v.names)) by {
        forall x ensures multiset(Positive(score, names))[x] == multiset(Positive(score, v.names))[x] {
          PositiveCounts(score, names, x);
          PositiveCounts(score, v.names, x);
        }
      }
      SameSort(score, Positive(score, names), Positive(score, v.names));
    } else {
      SameSort((name: string) => 0, names, v.names);
    }
  }

  lemma SameSort(score: string -> int, s: seq<string>, t: seq<string>)
    requires multiset(s) == multiset(t)
    ensures Sort(score, s) == Sort(score, t)
  {
    SortKeeps(score, s);
    SortKeeps(score, t);
    OrderedUnique(score, Sort(score, s), Sort(score, t));
  }

  // ---------------------------------------------------------------- one page

  const SEARCH_DEFAULT_LIMIT := 5
  const CATALOG_DEFAULT_LIMIT := 25
  const MAX_PAGE_LIMIT := 50

  datatype Page = Page(mode: string, items: seq<string>, total: nat, nextCursor: Option<string>, revision: Text)

  /** `resolve_limit`. */
  function ResolveLimit(mode: string, limit: Option<int>): (r: Result<int>)
    ensures r.Ok? <==> (limit.Some? ==> 1 <= limit.value <= MAX_PAGE_LIMIT)
    ensures r.Ok? ==> 1 <= r.value <= MAX_PAGE_LIMIT && (limit.Some? ==> r.value == limit.value)
  {
    match limit
    case None => Ok(if mode == "search" then SEARCH_DEFAULT_LIMIT else CATALOG_DEFAULT_LIMIT)
    case Some(n) =>
      if 1 <= n <= MAX_PAGE_LIMIT then Ok(n)
      else PaginationError("limit must be an integer from 1 through 50")
  }

  /** The page of an ordered list from an offset, and the cursor for what is behind it. */
  function PageAt(all: seq<string>, revision: Text, mode: string, query: Text, offset: nat, limit: nat,
                  normalize: Text -> Text): Result<Page>
    requires offset <= |all|
  {
    var next := Least(offset + limit, |all|);
    if next == |all| then Ok(Page(mode, all[offset..next], |all|, None, revision))
    else
      match EncodeCursor(CursorState(CURSOR_VERSION, mode, query, next, revision), normalize)
      case PaginationError(m) => PaginationError(m)
      case UnicodeEncodeError => UnicodeEncodeError
      case Ok(cursor) => Ok(Page(mode, all[offset..next], |all|, Some(cursor), revision))
  }

  function Least(a: nat, b: nat): nat {
    if a <= b then a else b
  }

  function Explicit(query: Option<Text>, normalize: Text -> Text): Text {
    normalize(if query.Some? then query.value else [])
  }

  /** `discover`. */
  function Discover(v: View, query: Option<Text>, cursor: Option<string>, limit: Option<int>,
                    normalize: Text -> Text): Result<Page> {
    var explicit := Explicit(query, normalize);
    if |explicit| > MAX_QUERY_LENGTH then PaginationError("query must be at most 200 characters")
    else match cursor
      case None =>
        var mode := if explicit != [] then "search" else "catalog";
        var size := ResolveLimit(mode, limit);
        if size.PaginationError? then PaginationError(size.message)
        else PageAt(ResultList(v, mode, explicit), v.revision, mode, explicit, 0, size.value, normalize)
      case Some(text) =>
        match DecodeCursor(text, normalize)
        case PaginationError(m) => PaginationError(m)
        case UnicodeEncodeError => UnicodeEncodeError
        case Ok(state) =>
          if query.Some? && explicit != state.query then PaginationError("cursor query does not match query")
          else
            var size := ResolveLimit(state.mode, limit);
            if size.PaginationError? then PaginationError(size.message)
            else if state.revision != v.revision then
              PaginationError("catalog changed; restart pagination without a cursor")
            else
              var all := ResultList(v, state.mode, state.query);
              if state.offset >= |all| then PaginationError("cursor offset is outside the result set")
              else PageAt(all, v.revision, state.mode, state.query, state.offset, size.value, normalize)
  }

  // ---------------------------------------------------------------- walking a catalog

  datatype Request = Request(query: Option<Text>, limit: Option<int>)

  predicate ValidLimit(limit: Option<int>) {
    limit.Some? ==> 1 <= limit.value <= MAX_PAGE_LIMIT
  }

  /** A continuation request: `next_cursor` with the same query or none, and any valid limit. */
  ghost predicate Follows(v: View, query: Text, before: Page, r: Request, page: Page,
                          normalize: Text -> Text) {
    && ValidLimit(r.limit)
    && (r.query.Some? ==> Explicit(r.query, normalize) == query)
    && before.nextCursor.Some?
    && Discover(v, r.query, before.nextCursor, r.limit, normalize) == Ok(page)
  }

  /** The walk a client makes: a first request without a cursor, and then continuation requests. */
  datatype Walk =
    | First(request: Request, page: Page)
    | Then(before: Walk, request: Request, page: Page)

  /** Every page of the walk answers its request, all at one catalog revision. */
  ghost predicate IsWalk(v: View, query: Text, w: Walk, normalize: Text -> Text) {
    match w
    case First(r, page) =>
      && ValidLimit(r.limit) && Explicit(r.query, normalize) == query
      && Discover(v, r.query, None, r.limit, normalize) == Ok(page)
    case Then(before, r, page) =>
      IsWalk(v, query, before, normalize) && Follows(v, query, before.page, r, page, normalize)
  }

  /** Everything the walk has read, in order. */
  function Items(w: Walk): seq<string> {
    match w
    case First(_, page) => page.items
    case Then(before, _, page) => Items(before) + page.items
  }

  function PageCount(w: Walk): nat {
    match w
    case First(_, _) => 1
    case Then(before, _, _) => PageCount(before) + 1
  }

  function ModeOf(query: Text): string {
    if query != [] then "search" else "catalog"
  }

  function Results(v: View, query: Text): seq<string> {
    ResultList(v, ModeOf(query), query)
  }

  /** What normalisation and the catalog digest give every request: a normal query within its
      length, a revision of 24 characters without surrogates, and results that can be counted in 100
      digits. */
  ghost predicate Sound(all: seq<string>, revision: Text, query: Text, normalize: Text -> Text) {
    && normalize([]) == []
    && normalize(query) == query && |query| <= MAX_QUERY_LENGTH
    && |revision| == 24 && Scalars(revision)
    && |Decimal(|all|)| <= 100
  }

  function StateAt(revision: Text, query: Text, offset: int): CursorState {
    CursorState(CURSOR_VERSION, ModeOf(query), query, offset, revision)
  }

  /** The cursor that says the first n of the results have been read. */
  function CursorAt(all: seq<string>, revision: Text, query: Text, n: nat,
                    normalize: Text -> Text): Option<string> {
    if n >= |all| then None
    else
      var cursor := EncodeCursor(StateAt(revision, query, n), normalize);
      if cursor.Ok? then Some(cursor.value) else None
  }

  /** A position inside the results has a continuation cursor exactly when the query holds no
      surrogate, and that cursor reads back. */
  lemma ContinuationEncodes(all: seq<string>, revision: Text, query: Text, offset: nat,
                            normalize: Text -> Text)
    requires Sound(all, revision, query, normalize) && 0 < offset < |all|
    ensures CursorAt(all, revision, query, offset, normalize).Some? <==> Scalars(query)
    ensures EncodeCursor(StateAt(revision, query, offset), normalize)
         == if Scalars(query) then Ok(CursorAt(all, revision, query, offset, normalize).value)
            else UnicodeEncodeError
    ensures Scalars(query) ==>
              DecodeCursor(CursorAt(all, revision, query, offset, normalize).value, normalize)
                == Ok(StateAt(revision, query, offset))
  {
    var state := StateAt(revision, query, offset);
    DigitsMonotone(offset, |all|);
    ValidStatesFit(state, normalize);
    if Scalars(query) {
      CursorRoundTrip(state, normalize);
    }
  }

  /** So a page fails only for a query with a surrogate that has more results behind the page; any
      other page holds the next stretch of results and points right behind it. */
  lemma PageMeans(all: seq<string>, revision: Text, query: Text, offset: nat, limit: nat,
                  normalize: Text -> Text)
    requires Sound(all, revision, query, normalize) && limit >= 1 && offset <= |all|
    ensures var next := Least(offset + limit, |all|);
      PageAt(all, revision, ModeOf(query), query, offset, limit, normalize)
        == (if next == |all| || Scalars(query) then
              Ok(Page(ModeOf(query), all[offset..next], |all|,
                      CursorAt(all, revision, query, next, normalize), revision))
            else UnicodeEncodeError)
      && (next == |all| || Scalars(query) ==>
            (CursorAt(all, revision, query, next, normalize).None? <==> next == |all|))
  {
    var next := Least(offset + limit, |all|);
    if next < |all| {
      ContinuationEncodes(all, revision, query, next, normalize);
      assert StateAt(revision, query, next) == CursorState(CURSOR_VERSION, ModeOf(query), query, next, revision);
    } else {
      assert CursorAt(all, revision, query, next, normalize) == None;
    }
  }

  /** The page a first request gets. */
  lemma FirstPage(v: View, r: Request, normalize: Text -> Text) returns (limit: nat)
    requires |Explicit(r.query, normalize)| <= MAX_QUERY_LENGTH && ValidLimit(r.limit)
    ensures limit >= 1 && (r.limit.Some? ==> limit == r.limit.value)
    ensures var query := Explicit(r.query, normalize);
      Discover(v, r.query, None, r.limit, normalize)
        == PageAt(Results(v, query), v.revision, ModeOf(query), query, 0, limit, normalize)
  {
    limit := ResolveLimit(ModeOf(Explicit(r.query, normalize)), r.limit).value;
  }

  /** A first request is answered exactly when its results fit on one page or its query holds no
      surrogate. */
  lemma FirstAnswered(v: View, r: Request, normalize: Text -> Text) returns (limit: nat)
    requires var query := Explicit(r.query, normalize); Sound(Results(v, query), v.revision, query, normalize)
    requires ValidLimit(r.limit)
    ensures r.limit.Some? ==> limit == r.limit.value
    ensures var query := Explicit(r.query, normalize);
      Discover(v, r.query, None, r.limit, normalize).Ok? <==> |Results(v, query)| <= limit || Scalars(query)
  {
    var query := Explicit(r.query, normalize);
    limit := FirstPage(v, r, normalize);
    PageMeans(Results(v, query), v.revision, query, 0, limit, normalize);
  }

  /** What a request has to say to be answered from the state of its cursor. */
  ghost predicate Continues(v: View, query: Option<Text>, state: CursorState, limit: Option<int>,
                            normalize: Text -> Text) {
    && |Explicit(query, normalize)| <= MAX_QUERY_LENGTH
    && (query.Some? ==> Explicit(query, normalize) == state.query)
    && ValidLimit(limit)
    && state.revision == v.revision
    && state.offset < |Results(v, state.query)|
  }

  /** Whatever text comes as a cursor: it is answered only if it decodes, and then to the revision of
      now, to a position inside the results, and to the query that comes with it, if one does. */
  lemma StaleCursorRefused(v: View, query: Option<Text>, text: string, limit: Option<int>,
                           normalize: Text -> Text)
    requires Discover(v, query, Some(text), limit, normalize).Ok?
    ensures var decoded := DecodeCursor(text, normalize);
      decoded.Ok? && decoded.value.revision == v.revision && Continues(v, query, decoded.value, limit, normalize)
  {
    assert DecodeCursor(text, normalize).Ok?;
    DecodedMode(text, normalize);
  }

  lemma DecodedMode(text: string, normalize: Text -> Text)
    requires DecodeCursor(text, normalize).Ok?
    ensures var state := DecodeCursor(text, normalize).value;
      state.mode == ModeOf(state.query) && state.offset > 0
  {}

  /** A request that says so gets the page at the state's offset. */
  lemma StatePage(v: View, query: Option<Text>, text: string, state: CursorState, limit: Option<int>,
                  normalize: Text -> Text) returns (size: nat)
    requires DecodeCursor(text, normalize) == Ok(state) && Continues(v, query, state, limit, normalize)
    ensures size >= 1 && (limit.Some? ==> size == limit.value)
    ensures Discover(v, query, Some(text), limit, normalize)
         == PageAt(Results(v, state.query), v.revision, ModeOf(state.query), state.query, state.offset, size,
                   normalize)
  {
    DecodedMode(text, normalize);
    size := ResolveLimit(state.mode, limit).value;
  }

  /** Whatever text comes as a cursor, it is answered exactly when it decodes to a state of the present
      revision inside the results, query and limit go with it, and the page is the last one or the
      query holds no surrogate. */
  lemma ContinuationAnswered(v: View, query: Option<Text>, text: string, limit: Option<int>,
                             normalize: Text -> Text) returns (size: nat)
    requires DecodeCursor(text, normalize).Ok? ==>
               var state := DecodeCursor(text, normalize).value;
               Sound(Results(v, state.query), v.revision, state.query, normalize)
    ensures limit.Some? && ValidLimit(limit) ==> size == limit.value
    ensures Discover(v, query, Some(text), limit, normalize).Ok? <==>
              var decoded := DecodeCursor(text, normalize);
              && decoded.Ok? && Continues(v, query, decoded.value, limit, normalize)
              && (decoded.value.offset + size >= |Results(v, decoded.value.query)| || Scalars(decoded.value.query))
  {
    var decoded := DecodeCursor(text, normalize);
    if decoded.Ok? && Continues(v, query, decoded.value, limit, normalize) {
      var state := decoded.value;
      size := StatePage(v, query, text, state, limit, normalize);
      DecodedMode(text, normalize);
      PageMeans(Results(v, state.query), v.revision, state.query, state.offset, size, normalize);
    } else {
      size := if limit.Some? && ValidLimit(limit) then limit.value else 1;
      if Discover(v, query, Some(text), limit, normalize).Ok? {
        StaleCursorRefused(v, query, text, limit, normalize);
      }
    }
  }

  /** The page a continuation request gets: the cursor's position decides where it starts. */
  lemma FollowedPage(v: View, query: Text, n: nat, r: Request, normalize: Text -> Text)
    returns (limit: nat)
    requires Sound(Results(v, query), v.revision, query, normalize) && 0 < n < |Results(v, query)|
    requires Scalars(query)
    requires ValidLimit(r.limit) && (r.query.Some? ==> Explicit(r.query, normalize) == query)
    ensures limit >= 1
    ensures Discover(v, r.query, CursorAt(Results(v, query), v.revision, query, n, normalize), r.limit, normalize)
         == PageAt(Results(v, query), v.revision, ModeOf(query), query, n, limit, normalize)
  {
    ContinuationEncodes(Results(v, query), v.revision, query, n, normalize);
    var cursor := CursorAt(Results(v, query), v.revision, query, n, normalize).value;
    limit := StatePage(v, r.query, cursor, StateAt(v.revision, query, n), r.limit, normalize);
  }

  /** Where a walk has got to: its pages hold the first n results, and its cursor says n. */
  ghost predicate ReachedAt(all: seq<string>, revision: Text, query: Text, w: Walk, n: nat,
                            normalize: Text -> Text) {
    && n <= |all|
    && Items(w) == all[..n]
    && PageCount(w) <= (if n == 0 then 1 else n)
    && w.page.nextCursor == CursorAt(all, revision, query, n, normalize)
    && (w.page.nextCursor.None? <==> n == |all|)
    && (n == 0 ==> all == [])
    && (n < |all| ==> Scalars(query))
  }

  /** A first request that was answered has read its own page. */
  lemma FirstReads(v: View, query: Text, r: Request, page: Page, normalize: Text -> Text)
    returns (n: nat)
    requires Sound(Results(v, query), v.revision, query, normalize)
    requires ValidLimit(r.limit) && Explicit(r.query, normalize) == query
    requires Discover(v, r.query, None, r.limit, normalize) == Ok(page)
    ensures ReachedAt(Results(v, query), v.revision, query, First(r, page), n, normalize)
  {
    var all := Results(v, query);
    var limit := FirstPage(v, r, normalize);
    PageMeans(all, v.revision, query, 0, limit, normalize);
    n := Least(limit, |all|);
    assert all[0..n] == all[..n];
  }

  /** A continuation request that was answered has read on. */
  lemma NextReads(v: View, query: Text, w: Walk, n: nat, r: Request, page: Page,
                  normalize: Text -> Text) returns (next: nat)
    requires Sound(Results(v, query), v.revision, query, normalize)
    requires ReachedAt(Results(v, query), v.revision, query, w, n, normalize)
    requires Follows(v, query, w.page, r, page, normalize)
    ensures ReachedAt(Results(v, query), v.revision, query, Then(w, r, page), next, normalize)
    ensures n < next && page.items != []
  {
    var all := Results(v, query);
    var limit := FollowedPage(v, query, n, r, normalize);
    PageMeans(all, v.revision, query, n, limit, normalize);
    next := Least(n + limit, |all|);
    assert all[..n] + all[n..next] == all[..next];
  }

  /** Every walk, of any length, has read a prefix of the ordered results without gap or repeat,
      every continuation page added something, and its cursor is where it stopped. */
  lemma {:induction false} WalkReads(v: View, query: Text, w: Walk, normalize: Text -> Text)
    returns (n: nat)
    requires IsWalk(v, query, w, normalize)
    requires Sound(Results(v, query), v.revision, query, normalize)
    ensures ReachedAt(Results(v, query), v.revision, query, w, n, normalize)
    ensures w.Then? ==> w.page.items != []
    decreases w
  {
    match w
    case First(r, page) =>
      n := FirstReads(v, query, r, page, normalize);
    case Then(before, r, page) =>
      var m := WalkReads(v, query, before, normalize);
      n := NextReads(v, query, before, m, r, page, normalize);
  }

  /** A walk that ends has read the whole ordered result list, in at most max(total, 1) pages. */
  lemma CompleteWalkReadsAll(v: View, query: Text, w: Walk, normalize: Text -> Text)
    requires IsWalk(v, query, w, normalize)
    requires Sound(Results(v, query), v.revision, query, normalize)
    requires w.page.nextCursor.None?
    ensures Items(w) == Results(v, query)
    ensures PageCount(w) <= if Results(v, query) == [] then 1 else |Results(v, query)|
  {
    var n := WalkReads(v, query, w, normalize);
    assert Results(v, query)[..n] == Results(v, query);
  }

  /** A walk that has not ended can always go on: the next request with any valid limit succeeds,
      its page is not empty, and the walk is one page longer. */
  lemma WalkGoesOn(v: View, query: Text, w: Walk, r: Request, normalize: Text -> Text)
    requires IsWalk(v, query, w, normalize)
    requires Sound(Results(v, query), v.revision, query, normalize)
    requires w.page.nextCursor.Some?
    requires ValidLimit(r.limit) && (r.query.Some? ==> Explicit(r.query, normalize) == query)
    ensures var next := Discover(v, r.query, w.page.nextCursor, r.limit, normalize);
      next.Ok? && next.value.items != [] && IsWalk(v, query, Then(w, r, next.value), normalize)
  {
    var n := WalkReads(v, query, w, normalize);
    var limit := FollowedPage(v, query, n, r, normalize);
    PageMeans(Results(v, query), v.revision, query, n, limit, normalize);
  }
}
