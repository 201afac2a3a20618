/** Grouping backward lines into records, and paging through them losslessly by offset.

    The header pattern, the filters and the redacted message size are parameters. */
module LogRecords {
  import opened Wrappers
  import opened Json
  import opened LogLines

  /** A header with its continuation lines, or one headerless line at the start of the file. */
  datatype Record = Record(header: Option<Line>, rest: seq<Line>, offset: nat)

  function Reverse<T>(s: seq<T>): (r: seq<T>)
    ensures |r| == |s|
  {
    if s == [] then [] else Reverse(s[1..]) + [s[0]]
  }

  lemma {:induction false} ReverseAppend<T>(a: seq<T>, b: seq<T>)
    ensures Reverse(a + b) == Reverse(b) + Reverse(a)
  {
    if a == [] {
      assert a + b == b;
    } else {
      assert (a + b)[1..] == a[1..] + b;
      ReverseAppend(a[1..], b);
    }
  }

  lemma {:induction false} ReverseTwice<T>(s: seq<T>)
    ensures Reverse(Reverse(s)) == s
  {
    if s != [] {
      ReverseTwice(s[1..]);
      ReverseAppend(Reverse(s[1..]), [s[0]]);
      assert Reverse([s[0]]) == [s[0]];
    }
  }

  lemma {:induction false} ReverseElements<T>(s: seq<T>, x: T)
    ensures x in Reverse(s) <==> x in s
  {
    if s != [] {
      ReverseElements(s[1..], x);
      assert x in s <==> x == s[0] || x in s[1..];
    }
  }

  /** The lines of one record in file order. */
  function RecordLines(r: Record): seq<Line> {
    (if r.header.Some? then [r.header.value] else []) + r.rest
  }

  /** The lines of records given newest first, newest line first. */
  function Flatten(rs: seq<Record>): seq<Line> {
    if rs == [] then [] else Reverse(RecordLines(rs[0])) + Flatten(rs[1..])
  }

  lemma {:induction false} FlattenAppend(a: seq<Record>, b: seq<Record>)
    ensures Flatten(a + b) == Flatten(a) + Flatten(b)
  {
    if a == [] {
      assert a + b == b;
    } else {
      assert (a + b)[1..] == a[1..] + b;
      FlattenAppend(a[1..], b);
    }
  }

  /** A header and then only continuation lines, or a single headerless line at offset 0. */
  predicate WellFormed(r: Record, isHeader: seq<byte> -> bool) {
    && (forall i | 0 <= i < |r.rest| :: !isHeader(r.rest[i].text))
    && (match r.header
        case Some(h) => isHeader(h.text) && r.offset == h.offset
        case None => r.offset == 0 && |r.rest| == 1)
  }

  predicate AllContinuations(ls: seq<Line>, isHeader: seq<byte> -> bool) {
    forall i | 0 <= i < |ls| :: !isHeader(ls[i].text)
  }

  /** Records with a header come first; headerless ones only at the old end. */
  predicate HeadersFirst(rs: seq<Record>) {
    forall i, j | 0 <= i < j < |rs| :: rs[i].header.None? ==> rs[j].header.None?
  }

  /** `_iter_records_backwards` over the lines of one scan. */
  method IterRecordsBackwards(lines: seq<Line>, truncated: bool, isHeader: seq<byte> -> bool)
    returns (records: seq<Record>)
    ensures forall r | r in records :: WellFormed(r, isHeader)
    ensures HeadersFirst(records)
    ensures !truncated ==> Flatten(records) == lines
    ensures truncated ==>
              && (forall r | r in records :: r.header.Some?)
              && Flatten(records) <= lines
              && AllContinuations(lines[|Flatten(records)|..], isHeader)
  {
    var pending;
    records, pending := GroupByHeader(lines, isHeader);
    if pending != [] && !truncated {
      records := SurfaceHeaderless(records, pending, isHeader);
    } else {
      assert lines[|Flatten(records)|..] == pending;
    }
  }

  /** The scanning loop: each header closes a record over the continuations seen before it. */
  method GroupByHeader(lines: seq<Line>, isHeader: seq<byte> -> bool)
    returns (records: seq<Record>, pending: seq<Line>)
    ensures forall r | r in records :: WellFormed(r, isHeader) && r.header.Some?
    ensures AllContinuations(pending, isHeader)
    ensures Flatten(records) + pending == lines
  {
    records, pending := [], [];
    for k := 0 to |lines|
      invariant forall r | r in records :: WellFormed(r, isHeader) && r.header.Some?
      invariant AllContinuations(pending, isHeader)
      invariant Flatten(records) + pending == lines[..k]
    {
      var raw := lines[k];
      assert lines[..k + 1] == lines[..k] + [raw];
      if !isHeader(raw.text) {
        pending := pending + [raw];
      } else {
        var record := Record(Some(raw), Reverse(pending), raw.offset);
        ClosingRecord(records, record, pending, raw, isHeader);
        records := records + [record];
        pending := [];
      }
    }
    assert lines[..|lines|] == lines;
  }

  /** Headerless lines at the very start of the file become message-only records. */
  method SurfaceHeaderless(headed: seq<Record>, pending: seq<Line>, isHeader: seq<byte> -> bool)
    returns (records: seq<Record>)
    requires forall r | r in headed :: WellFormed(r, isHeader) && r.header.Some?
    requires AllContinuations(pending, isHeader)
    ensures forall r | r in records :: WellFormed(r, isHeader)
    ensures HeadersFirst(records)
    ensures Flatten(records) == Flatten(headed) + pending
  {
    records := headed;
    for k := 0 to |pending|
      invariant records == headed + Headerless(pending[..k])
    {
      assert pending[..k + 1] == pending[..k] + [pending[k]];
      records := records + [Record(None, [pending[k]], 0)];
    }
    assert pending[..|pending|] == pending;
    HeaderlessLines(pending);
    FlattenAppend(headed, Headerless(pending));
  }

  function Headerless(ls: seq<Line>): (r: seq<Record>)
    ensures |r| == |ls|
  {
    seq(|ls|, i requires 0 <= i < |ls| => Record(None, [ls[i]], 0))
  }

  lemma {:induction false} HeaderlessLines(ls: seq<Line>)
    ensures Flatten(Headerless(ls)) == ls
  {
    if ls != [] {
      HeaderlessLines(ls[1..]);
      assert Headerless(ls)[1..] == Headerless(ls[1..]);
      assert Reverse([ls[0]]) == [ls[0]];
    }
  }

  lemma ClosingRecord(records: seq<Record>, record: Record, pending: seq<Line>, raw: Line,
                      isHeader: seq<byte> -> bool)
    requires record == Record(Some(raw), Reverse(pending), raw.offset)
    requires isHeader(raw.text) && AllContinuations(pending, isHeader)
    ensures WellFormed(record, isHeader)
    ensures Flatten(records + [record]) == Flatten(records) + pending + [raw]
  {
    FlattenAppend(records, [record]);
    ReverseTwice(pending);
    ReverseAppend([raw], Reverse(pending));
    assert Reverse([raw]) == [raw];
    forall i | 0 <= i < |record.rest| ensures !isHeader(record.rest[i].text) {
      ReverseElements(pending, record.rest[i]);
    }
  }

  // ---------------------------------------------------------------- one page

  /** The filters of one call; `before` is the offset cursor. */
  datatype Query = Query(
    before: Option<nat>,
    inTime: Record -> bool,     // older than the timestamp cursor, if one was given
    expired: Record -> bool,    // outside the `since` window
    matches: Record -> bool,    // level, component and search filters
    size: Record -> nat)        // encoded size of the redacted message

  datatype Entry = Whole(record: Record) | Cut(record: Record, bytes: int)

  datatype Hint = BudgetHint(page: Option<nat>) | MoreHint(page: Option<nat>) | ScanHint(page: Option<nat>)
                | RotationHint | NoHint

  datatype Page = Page(lines: seq<Entry>, oldest: Option<nat>, hasMore: bool,
                       responseTruncated: bool, truncated: bool, hint: Hint)

  predicate InWindow(q: Query, r: Record) {
    (q.before.None? || r.offset < q.before.value) && q.inTime(r)
  }

  /** The records a query can return, newest first. */
  function Selected(q: Query, rs: seq<Record>): seq<Record> {
    if rs == [] then []
    else if !InWindow(q, rs[0]) then Selected(q, rs[1..])
    else if q.expired(rs[0]) then []
    else if q.matches(rs[0]) then [rs[0]] + Selected(q, rs[1..])
    else Selected(q, rs[1..])
  }

  /** How many selected records fit: up to the line limit and the byte budget, but always the
      first one. */
  function Fitting(size: Record -> nat, ms: seq<Record>, k: nat, limit: nat, budget: int): nat
    decreases if k <= |ms| then |ms| - k else 0
  {
    if k < |ms| && k < limit && (k == 0 || size(ms[k]) <= budget)
    then Fitting(size, ms, k + 1, limit, budget - size(ms[k])) else k
  }

  function Entries(size: Record -> nat, ms: seq<Record>, budget: nat): (r: seq<Entry>)
    ensures |r| == |ms|
  {
    seq(|ms|, i requires 0 <= i < |ms| =>
      if i == 0 && size(ms[0]) > budget then Cut(ms[0], budget) else Whole(ms[i]))
  }

  /** `_build_hint`. */
  function BuildHint(oldest: Option<nat>, hasMore: bool, responseTruncated: bool, truncated: bool,
                     reachedStart: bool, hasRotation: bool): Hint {
    if responseTruncated then BudgetHint(oldest)
    else if hasMore then MoreHint(oldest)
    else if truncated then ScanHint(oldest)
    else if reachedStart && hasRotation then RotationHint
    else NoHint
  }

  function ClampLines(lines: int): nat {
    if lines < 1 then 1 else if lines > 2000 then 2000 else lines
  }

  /** Some record in the window ends the scan because it is too old. */
  predicate MeetsExpiry(q: Query, rs: seq<Record>) {
    rs != [] && ((InWindow(q, rs[0]) && q.expired(rs[0])) || MeetsExpiry(q, rs[1..]))
  }

  /** `tail` over the records of one scan: the newest selected records that fit, in file order. */
  method Tail(q: Query, rs: seq<Record>, lines: int, maxBytes: nat,
              scanTruncated: bool, reachedStart: bool, hasRotation: bool) returns (page: Page)
    ensures var ms := Selected(q, rs);
      var n := Fitting(q.size, ms, 0, ClampLines(lines), maxBytes);
      && n <= |ms| && (ms != [] ==> n > 0)
      && page.lines == Reverse(Entries(q.size, ms[..n], maxBytes))
      && page.oldest == (if n == 0 then None else Some(ms[n - 1].offset))
      && (page.hasMore <==> n < |ms|)
      && (page.responseTruncated <==>
            || (ms != [] && q.size(ms[0]) > maxBytes)
            || (n < |ms| && n < ClampLines(lines)))
    ensures page.truncated <==> scanTruncated && !page.hasMore && !MeetsExpiry(q, rs)
    ensures page.hint == BuildHint(page.oldest, page.hasMore, page.responseTruncated,
                                   page.truncated, reachedStart, hasRotation)
  {
    var collected, oldest, hasMore, responseTruncated, drained :=
      CollectTail(q, rs, ClampLines(lines), maxBytes);
    FittingBounds(q.size, Selected(q, rs), 0, ClampLines(lines), maxBytes);
    var truncated := drained && scanTruncated;
    page := Page(Reverse(collected), oldest, hasMore, responseTruncated, truncated,
                 BuildHint(oldest, hasMore, responseTruncated, truncated, reachedStart, hasRotation));
  }

  /** The collecting loop of `tail`. */
  method CollectTail(q: Query, rs: seq<Record>, limit: nat, maxBytes: nat)
    returns (collected: seq<Entry>, oldest: Option<nat>, hasMore: bool, responseTruncated: bool, drained: bool)
    requires limit >= 1
    ensures var ms := Selected(q, rs);
      var n := Fitting(q.size, ms, 0, limit, maxBytes);
      && n <= |ms|
      && collected == Entries(q.size, ms[..n], maxBytes)
      && oldest == (if n == 0 then None else Some(ms[n - 1].offset))
      && (hasMore <==> n < |ms|)
      && (responseTruncated <==>
            (n > 0 && q.size(ms[0]) > maxBytes) || (n < |ms| && n < limit))
    ensures drained <==> !hasMore && !MeetsExpiry(q, rs)
  {
    collected, oldest, hasMore, responseTruncated, drained := [], None, false, false, true;
    var budget: int := maxBytes;
    ghost var ms := Selected(q, rs);
    ghost var n := Fitting(q.size, ms, 0, limit, maxBytes);
    for i := 0 to |rs|
      invariant |collected| <= |ms| && |collected| <= limit
      invariant ms[|collected|..] == Selected(q, rs[i..])
      invariant MeetsExpiry(q, rs) == MeetsExpiry(q, rs[i..])
      invariant collected == Entries(q.size, ms[..|collected|], maxBytes)
      invariant oldest == if collected == [] then None else Some(ms[|collected| - 1].offset)
      invariant n == Fitting(q.size, ms, |collected|, limit, budget)
      invariant !hasMore && drained && (collected == [] ==> budget == maxBytes)
      invariant responseTruncated <==> collected != [] && q.size(ms[0]) > maxBytes
    {
      var record := rs[i];
      assert rs[i..][0] == record && rs[i..][1..] == rs[i + 1..];
      if !InWindow(q, record) {
        continue;
      }
      if q.expired(record) {
        drained := false;
        break;
      }
      if !q.matches(record) {
        continue;
      }
      assert ms[|collected|..][0] == record && ms[|collected|..][1..] == ms[|collected| + 1..];
      if |collected| >= limit {
        hasMore, drained := true, false;
        break;
      }
      if collected != [] && q.size(record) > budget {
        hasMore, responseTruncated, drained := true, true, false;
        break;
      }
      var entry := Whole(record);
      if collected == [] && q.size(record) > budget {
        entry := Cut(record, budget);
        responseTruncated := true;
      }
      EntriesGrow(q.size, ms, |collected|, maxBytes);
      budget := budget - q.size(record);
      collected := collected + [entry];
      oldest := Some(record.offset);
    }
  }

  lemma EntriesGrow(size: Record -> nat, ms: seq<Record>, k: nat, budget: nat)
    requires k < |ms|
    ensures Entries(size, ms[..k + 1], budget)
         == Entries(size, ms[..k], budget)
            + [if k == 0 && size(ms[0]) > budget then Cut(ms[0], budget) else Whole(ms[k])]
  {}

  lemma {:induction false} FittingBounds(size: Record -> nat, ms: seq<Record>, k: nat, limit: nat, budget: int)
    requires k <= |ms| && k <= limit && limit >= 1
    ensures k <= Fitting(size, ms, k, limit, budget) <= |ms|
    ensures Fitting(size, ms, k, limit, budget) <= limit
    ensures k == 0 && ms != [] ==> Fitting(size, ms, k, limit, budget) > 0
    decreases |ms| - k
  {
    if k < |ms| && k < limit && (k == 0 || size(ms[k]) <= budget) {
      FittingBounds(size, ms, k + 1, limit, budget - size(ms[k]));
    }
  }

  // ---------------------------------------------------------------- following the cursors

  /** What one page holds of the selected records, and whether its hint carries a cursor. */
  function PageSize(q: Query, ms: seq<Record>, lines: int, maxBytes: nat): nat {
    Fitting(q.size, ms, 0, ClampLines(lines), maxBytes)
  }

  lemma {:induction false} SelectedInWindow(q: Query, rs: seq<Record>)
    ensures forall i | 0 <= i < |Selected(q, rs)| :: InWindow(q, Selected(q, rs)[i])
  {
    if rs != [] {
      SelectedInWindow(q, rs[1..]);
    }
  }

  function PageLines(q: Query, ms: seq<Record>, n: nat, maxBytes: nat): seq<Entry>
    requires n <= |ms|
  {
    Reverse(Entries(q.size, ms[..n], maxBytes))
  }

  /** The hint of a page with n of the selected records carries an offset cursor. */
  predicate Follows(q: Query, rs: seq<Record>, ms: seq<Record>, n: nat, maxBytes: nat, scanTruncated: bool) {
    n > 0 && n <= |ms|
    && (n < |ms| || q.size(ms[0]) > maxBytes || (scanTruncated && !MeetsExpiry(q, rs)))
  }

  function Cursor(h: Hint): Option<nat> {
    if h.RotationHint? || h.NoHint? then None else h.page
  }

  /** `Follows` is what the hint of a page that meets `Tail`'s contract says. */
  lemma HintCarriesCursor(q: Query, rs: seq<Record>, lines: int, maxBytes: nat, page: Page,
                          scanTruncated: bool, reachedStart: bool, hasRotation: bool)
    requires var ms := Selected(q, rs); var n := PageSize(q, ms, lines, maxBytes);
      && n <= |ms|
      && page.oldest == (if n == 0 then None else Some(ms[n - 1].offset))
      && (page.hasMore <==> n < |ms|) && (ms != [] ==> n > 0)
      && (page.responseTruncated <==>
            (ms != [] && q.size(ms[0]) > maxBytes) || (n < |ms| && n < ClampLines(lines)))
    requires page.truncated <==> scanTruncated && !page.hasMore && !MeetsExpiry(q, rs)
    requires page.hint == BuildHint(page.oldest, page.hasMore, page.responseTruncated,
                                    page.truncated, reachedStart, hasRotation)
    ensures Cursor(page.hint).Some? <==>
              Follows(q, rs, Selected(q, rs), PageSize(q, Selected(q, rs), lines, maxBytes), maxBytes, scanTruncated)
  {}

  /** All pages a client reads by following `offset:` cursors with the same filters, page k
      asked for with limits(k) lines; older pages are put in front of newer ones. */
  function Walk(q: Query, rs: seq<Record>, limits: nat -> int, k: nat, maxBytes: nat,
                scanTruncated: bool): seq<Entry>
    decreases if q.before.None? then 1 else 0, if q.before.Some? then q.before.value else 0
  {
    var ms := Selected(q, rs);
    var n := PageSize(q, ms, limits(k), maxBytes);
    FittingBounds(q.size, ms, 0, ClampLines(limits(k)), maxBytes);
    SelectedInWindow(q, rs);
    if !Follows(q, rs, ms, n, maxBytes, scanTruncated) then PageLines(q, ms, n, maxBytes)
    else
      assert InWindow(q, ms[n - 1]);
      Walk(q.(before := Some(ms[n - 1].offset)), rs, limits, k + 1, maxBytes, scanTruncated)
      + PageLines(q, ms, n, maxBytes)
  }

  function Records(es: seq<Entry>): (r: seq<Record>)
    ensures |r| == |es|
  {
    seq(|es|, i requires 0 <= i < |es| => es[i].record)
  }

  ghost predicate Descending(ms: seq<Record>) {
    forall i, j | 0 <= i < j < |ms| :: ms[i].offset > ms[j].offset
  }

  ghost predicate NothingExpires(q: Query, rs: seq<Record>) {
    forall i | 0 <= i < |rs| :: !q.expired(rs[i])
  }

  function Before(ms: seq<Record>, o: nat): seq<Record> {
    if ms == [] then []
    else (if ms[0].offset < o then [ms[0]] else []) + Before(ms[1..], o)
  }

  /** Moving the cursor back only filters what was selected before. */
  lemma {:induction false} SelectedBefore(q: Query, rs: seq<Record>, o: nat)
    requires NothingExpires(q, rs) && (q.before.Some? ==> o <= q.before.value)
    ensures Selected(q.(before := Some(o)), rs) == Before(Selected(q, rs), o)
  {
    if rs != [] {
      SelectedBefore(q, rs[1..], o);
      var later := Selected(q, rs[1..]);
      if InWindow(q, rs[0]) && q.matches(rs[0]) {
        assert ([rs[0]] + later)[1..] == later;
      }
    }
  }

  lemma {:induction false} BeforeNothing(ms: seq<Record>, o: nat)
    requires forall i | 0 <= i < |ms| :: ms[i].offset < o
    ensures Before(ms, o) == ms
  {
    if ms != [] {
      BeforeNothing(ms[1..], o);
    }
  }

  lemma {:induction false} BeforeCursor(ms: seq<Record>, n: nat)
    requires Descending(ms) && 1 <= n <= |ms|
    ensures Before(ms, ms[n - 1].offset) == ms[n..]
    decreases n
  {
    var o := ms[n - 1].offset;
    if n == 1 {
      BeforeNothing(ms[1..], o);
    } else {
      BeforeCursor(ms[1..], n - 1);
      assert ms[0].offset > o;
      assert ms[1..][n - 1..] == ms[n..];
    }
  }

  lemma EntriesRecords(size: Record -> nat, ms: seq<Record>, budget: nat)
    ensures Records(Reverse(Entries(size, ms, budget))) == Reverse(ms)
  {
    assert Records(Entries(size, ms, budget)) == ms;
    RecordsReverse(Entries(size, ms, budget));
  }

  lemma {:induction false} RecordsReverse(es: seq<Entry>)
    ensures Records(Reverse(es)) == Reverse(Records(es))
  {
    if es != [] {
      RecordsReverse(es[1..]);
      assert Records(es)[1..] == Records(es[1..]);
      assert Records(Reverse(es[1..]) + [es[0]]) == Records(Reverse(es[1..])) + [es[0].record];
    }
  }

  lemma PageRecords(q: Query, ms: seq<Record>, n: nat, maxBytes: nat)
    requires n <= |ms|
    ensures Records(PageLines(q, ms, n, maxBytes)) == Reverse(ms[..n])
  {
    EntriesRecords(q.size, ms[..n], maxBytes);
  }

  lemma RecordsAppend(a: seq<Entry>, b: seq<Entry>)
    ensures Records(a + b) == Records(a) + Records(b)
  {}

  /** Older pages in front of a page that holds the newest n selected records. */
  lemma JoinPages(older: seq<Entry>, lines: seq<Entry>, ms: seq<Record>, n: nat)
    requires n <= |ms| && Records(older) == Reverse(ms[n..]) && Records(lines) == Reverse(ms[..n])
    ensures Records(older + lines) == Reverse(ms)
  {
    RecordsAppend(older, lines);
    ReverseAppend(ms[..n], ms[n..]);
    assert ms == ms[..n] + ms[n..];
  }

  /** A cursor behind the newest n selected records selects just the others. */
  lemma CursorMoves(q: Query, rs: seq<Record>, n: nat)
    requires NothingExpires(q, rs) && Descending(Selected(q, rs)) && 1 <= n <= |Selected(q, rs)|
    ensures var ms := Selected(q, rs);
      var next := q.(before := Some(ms[n - 1].offset));
      && Selected(next, rs) == ms[n..] && NothingExpires(next, rs) && Descending(ms[n..])
      && InWindow(q, ms[n - 1])
  {
    var ms := Selected(q, rs);
    SelectedInWindow(q, rs);
    assert InWindow(q, ms[n - 1]);
    SelectedBefore(q, rs, ms[n - 1].offset);
    BeforeCursor(ms, n);
  }

  /** When selected offsets strictly descend, following the cursors returns every selected
      record exactly once, in file order, whatever the line limits; oversized ones are cut. */
  lemma {:induction false} WalkReturnsAll(q: Query, rs: seq<Record>, limits: nat -> int, k: nat,
                                          maxBytes: nat, scanTruncated: bool)
    requires NothingExpires(q, rs) && Descending(Selected(q, rs))
    ensures Records(Walk(q, rs, limits, k, maxBytes, scanTruncated)) == Reverse(Selected(q, rs))
    decreases if q.before.None? then 1 else 0, if q.before.Some? then q.before.value else 0
  {
    var ms := Selected(q, rs);
    var n := PageSize(q, ms, limits(k), maxBytes);
    FittingBounds(q.size, ms, 0, ClampLines(limits(k)), maxBytes);
    PageRecords(q, ms, n, maxBytes);
    if !Follows(q, rs, ms, n, maxBytes, scanTruncated) {
      assert ms[..n] == ms;
    } else {
      var next := q.(before := Some(ms[n - 1].offset));
      CursorMoves(q, rs, n);
      WalkReturnsAll(next, rs, limits, k + 1, maxBytes, scanTruncated);
      JoinPages(Walk(next, rs, limits, k + 1, maxBytes, scanTruncated), PageLines(q, ms, n, maxBytes), ms, n);
    }
  }

  // ---------------------------------------------------------------- exactly when it is lossless

  ghost predicate Ascending(ms: seq<Record>) {
    forall i, j | 0 <= i < j < |ms| :: ms[i].offset < ms[j].offset
  }

  /** One page of one line: the newest selected record, behind whatever is older. */
  lemma PageOfOne(q: Query, rs: seq<Record>, limits: nat -> int, k: nat, maxBytes: nat, scanTruncated: bool)
    requires limits(k) == 1
    ensures var ms := Selected(q, rs);
      var w := Records(Walk(q, rs, limits, k, maxBytes, scanTruncated));
      if ms == [] then w == []
      else
        && InWindow(q, ms[0])
        && (w == [ms[0]] ||
            w == Records(Walk(q.(before := Some(ms[0].offset)), rs, limits, k + 1, maxBytes, scanTruncated))
                 + [ms[0]])
  {
    var ms := Selected(q, rs);
    var n := PageSize(q, ms, 1, maxBytes);
    FittingBounds(q.size, ms, 0, 1, maxBytes);
    SelectedInWindow(q, rs);
    var last := PageLines(q, ms, n, maxBytes);
    PageRecords(q, ms, n, maxBytes);
    if n > 0 {
      assert ms[..n] == [ms[0]];
      assert Records(last) == [ms[0]];
      if Follows(q, rs, ms, n, maxBytes, scanTruncated) {
        RecordsAppend(Walk(q.(before := Some(ms[0].offset)), rs, limits, k + 1, maxBytes, scanTruncated), last);
      }
    }
  }

  /** Pages of one line each never repeat an offset. */
  lemma {:induction false} WalkByOnes(q: Query, rs: seq<Record>, limits: nat -> int, k: nat,
                                      maxBytes: nat, scanTruncated: bool)
    requires forall j: nat :: limits(j) == 1
    ensures var es := Records(Walk(q, rs, limits, k, maxBytes, scanTruncated));
      Ascending(es) && (q.before.Some? ==> AllBefore(es, q.before.value))
    decreases if q.before.None? then 1 else 0, if q.before.Some? then q.before.value else 0
  {
    PageOfOne(q, rs, limits, k, maxBytes, scanTruncated);
    var ms := Selected(q, rs);
    if ms != [] {
      var next := q.(before := Some(ms[0].offset));
      WalkByOnes(next, rs, limits, k + 1, maxBytes, scanTruncated);
      AscendingAppend(Records(Walk(next, rs, limits, k + 1, maxBytes, scanTruncated)), ms[0]);
    }
  }

  ghost predicate AllBefore(ms: seq<Record>, o: nat) {
    forall i | 0 <= i < |ms| :: ms[i].offset < o
  }

  lemma AscendingAppend(ms: seq<Record>, r: Record)
    requires Ascending(ms) && AllBefore(ms, r.offset)
    ensures Ascending(ms + [r])
    ensures forall o | r.offset < o :: AllBefore(ms + [r], o)
  {}

  lemma {:induction false} ReverseAscending(ms: seq<Record>)
    requires Ascending(Reverse(ms))
    ensures Descending(ms)
  {
    if ms != [] {
      var r := Reverse(ms[1..]);
      assert Reverse(ms) == r + [ms[0]];
      assert forall i, j | 0 <= i < j < |r| :: r[i] == Reverse(ms)[i] && r[j] == Reverse(ms)[j];
      ReverseAscending(ms[1..]);
      forall j | 1 <= j < |ms| ensures ms[0].offset > ms[j].offset {
        ReverseElements(ms[1..], ms[1..][j - 1]);
        var i :| 0 <= i < |r| && r[i] == ms[j];
        assert Reverse(ms)[i].offset < Reverse(ms)[|r|].offset;
      }
    }
  }

  /** At most one of the records is headerless. */
  ghost predicate AtMostOneHeaderless(ms: seq<Record>) {
    forall i, j | 0 <= i < j < |ms| :: !(ms[i].header.None? && ms[j].header.None?)
  }

  /** Lines of one scan come newest first. */
  ghost predicate LinesDescend(ls: seq<Line>) {
    forall i, j | 0 <= i < j < |ls| :: ls[i].offset > ls[j].offset
  }

  lemma {:induction false} LinesFromAscend(f: seq<byte>, o: nat)
    requires o <= |f|
    ensures LinesDescend(Newest(LinesFrom(f, o)))
    ensures forall i | 0 <= i < |Newest(LinesFrom(f, o))| :: Newest(LinesFrom(f, o))[i].offset >= o
    decreases |f| - o
  {
    var e := NextNewline(f, o);
    assert LinesFrom(f, o)[1..] == LinesAfter(f, o);
    if e < |f| {
      LinesFromAscend(f, e + 1);
    }
  }

  lemma ScannedDescends(f: seq<byte>, cap: nat)
    ensures LinesDescend(Scanned(f, cap))
  {
    if |f| <= cap {
      LinesFromAscend(f, 0);
    } else if NextNewline(f, |f| - cap) < |f| {
      LinesFromAscend(f, NextNewline(f, |f| - cap) + 1);
    }
  }

  /** Records grouped from a scan: those with a header have strictly descending offsets, and
      none of them is at offset 0 when headerless records exist. */
  lemma {:induction false} HeadersDescend(rs: seq<Record>, isHeader: seq<byte> -> bool, i: nat, j: nat)
    requires forall r | r in rs :: WellFormed(r, isHeader)
    requires LinesDescend(Flatten(rs)) && i < j < |rs| && rs[i].header.Some?
    ensures rs[i].offset > rs[j].offset
    decreases rs
  {
    var first := Reverse(RecordLines(rs[0]));
    assert Flatten(rs) == first + Flatten(rs[1..]);
    if i > 0 {
      LinesDescendSuffix(first, Flatten(rs[1..]));
      HeadersDescend(rs[1..], isHeader, i - 1, j - 1);
    } else {
      var h := rs[0].header.value;
      assert WellFormed(rs[0], isHeader) && WellFormed(rs[j], isHeader);
      LineOf(rs[0]);
      LineOf(rs[j]);
      FlattenHas(rs[1..], j - 1, FirstLine(rs[j]));
      LinesDescendAcross(first, Flatten(rs[1..]), h, FirstLine(rs[j]));
    }
  }

  /** The oldest line of a record: its header, or its only line. */
  function FirstLine(r: Record): Line
    requires r.header.Some? || r.rest != []
  {
    if r.header.Some? then r.header.value else r.rest[0]
  }

  lemma LineOf(r: Record)
    requires r.header.Some? || r.rest != []
    ensures FirstLine(r) in Reverse(RecordLines(r))
  {
    assert RecordLines(r)[0] == FirstLine(r);
    ReverseElements(RecordLines(r), FirstLine(r));
  }

  lemma {:induction false} FlattenHas(rs: seq<Record>, j: nat, x: Line)
    requires j < |rs| && x in Reverse(RecordLines(rs[j]))
    ensures x in Flatten(rs)
    decreases j
  {
    if j > 0 {
      FlattenHas(rs[1..], j - 1, x);
    }
  }

  lemma LinesDescendSuffix(a: seq<Line>, b: seq<Line>)
    requires LinesDescend(a + b)
    ensures LinesDescend(b)
  {
    assert forall i | 0 <= i < |b| :: b[i] == (a + b)[|a| + i];
  }

  lemma LinesDescendAcross(a: seq<Line>, b: seq<Line>, x: Line, y: Line)
    requires LinesDescend(a + b) && x in a && y in b
    ensures x.offset > y.offset
  {
    var i :| 0 <= i < |a| && a[i] == x;
    var j :| 0 <= j < |b| && b[j] == y;
    assert (a + b)[i] == x && (a + b)[|a| + j] == y;
  }

  /** In records of one scan, newest first, offsets descend strictly except among headerless
      records, which all sit at offset 0. */
  ghost predicate ScanOrder(rs: seq<Record>) {
    forall i, j | 0 <= i < j < |rs| ::
      rs[i].offset > rs[j].offset || (rs[i].header.None? && rs[j].header.None? && rs[i].offset == rs[j].offset)
  }

  /** Selection keeps the order and invents nothing. */
  lemma {:induction false} SelectedKeepsOrder(q: Query, rs: seq<Record>)
    requires ScanOrder(rs)
    ensures ScanOrder(Selected(q, rs))
    ensures forall r | r in Selected(q, rs) :: r in rs
  {
    if rs != [] {
      SelectedKeepsOrder(q, rs[1..]);
      var later := Selected(q, rs[1..]);
      forall j | 0 <= j < |later| ensures exists i | 1 <= i < |rs| :: rs[i] == later[j] {
        assert later[j] in rs[1..];
        var i :| 0 <= i < |rs[1..]| && rs[1..][i] == later[j];
        assert rs[i + 1] == later[j];
      }
    }
  }

  /** For any sequence of line limits, the pages together are the selected records, once each
      and in file order. */
  ghost predicate Lossless(q: Query, rs: seq<Record>, maxBytes: nat, scanTruncated: bool) {
    forall limits: nat -> int ::
      Records(Walk(q, rs, limits, 0, maxBytes, scanTruncated)) == Reverse(Selected(q, rs))
  }

  /** Paging is lossless exactly when at most one selected record is headerless: for records
      grouped from any scan of any file, following the cursors of a query without a time window
      returns every selected record once, for all sequences of line limits, if and only if no
      two selected records lack a header. A file whose first non-blank line is a header has
      none. */
  lemma PagingIsLosslessExactly(file: seq<byte>, cap: nat, isHeader: seq<byte> -> bool,
                                rs: seq<Record>, q: Query, maxBytes: nat, scanTruncated: bool)
    requires forall r | r in rs :: WellFormed(r, isHeader)
    requires HeadersFirst(rs) && Flatten(rs) <= Scanned(file, cap)
    requires NothingExpires(q, rs)
    ensures Lossless(q, rs, maxBytes, scanTruncated) <==> AtMostOneHeaderless(Selected(q, rs))
  {
    ScannedDescends(file, cap);
    assert LinesDescend(Flatten(rs));
    GroupedInScanOrder(rs, isHeader);
    DescendingExactly(rs, isHeader, q);
    if Descending(Selected(q, rs)) {
      forall limits: nat -> int
        ensures Records(Walk(q, rs, limits, 0, maxBytes, scanTruncated)) == Reverse(Selected(q, rs))
      {
        WalkReturnsAll(q, rs, limits, 0, maxBytes, scanTruncated);
      }
    }
    LosslessByOnes(q, rs, maxBytes, scanTruncated);
  }

  lemma LosslessByOnes(q: Query, rs: seq<Record>, maxBytes: nat, scanTruncated: bool)
    ensures Lossless(q, rs, maxBytes, scanTruncated) ==> Descending(Selected(q, rs))
  {
    var ones := (page: nat) => 1;
    WalkByOnes(q, rs, ones, 0, maxBytes, scanTruncated);
    if Records(Walk(q, rs, ones, 0, maxBytes, scanTruncated)) == Reverse(Selected(q, rs)) {
      ReverseAscending(Selected(q, rs));
    }
  }

  lemma DescendingExactly(rs: seq<Record>, isHeader: seq<byte> -> bool, q: Query)
    requires forall r | r in rs :: WellFormed(r, isHeader)
    requires ScanOrder(rs)
    ensures Descending(Selected(q, rs)) <==> AtMostOneHeaderless(Selected(q, rs))
  {
    SelectedKeepsOrder(q, rs);
    var ms := Selected(q, rs);
    forall i | 0 <= i < |ms| && ms[i].header.None? ensures ms[i].offset == 0 {
      assert ms[i] in rs && WellFormed(ms[i], isHeader);
    }
  }

  lemma GroupedInScanOrder(rs: seq<Record>, isHeader: seq<byte> -> bool)
    requires forall r | r in rs :: WellFormed(r, isHeader)
    requires HeadersFirst(rs) && LinesDescend(Flatten(rs))
    ensures ScanOrder(rs)
  {
    forall i, j | 0 <= i < j < |rs|
      ensures rs[i].offset > rs[j].offset
           || (rs[i].header.None? && rs[j].header.None? && rs[i].offset == rs[j].offset)
    {
      if rs[i].header.Some? {
        HeadersDescend(rs, isHeader, i, j);
      } else {
        assert WellFormed(rs[i], isHeader) && WellFormed(rs[j], isHeader);
      }
    }
  }

  lemma LastHeaderless(rs: seq<Record>)
    requires rs != []
    ensures var r := rs[|rs| - 1];
      r.header.None? && |r.rest| == 1 ==>
        Flatten(rs) != [] && Flatten(rs)[|Flatten(rs)| - 1] == r.rest[0]
  {
    var n := |rs| - 1;
    assert rs == rs[..n] + [rs[n]];
    FlattenAppend(rs[..n], [rs[n]]);
    if rs[n].header.None? && |rs[n].rest| == 1 {
      assert Reverse(RecordLines(rs[n])) == [rs[n].rest[0]];
    }
  }

  /** In particular, when the first non-blank line of the scan is a header, paging is lossless
      under any filters. */
  lemma LeadingHeaderIsLossless(file: seq<byte>, cap: nat, isHeader: seq<byte> -> bool,
                                rs: seq<Record>, q: Query, maxBytes: nat, scanTruncated: bool)
    requires forall r | r in rs :: WellFormed(r, isHeader)
    requires HeadersFirst(rs) && Flatten(rs) == Scanned(file, cap) != []
    requires isHeader(Scanned(file, cap)[|Scanned(file, cap)| - 1].text)
    requires NothingExpires(q, rs)
    ensures forall r | r in rs :: r.header.Some?
    ensures Lossless(q, rs, maxBytes, scanTruncated)
  {
    var n := |rs| - 1;
    LastHeaderless(rs);
    assert WellFormed(rs[n], isHeader);
    forall r | r in rs ensures r.header.Some? {
      var i :| 0 <= i < |rs| && rs[i] == r;
    }
    ScannedDescends(file, cap);
    GroupedInScanOrder(rs, isHeader);
    SelectedKeepsOrder(q, rs);
    PagingIsLosslessExactly(file, cap, isHeader, rs, q, maxBytes, scanTruncated);
  }

  // ---------------------------------------------------------------- a file on which a page is lost

  /** Two lines without a header. */
  const TWO_LINES: seq<byte> := [97, 10, 98, 10]
  const NEWER := Record(None, [Line(2, [98])], 0)
  const OLDER := Record(None, [Line(0, [97])], 0)

  /** Every record matches and takes one byte. */
  function Everything(before: Option<nat>): Query {
    Query(before, r => true, r => false, r => true, r => 1)
  }

  lemma TwoLinesScanned(cap: nat)
    requires cap >= 4
    ensures Scanned(TWO_LINES, cap) == [Line(2, [98]), Line(0, [97])]
  {
    var f := TWO_LINES;
    NextNewlineUnique(f, 0, 1);
    NextNewlineUnique(f, 2, 3);
    NextNewlineUnique(f, 4, 4);
    assert f[0..1] == [97] && f[2..3] == [98] && f[4..4] == [];
    assert LinesFrom(f, 4) == [Line(4, [])];
    assert LinesFrom(f, 2) == [Line(2, [98])] + LinesFrom(f, 4);
    assert LinesFrom(f, 0) == [Line(0, [97])] + LinesFrom(f, 2);
    var ls := LinesFrom(f, 0);
    assert Newest(ls[3..]) == [];
    assert Newest(ls[2..]) == [];
    assert Newest(ls[1..]) == [Line(2, [98])];
  }

  lemma TwoRecordsSelected()
    ensures Selected(Everything(None), [NEWER, OLDER]) == [NEWER, OLDER]
    ensures Selected(Everything(Some(0)), [NEWER, OLDER]) == []
  {
    var rs := [NEWER, OLDER];
    assert rs[1..] == [OLDER] && rs[1..][1..] == [];
    assert Selected(Everything(None), rs[1..]) == [OLDER];
    assert Selected(Everything(Some(0)), rs[1..]) == [];
  }

  /** The loss is real: of a file with two headerless lines, read one line a page, the older line is on no
      page, because both lines carry offset 0 and the cursor behind the first page excludes both. */
  lemma SecondHeaderlessLineIsLost(isHeader: seq<byte> -> bool, cap: nat, limits: nat -> int)
    requires cap >= 4 && !isHeader([97]) && !isHeader([98]) && limits(0) == 1
    ensures var rs, q := [NEWER, OLDER], Everything(None);
      && (forall r | r in rs :: WellFormed(r, isHeader)) && HeadersFirst(rs)
      && Flatten(rs) == Scanned(TWO_LINES, cap)
      && Selected(q, rs) == rs
      && Records(Walk(q, rs, limits, 0, 100, false)) == [NEWER]
  {
    var rs, q := [NEWER, OLDER], Everything(None);
    TwoLinesScanned(cap);
    TwoRecordsSelected();
    TwoRecordsFlat();
    LastPageIsEmpty(limits);
    FirstPageOfTwo(q, rs);
    var page := PageLines(q, rs, 1, 100);
    PageRecords(q, rs, 1, 100);
    assert rs[..1] == [NEWER] && Reverse([NEWER]) == [NEWER];
    RecordsAppend([], page);
    assert [] + page == page;
    assert Walk(q, rs, limits, 0, 100, false)
        == Walk(q.(before := Some(0)), rs, limits, 1, 100, false) + page;
    assert q.(before := Some(0)) == Everything(Some(0));
  }

  lemma TwoRecordsFlat()
    ensures Flatten([NEWER, OLDER]) == [Line(2, [98]), Line(0, [97])]
  {
    var rs := [NEWER, OLDER];
    assert Reverse(RecordLines(NEWER)) == [Line(2, [98])];
    assert Reverse(RecordLines(OLDER)) == [Line(0, [97])];
    assert Flatten(rs[2..]) == [];
    assert Flatten(rs[1..]) == [Line(0, [97])];
  }

  lemma FirstPageOfTwo(q: Query, rs: seq<Record>)
    requires q == Everything(None) && |rs| == 2
    ensures PageSize(q, rs, 1, 100) == 1
  {
    assert Fitting(q.size, rs, 1, 1, 99) == 1;
  }

  lemma LastPageIsEmpty(limits: nat -> int)
    ensures Walk(Everything(Some(0)), [NEWER, OLDER], limits, 1, 100, false) == []
  {
    TwoRecordsSelected();
  }
}
