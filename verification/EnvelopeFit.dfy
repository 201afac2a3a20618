/** Fitting one command envelope into its byte budget, and the `bytes` field that counts
    its own digits. */
module EnvelopeFit {
  import opened Wrappers
  import opened Json
  import opened ShrinkPolicy
  import ListReduction

  /** The envelope's contents as a value. */
  datatype View = View(
    command: string, data: Json, truncated: bool, returnedCount: nat, bytes: nat,
    mode: string, fields: seq<string>, maxItems: int, totalCount: Option<nat>)

  const KEYS := ["command", "data", "truncated", "returned_count", "bytes", "applied"]

  function Applied(v: View): Json {
    Obj(["mode", "fields", "max_items"],
        [Leaf(Str(v.mode)),
         Arr(seq(|v.fields|, i requires 0 <= i < |v.fields| => Leaf(Str(v.fields[i])))),
         Leaf(Int(v.maxItems))])
  }

  /** The members every envelope has. */
  function SixItems(v: View): seq<Json> {
    [Leaf(Str(v.command)), v.data, Leaf(Bool(v.truncated)), Leaf(Int(v.returnedCount)),
     Leaf(Int(v.bytes)), Applied(v)]
  }

  function ToJson(v: View): Json {
    Obj(KEYS + (if v.totalCount.None? then [] else ["total_count"]),
        SixItems(v) + (if v.totalCount.None? then [] else [Leaf(Int(v.totalCount.value))]))
  }

  /** `_encoded_size(envelope)`. */
  function Measure(v: View): nat {
    EncodedSize(ToJson(v))
  }

  /** The encoded size of everything but the digits of `bytes`. */
  function Rest(v: View): int {
    Measure(v) - |Digits(v.bytes)|
  }

  // ---------------------------------------------------------------- the size of an envelope

  lemma NumberSize(n: nat)
    ensures Size(Leaf(Int(n))) == |Digits(n)|
  {
    DigitsAscii(n);
    AsciiSize(Digits(n));
  }

  lemma MeasureMember(v: View, i: nat, x: Json, w: View)
    requires i < |ToJson(v).items| && ToJson(w) == ToJson(v).(items := ToJson(v).items[i := x])
    ensures Measure(w) == Measure(v) - Size(ToJson(v).items[i]) + Size(x)
  {
    EncodedSizeIsSize(ToJson(v));
    EncodedSizeIsSize(ToJson(w));
    ReplaceItem(ToJson(v).keys, ToJson(v).items, i, x);
  }

  lemma MeasureBytes(v: View, b: nat)
    ensures Measure(v.(bytes := b)) == Rest(v) + |Digits(b)|
    ensures Rest(v.(bytes := b)) == Rest(v)
  {
    MeasureMember(v, 4, Leaf(Int(b)), v.(bytes := b));
    NumberSize(v.bytes);
    NumberSize(b);
  }

  lemma MeasureDataAlone(v: View, d: Json)
    ensures Measure(v.(data := d)) == Measure(v) - Size(v.data) + Size(d)
  {
    var w := v.(data := d);
    assert ToJson(w).items == ToJson(v).items[1 := d];
    MeasureMember(v, 1, d, w);
  }

  lemma MeasureCount(v: View, count: nat)
    ensures Measure(v.(returnedCount := count)) == Measure(v) - |Digits(v.returnedCount)| + |Digits(count)|
  {
    var w := v.(returnedCount := count);
    assert ToJson(w).items == ToJson(v).items[3 := Leaf(Int(count))];
    MeasureMember(v, 3, Leaf(Int(count)), w);
    NumberSize(v.returnedCount);
    NumberSize(count);
  }

  lemma MeasureData(v: View, d: Json, count: nat)
    ensures Measure(v.(data := d, returnedCount := count))
         == Measure(v) - Size(v.data) + Size(d) - |Digits(v.returnedCount)| + |Digits(count)|
  {
    MeasureDataAlone(v, d);
    MeasureCount(v.(data := d), count);
  }

  /** Room taken by the names alone: quotes and colon of every key. */
  function KeyRoom(keys: seq<string>): nat {
    if keys == [] then 0 else |keys[0]| + 3 + KeyRoom(keys[1..])
  }

  lemma {:induction false} KeyRoomFits(keys: seq<string>, items: seq<Json>, i: nat)
    requires |keys| == |items| && i <= |items|
    ensures ItemsSize(keys, items)
         >= KeyRoom(keys) + |items| - (if items == [] then 0 else 1)
            + (if i < |items| then Size(items[i]) else 0)
  {
    if items != [] {
      KeyRoomFits(keys[1..], items[1..], if i == 0 then |items| - 1 else i - 1);
      assert TextSize(Quote(keys[0])) >= |Quote(keys[0])| >= |keys[0]| + 2;
    }
  }

  lemma {:induction false} KeyRoomAppend(a: seq<string>, b: seq<string>)
    ensures KeyRoom(a + b) == KeyRoom(a) + KeyRoom(b)
  {
    if a == [] {
      assert a + b == b;
    } else {
      assert (a + b)[1..] == a[1..] + b;
      KeyRoomAppend(a[1..], b);
    }
  }

  lemma AppliedAtLeast32(v: View)
    ensures Size(Applied(v)) >= 32
  {
    KeyRoomFits(Applied(v).keys, Applied(v).items, 3);
    assert KeyRoom(["mode", "fields", "max_items"]) == 28;
  }

  /** No envelope is smaller than a hundred bytes beside its `bytes` digits. */
  lemma RestAtLeast100(v: View)
    ensures Rest(v) >= 100
  {
    var bare := v.(bytes := 0);
    MeasureBytes(v, 0);
    EncodedSizeIsSize(ToJson(bare));
    AppliedAtLeast32(v);
    MembersAtLeast103(bare);
  }

  lemma KeyRoomOfKeys()
    ensures KeyRoom(KEYS) == 64
  {
    assert KeyRoom(KEYS[5..]) == 10;
    assert KeyRoom(KEYS[3..]) == 35;
  }

  lemma MembersAtLeast103(v: View)
    requires Size(Applied(v)) >= 32
    ensures Size(ToJson(v)) >= 103
  {
    var more := if v.totalCount.None? then [] else ["total_count"];
    KeyRoomFits(KEYS + more, ToJson(v).items, 5);
    KeyRoomAppend(KEYS, more);
    KeyRoomOfKeys();
  }

  // ---------------------------------------------------------------- the self-counting field

  /** One round of `_set_measured_bytes`: the size measured while `bytes` holds b. */
  function Round(rest: nat, b: nat): nat {
    rest + |Digits(b)|
  }

  function Power10(k: nat): (r: nat)
    ensures r >= 1 && (k >= 1 ==> r >= 10)
  {
    if k == 0 then 1 else 10 * Power10(k - 1)
  }

  lemma {:induction false} DigitsWithin(n: nat, k: nat)
    requires k >= 1
    ensures |Digits(n)| <= k <==> n < Power10(k)
    decreases k
  {
    if k > 1 && n >= 10 {
      DigitsWithin(n / 10, k - 1);
    }
  }

  lemma {:induction false} Power10Grows(j: nat, k: nat)
    requires j <= k
    ensures j < Power10(j) <= Power10(k)
    decreases k
  {
    if j < k {
      Power10Grows(j, k - 1);
    } else if k > 0 {
      Power10Grows(k - 1, k - 1);
    }
  }

  /** What three rounds starting from a cap leave. */
  function Settled(rest: nat, cap: nat): nat {
    Round(rest, Round(rest, Round(rest, cap)))
  }

  /** The first measured size has k digits and the rest has q. Adding k does not carry the rest into
      another digit, or it carries it into just one, which q + 1 reaches as well. */
  predicate HasRoom(rest: nat, cap: nat) {
    var k, q := |Digits(Round(rest, cap))|, |Digits(rest)|;
    rest + k < Power10(q) || (Power10(q) <= rest + q + 1 && rest + k < Power10(q + 1))
  }

  /** Exactly when three rounds reach a fixpoint, for every rest and every cap. */
  lemma ThreeRoundsSettleExactly(rest: nat, cap: nat)
    ensures Round(rest, Settled(rest, cap)) == Settled(rest, cap) <==> HasRoom(rest, cap)
  {
    var a := Round(rest, cap);
    var b := Round(rest, a);
    var c := Round(rest, b);
    var k, q := |Digits(a)|, |Digits(rest)|;
    DigitsWithin(b, q);
    DigitsWithin(b, q + 1);
    if b < Power10(q) {
      DigitsMonotone(rest, a);
      DigitsMonotone(rest, b);
      DigitsMonotone(rest, c);
      DigitsMonotone(c, b);
    } else if b < Power10(q + 1) {
      OneCarry(rest, q, c);
    } else {
      ManyCarries(rest, q, |Digits(b)|);
    }
  }

  lemma OneCarry(rest: nat, q: nat, c: nat)
    requires q == |Digits(rest)| && c == rest + q + 1
    ensures |Digits(c)| == q + 1 <==> Power10(q) <= c
  {
    DigitsWithin(rest, q);
    Power10Grows(q, q);
    DigitsWithin(c, q);
    DigitsWithin(c, q + 1);
  }

  lemma ManyCarries(rest: nat, q: nat, m: nat)
    requires q == |Digits(rest)| && m >= q + 2
    ensures |Digits(rest + m)| < m
  {
    DigitsWithin(rest, q);
    Power10Grows(q, m - 2);
    Power10Grows(m - 2, m - 2);
    DigitsWithin(rest + m, m - 1);
  }

  /** In particular there is room whenever the cap has no more digits than the rest has bytes. */
  lemma ShortCapsHaveRoom(rest: nat, cap: nat)
    requires |Digits(cap)| <= rest
    ensures HasRoom(rest, cap)
  {
    var a, q := Round(rest, cap), |Digits(rest)|;
    DigitsWithin(rest, q);
    DigitsWithin(a, q + 1);
    Power10Grows(q, q);
    assert |Digits(a)| <= q + 1;
  }

  lemma {:induction false} Power10Digits(k: nat)
    ensures |Digits(Power10(k))| == k + 1
  {
    if k > 0 {
      Power10Digits(k - 1);
      assert Power10(k) / 10 == Power10(k - 1);
    }
  }

  lemma CapOfDigits(d: nat) returns (cap: nat)
    requires d >= 1
    ensures |Digits(cap)| == d && cap >= d
  {
    cap := Power10(d - 1);
    Power10Digits(d - 1);
    Power10Grows(d - 1, d - 1);
  }

  // ---------------------------------------------------------------- fitting

  datatype Outcome = Fitted | TooLarge

  /** The envelope after n removals by the plain policy. */
  function Shrunk(v: View, n: nat): View {
    var d := PlainSteps(v.data, n);
    v.(data := d, truncated := true, returnedCount := TopCount(d))
  }

  /** `_minimal_json_shape`. */
  function MinimalShape(v: Json): Json {
    match v
    case Obj(_, _) => Obj([], [])
    case Arr(_) => Arr([])
    case Leaf(Str(_)) => Leaf(Str(""))
    case Leaf(Bool(_)) => Leaf(Bool(false))
    case Leaf(Int(_)) => Leaf(Int(0))
    case Leaf(Float(_)) => Leaf(Int(0))
    case Leaf(Null) => Leaf(Null)
  }

  function Minimal(v: View): View {
    var d := MinimalShape(v.data);
    v.(data := d, truncated := true, returnedCount := TopCount(d), totalCount := None)
  }

  /** More removals never make the envelope larger. */
  lemma ShrunkMonotone(v: View, m: nat, n: nat)
    requires m <= n
    ensures Measure(Shrunk(v, n)) <= Measure(Shrunk(v, m))
  {
    MoreStepsAreSmaller(v.data, m, n);
    var d, e := PlainSteps(v.data, m), PlainSteps(v.data, n);
    MeasureData(Shrunk(v, m), e, TopCount(e));
    DigitsMonotone(TopCount(e), TopCount(d));
    assert Shrunk(v, n) == Shrunk(v, m).(data := e, returnedCount := TopCount(e));
  }

  /** Removals beyond the list-element count change nothing more. */
  lemma ShrunkSaturates(v: View, n: nat)
    requires n >= CountListItems([v.data])
    ensures Shrunk(v, n) == Shrunk(v, CountListItems([v.data]))
  {
    var c := CountListItems([v.data]);
    CountEmptiesEveryList(v.data, c);
    StepsCompose(v.data, c, n - c);
    StepsStop(PlainSteps(v.data, c), n - c);
  }

  /** n is the least number of removals, at least one, that fits. */
  ghost predicate LeastFitting(v: View, cap: nat, n: nat) {
    && n >= 1
    && Measure(Shrunk(v, n)) <= cap
    && forall m | 1 <= m < n :: Measure(Shrunk(v, m)) > cap
  }

  ghost predicate SomeRemovalFits(v: View, cap: nat) {
    CountListItems([v.data]) > 0 && exists n :: LeastFitting(v, cap, n)
  }

  /** What `fit_json_envelope` leaves, before `bytes` is settled: the envelope itself, the
      least sufficient list reduction, the minimal shape, or that without its fields. */
  ghost predicate FitsAs(v: View, cap: nat, w: View) {
    if Measure(v) <= cap then w == v
    else if SomeRemovalFits(v, cap) then exists n :: LeastFitting(v, cap, n) && w == Shrunk(v, n)
    else if Measure(Minimal(v)) <= cap then w == Minimal(v)
    else w == Minimal(v).(fields := []) && Measure(w) <= cap
  }

  function Power2(k: nat): nat {
    if k == 0 then 1 else 2 * Power2(k - 1)
  }

  class Envelope {
    const command: string
    const mode: string
    const maxItems: int
    var data: Json
    var truncated: bool
    var returnedCount: nat
    var bytes: nat
    var fields: seq<string>
    var totalCount: Option<nat>

    constructor (v: View)
      ensures Contents() == v
    {
      command, mode, maxItems := v.command, v.mode, v.maxItems;
      data, truncated, returnedCount, bytes := v.data, v.truncated, v.returnedCount, v.bytes;
      fields, totalCount := v.fields, v.totalCount;
    }

    function Contents(): View
      reads this
    {
      View(command, data, truncated, returnedCount, bytes, mode, fields, maxItems, totalCount)
    }

    /** `_set_returned_count`. */
    method SetReturnedCount()
      modifies this`returnedCount
      ensures returnedCount == TopCount(data)
    {
      returnedCount := if data.Arr? then |data.items| else if data == Leaf(Null) then 0 else 1;
    }

    /** `_set_measured_bytes`: at most three rounds. */
    method SetMeasuredBytes()
      requires Rest(Contents()) >= 0
      modifies this`bytes
      ensures var rest := Rest(old(Contents()));
        bytes == Round(rest, Round(rest, Round(rest, old(bytes))))
    {
      ghost var rest: nat := Rest(Contents());
      ghost var want := Round(rest, Round(rest, Round(rest, bytes)));
      for attempt := 0 to 3
        invariant Rest(Contents()) == rest
        invariant attempt == 0 ==> want == Round(rest, Round(rest, Round(rest, bytes)))
        invariant attempt == 1 ==> want == Round(rest, Round(rest, bytes))
        invariant attempt == 2 ==> want == Round(rest, bytes)
        invariant attempt == 3 ==> want == bytes
      {
        var measured := Measure(Contents());
        MeasureBytes(Contents(), measured);
        assert measured == Round(rest, bytes);
        if bytes == measured {
          return;
        }
        bytes := measured;
      }
    }

    /** The list-shrinking branch: a binary search over the number of removals. */
    method SearchLeast(original: Json, maxRemovals: nat, byteCap: nat, ghost v: View)
      returns (probes: nat)
      requires maxRemovals >= 1 && maxRemovals == CountListItems([original])
      requires v.data == original && Contents() == Shrunk(v, maxRemovals)
      requires Measure(Shrunk(v, maxRemovals)) <= byteCap
      modifies this`data, this`returnedCount
      ensures exists n :: LeastFitting(v, byteCap, n) && Contents() == Shrunk(v, n)
      ensures Power2(probes) <= 2 * maxRemovals
    {
      probes := 0;
      var low, high, best := 1, maxRemovals, data;
      while low < high
        invariant 1 <= low <= high <= maxRemovals
        invariant best == PlainSteps(original, high)
        invariant Contents() == v.(data := data, truncated := true, returnedCount := returnedCount)
        invariant Measure(Shrunk(v, high)) <= byteCap
        invariant forall m | 1 <= m < low :: Measure(Shrunk(v, m)) > byteCap
        invariant (high - low) * Power2(probes) < maxRemovals
        invariant Power2(probes) <= 2 * maxRemovals
        decreases high - low
      {
        ghost var gap := high - low;
        var midpoint := (low + high) / 2;
        var candidate := ListReduction.SimulateListRemovals(original, midpoint);
        data := candidate;
        SetReturnedCount();
        assert Contents() == Shrunk(v, midpoint);
        probes := probes + 1;
        if Measure(Contents()) <= byteCap {
          high := midpoint;
          best := candidate;
        } else {
          forall m | 1 <= m <= midpoint ensures Measure(Shrunk(v, m)) > byteCap {
            ShrunkMonotone(v, m, midpoint);
          }
          low := midpoint + 1;
        }
        Halving(gap, high - low, probes - 1, maxRemovals);
      }
      data := best;
      SetReturnedCount();
      assert LeastFitting(v, byteCap, high) && Contents() == Shrunk(v, high);
    }
  }

  /** A gap that halves can be probed only logarithmically often. */
  lemma Halving(gap: nat, next: nat, probes: nat, bound: nat)
    requires gap >= 1 && gap * Power2(probes) < bound && next <= gap / 2
    ensures Power2(probes + 1) <= 2 * bound
    ensures next * Power2(probes + 1) < bound
  {
    var p := Power2(probes);
    assert p <= gap * p;
    assert (2 * next) * p <= gap * p;
    assert next * Power2(probes + 1) == (2 * next) * p;
  }

  /** The list-shrinking stage: the whole reduction first, then the search below it. */
  method ReduceLists(envelope: Envelope, byteCap: nat, ghost v: View) returns (fitted: bool)
    requires envelope.Contents() == v
    modifies envelope`data, envelope`truncated, envelope`returnedCount
    ensures fitted <==> SomeRemovalFits(v, byteCap)
    ensures fitted ==> exists n :: LeastFitting(v, byteCap, n) && envelope.Contents() == Shrunk(v, n)
  {
    var original := envelope.data;
    var maxRemovals := CountListItems([original]);
    if maxRemovals == 0 {
      return false;
    }
    envelope.truncated := true;
    envelope.data := ListReduction.SimulateListRemovals(original, maxRemovals);
    envelope.SetReturnedCount();
    assert envelope.Contents() == Shrunk(v, maxRemovals);
    fitted := Measure(envelope.Contents()) <= byteCap;
    if fitted {
      var probes := envelope.SearchLeast(original, maxRemovals, byteCap, v);
    } else {
      NoRemovalFits(v, byteCap);
    }
  }

  /** The stages one after another, up to the first that fits. */
  method FitStages(envelope: Envelope, byteCap: nat, ghost v: View) returns (outcome: Outcome, ghost w: View)
    requires envelope.Contents() == v
    modifies envelope
    ensures outcome == Fitted ==>
              FitsAs(v, byteCap, w) && envelope.Contents() == w && w.bytes == v.bytes && Measure(w) <= byteCap
    ensures outcome == TooLarge ==> forall x :: !FitsAs(v, byteCap, x)
  {
    w := v;
    var original := envelope.data;
    if Measure(envelope.Contents()) <= byteCap {
      return Fitted, v;
    }
    var reduced := ReduceLists(envelope, byteCap, v);
    if reduced {
      ghost var n :| LeastFitting(v, byteCap, n) && envelope.Contents() == Shrunk(v, n);
      return Fitted, Shrunk(v, n);
    }
    envelope.data := MinimalShape(original);
    envelope.truncated := true;
    envelope.SetReturnedCount();
    envelope.totalCount := None;
    assert envelope.Contents() == Minimal(v);
    if Measure(envelope.Contents()) <= byteCap {
      return Fitted, Minimal(v);
    }
    envelope.fields := [];
    if Measure(envelope.Contents()) <= byteCap {
      return Fitted, Minimal(v).(fields := []);
    }
    return TooLarge, v;
  }

  /** `fit_json_envelope`. */
  method FitJsonEnvelope(envelope: Envelope, byteCap: nat) returns (outcome: Outcome)
    modifies envelope
    ensures var v := old(envelope.Contents()).(bytes := byteCap);
      && (outcome == Fitted <==> exists w :: FitsAs(v, byteCap, w))
      && (outcome == Fitted ==>
            exists w :: (FitsAs(v, byteCap, w) && envelope.Contents() == w.(bytes := envelope.bytes)))
    ensures outcome == Fitted ==> envelope.bytes <= byteCap
    ensures outcome == Fitted ==> Rest(envelope.Contents()) >= 100
    ensures outcome == Fitted ==>
              (envelope.bytes == Measure(envelope.Contents()) <==> HasRoom(Rest(envelope.Contents()), byteCap))
    ensures outcome == Fitted && |Digits(byteCap)| <= 100 ==> envelope.bytes == Measure(envelope.Contents())
  {
    envelope.bytes := byteCap;
    ghost var v := envelope.Contents();
    ghost var w;
    outcome, w := FitStages(envelope, byteCap, v);
    if outcome == Fitted {
      Settle(envelope, byteCap, w);
    }
  }

  lemma NoRemovalFits(v: View, cap: nat)
    requires Measure(Shrunk(v, CountListItems([v.data]))) > cap
    ensures forall n :: !LeastFitting(v, cap, n)
  {
    var c := CountListItems([v.data]);
    forall n ensures !LeastFitting(v, cap, n) {
      if n <= c {
        ShrunkMonotone(v, n, c);
      } else {
        ShrunkSaturates(v, n);
      }
    }
  }

  /** The last call of every accepting branch. */
  method Settle(envelope: Envelope, byteCap: nat, ghost w: View)
    requires envelope.Contents() == w && w.bytes == byteCap && Measure(w) <= byteCap
    modifies envelope`bytes
    ensures envelope.Contents() == w.(bytes := envelope.bytes)
    ensures envelope.bytes <= byteCap
    ensures Rest(envelope.Contents()) >= 100
    ensures envelope.bytes == Measure(envelope.Contents()) <==> HasRoom(Rest(envelope.Contents()), byteCap)
    ensures |Digits(byteCap)| <= 100 ==> envelope.bytes == Measure(envelope.Contents())
  {
    RestAtLeast100(w);
    envelope.SetMeasuredBytes();
    ghost var rest: nat := Rest(w);
    MeasureBytes(w, byteCap);
    MeasureBytes(w, envelope.bytes);
    DigitsMonotone(Round(rest, byteCap), byteCap);
    DigitsMonotone(Round(rest, Round(rest, byteCap)), Round(rest, byteCap));
    ThreeRoundsSettleExactly(rest, byteCap);
    if |Digits(byteCap)| <= 100 {
      ShortCapsHaveRoom(rest, byteCap);
    }
  }

  // ---------------------------------------------------------------- without room

  /** Text of which nothing has to be escaped. */
  predicate Plain(s: string) {
    forall i | 0 <= i < |s| :: s[i] == '_' || 'a' <= s[i] <= 'z'
  }

  lemma {:induction false} PlainEscape(s: string)
    requires Plain(s)
    ensures Escape(s) == s
  {
    if s != [] {
      PlainEscape(s[1..]);
      assert s == [s[0]] + s[1..];
    }
  }

  lemma PlainQuote(s: string)
    requires Plain(s)
    ensures TextSize(Quote(s)) == |s| + 2
  {
    PlainEscape(s);
    AsciiSize(Quote(s));
  }

  /** One member in front of others. */
  lemma MemberSize(keys: seq<string>, items: seq<Json>)
    requires |keys| == |items| > 0 && Plain(keys[0])
    ensures ItemsSize(keys, items)
         == |keys[0]| + 3 + Size(items[0]) + (if |items| == 1 then 0 else 1 + ItemsSize(keys[1..], items[1..]))
  {
    PlainQuote(keys[0]);
  }

  lemma ThreeMembers(keys: seq<string>, items: seq<Json>)
    requires |keys| == |items| == 3 && Plain(keys[0]) && Plain(keys[1]) && Plain(keys[2])
    ensures ItemsSize(keys, items)
         == |keys[0]| + |keys[1]| + |keys[2]| + 11 + Size(items[0]) + Size(items[1]) + Size(items[2])
  {
    MemberSize(keys[2..], items[2..]);
    MemberSize(keys[1..], items[1..]);
    MemberSize(keys, items);
  }

  lemma SixMembers(keys: seq<string>, items: seq<Json>)
    requires |keys| == |items| == 6 && forall i | 0 <= i < 6 :: Plain(keys[i])
    ensures ItemsSize(keys, items)
         == |keys[0]| + |keys[1]| + |keys[2]| + |keys[3]| + |keys[4]| + |keys[5]| + 23
            + Size(items[0]) + Size(items[1]) + Size(items[2]) + Size(items[3]) + Size(items[4]) + Size(items[5])
  {
    ThreeMembers(keys[3..], items[3..]);
    MemberSize(keys[2..], items[2..]);
    MemberSize(keys[1..], items[1..]);
    MemberSize(keys, items);
  }

  lemma NamesArePlain()
    ensures forall i | 0 <= i < 6 :: Plain(KEYS[i])
    ensures Plain("mode") && Plain("fields") && Plain("max_items")
  {}

  lemma ScalarSizes()
    ensures Size(Leaf(Null)) == 4 && Size(Leaf(Bool(false))) == 5
  {
    AsciiSize("null");
    AsciiSize("false");
  }

  lemma AppliedSize(v: View)
    requires Plain(v.mode) && v.fields == []
    ensures Size(Applied(v)) == 36 + |v.mode| + Size(Leaf(Int(v.maxItems)))
  {
    NamesArePlain();
    PlainQuote(v.mode);
    ThreeMembers(Applied(v).keys, Applied(v).items);
  }

  lemma SixSizes(items: seq<Json>)
    requires |items| == 6
    ensures ItemsSize(KEYS, items)
         == 69 + Size(items[0]) + Size(items[1]) + Size(items[2]) + Size(items[3]) + Size(items[4]) + Size(items[5])
  {
    NamesArePlain();
    SixMembers(KEYS, items);
  }

  lemma SixMeasure(v: View)
    requires v.totalCount.None?
    ensures Measure(v)
         == 71 + Size(Leaf(Str(v.command))) + Size(v.data) + Size(Leaf(Bool(v.truncated)))
            + Size(Leaf(Int(v.returnedCount))) + Size(Leaf(Int(v.bytes))) + Size(Applied(v))
  {
    EncodedSizeIsSize(ToJson(v));
    SixSizes(SixItems(v));
    assert ToJson(v) == Obj(KEYS, SixItems(v));
  }

  /** The size of a null result. */
  lemma NullSize(v: View)
    requires Plain(v.command) && Plain(v.mode) && v.fields == [] && v.totalCount.None?
    requires v.data == Leaf(Null) && !v.truncated && v.returnedCount == 0 && 0 <= v.maxItems < 10
    ensures Rest(v) == 120 + |v.command| + |v.mode|
  {
    ScalarSizes();
    AppliedSize(v);
    PlainQuote(v.command);
    NumberSize(v.returnedCount);
    NumberSize(v.maxItems);
    NumberSize(v.bytes);
    SixMeasure(v);
  }

  function Letters(n: nat): (r: string)
    ensures Plain(r) && |r| == n
  {
    seq(n, i => 'a')
  }

  /** Every rest from 127 bytes on is the rest of some envelope in compact mode. */
  lemma EnvelopeOfRest(rest: nat, bytes: nat) returns (v: View)
    requires rest >= 127
    ensures Rest(v) == rest && v.bytes == bytes
  {
    v := View(Letters(rest - 127), Leaf(Null), false, 0, bytes, "compact", [], 1, None);
    NullSize(v);
  }

  lemma NoRoomAt995(cap: nat)
    requires |Digits(cap)| == 9005
    ensures Round(995, cap) <= cap
    ensures !HasRoom(995, cap) && Settled(995, cap) == 999 && Round(995, 999) == 998
  {
    assert |Digits(10000)| == 5 && |Digits(1000)| == 4 && |Digits(999)| == 3 && |Digits(995)| == 3;
    if cap <= 10000 {
      DigitsMonotone(cap, 10000);
    }
    assert Power10(3) == 1000;
  }

  /** A real envelope that does not settle: it takes 995 bytes beside its `bytes` digits, and under a cap
      of 9005 digits it is left as it is, with `bytes` at 999 while its size is 998. */
  lemma NoRoomInAnEnvelope() returns (v: View, cap: nat)
    ensures Rest(v) == 995 && v.bytes == cap && |Digits(cap)| == 9005
    ensures FitsAs(v, cap, v) && !HasRoom(995, cap)
    ensures Settled(995, cap) == 999 && Measure(v.(bytes := 999)) == 998
  {
    cap := CapOfDigits(9005);
    v := EnvelopeOfRest(995, cap);
    NoRoomAt995(cap);
    MeasureBytes(v, cap);
    MeasureBytes(v, 999);
  }
}
