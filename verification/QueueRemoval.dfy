/** Safe removal of a batch of queue items: what was played, plays now, or is buffered in the
    player stays, whatever shifts while the others are deleted. */
module QueueRemoval {
  import opened Wrappers

  /** Where playback stands; both positions may be unknown. */
  datatype Status = Status(currentIndex: Option<nat>, indexInBuffer: Option<nat>)

  /** What Music Assistant does with one deletion: raise a lookup error, ignore it because the
      player has buffered on, or delete. */
  datatype Deletion = Raises | Ignores | Deletes

  datatype Bucket = Removed | NotFound | SkippedPlayed | SkippedBuffered

  datatype Answer =
    | RemoveFromQueueResult(removed: seq<string>, notFound: seq<string>,
                            skippedPlayed: seq<string>, skippedBuffered: seq<string>)
    | InvalidData(message: string)

  // ---------------------------------------------------------------- what one batch means

  function IndexOf(queue: seq<string>, id: string): (r: Option<nat>)
    ensures r.None? <==> id !in queue
    ensures r.Some? ==> r.value < |queue| && queue[r.value] == id && id !in queue[..r.value]
  {
    if queue == [] then None
    else if queue[0] == id then Some(0)
    else
      var later := IndexOf(queue[1..], id);
      if later.None? then None
      else assert queue[..later.value + 1] == [queue[0]] + queue[1..][..later.value]; Some(later.value + 1)
  }

  function DeleteFirst(queue: seq<string>, id: string): seq<string> {
    var index := IndexOf(queue, id);
    if index.None? then queue else queue[..index.value] + queue[index.value + 1..]
  }

  predicate UpTo(index: nat, position: Option<nat>) {
    position.Some? && index <= position.value
  }

  /** One requested id: its bucket and the queue afterwards. */
  function Attempt(queue: seq<string>, id: string, at: Status, answer: Deletion): (Bucket, seq<string>) {
    var index := IndexOf(queue, id);
    if index.None? then (NotFound, queue)
    else if UpTo(index.value, at.currentIndex) then (SkippedPlayed, queue)
    else if UpTo(index.value, at.indexInBuffer) then (SkippedBuffered, queue)
    else match answer
      case Raises => (NotFound, queue)
      case Ignores => (SkippedBuffered, queue)
      case Deletes =>
        var after := DeleteFirst(queue, id);
        (if id in after then SkippedBuffered else Removed, after)
  }

  /** The queue after a batch, answered deletion by deletion. */
  function After(queue: seq<string>, ids: seq<string>, at: Status, answers: nat -> Deletion): seq<string> {
    if ids == [] then queue
    else
      var k := |ids| - 1;
      Attempt(After(queue, ids[..k], at, answers), ids[k], at, answers(k)).1
  }

  /** The bucket of every requested id. */
  function Buckets(queue: seq<string>, ids: seq<string>, at: Status, answers: nat -> Deletion): (r: seq<Bucket>)
    ensures |r| == |ids|
  {
    if ids == [] then []
    else
      var k := |ids| - 1;
      Buckets(queue, ids[..k], at, answers)
      + [Attempt(After(queue, ids[..k], at, answers), ids[k], at, answers(k)).0]
  }

  /** The ids of one bucket, in request order. */
  function Pick(ids: seq<string>, buckets: seq<Bucket>, b: Bucket): seq<string>
    requires |ids| == |buckets|
  {
    if ids == [] then []
    else
      var k := |ids| - 1;
      var earlier := Pick(ids[..k], buckets[..k], b);
      if buckets[k] == b then earlier + [ids[k]] else earlier
  }

  function Report(ids: seq<string>, buckets: seq<Bucket>): Answer
    requires |ids| == |buckets|
  {
    RemoveFromQueueResult(Pick(ids, buckets, Removed), Pick(ids, buckets, NotFound),
                          Pick(ids, buckets, SkippedPlayed), Pick(ids, buckets, SkippedBuffered))
  }

  /** The report with one more id in its bucket. */
  function Recorded(r: Answer, id: string, b: Bucket): Answer
    requires r.RemoveFromQueueResult?
  {
    match b
    case Removed => r.(removed := r.removed + [id])
    case NotFound => r.(notFound := r.notFound + [id])
    case SkippedPlayed => r.(skippedPlayed := r.skippedPlayed + [id])
    case SkippedBuffered => r.(skippedBuffered := r.skippedBuffered + [id])
  }

  lemma ReportStep(ids: seq<string>, buckets: seq<Bucket>)
    requires |ids| == |buckets| > 0
    ensures var k := |ids| - 1;
      Report(ids, buckets) == Recorded(Report(ids[..k], buckets[..k]), ids[k], buckets[k])
  {}

  // ---------------------------------------------------------------- the command

  /** The live queues of Music Assistant, as far as the command sees them. */
  class PlayerQueues {
    var items: map<string, seq<string>>
    const status: map<string, Status>

    constructor (items: map<string, seq<string>>, status: map<string, Status>)
      ensures this.items == items && this.status == status
    {
      this.items := items;
      this.status := status;
    }

    /** `delete_item`; false when it raises. */
    method DeleteItem(queueId: string, id: string, answer: Deletion) returns (ok: bool)
      requires queueId in items
      modifies this`items
      ensures ok == !answer.Raises?
      ensures items == if answer.Deletes? then old(items)[queueId := DeleteFirst(old(items[queueId]), id)]
                       else old(items)
    {
      ok := !answer.Raises?;
      if answer.Deletes? {
        items := items[queueId := DeleteFirst(items[queueId], id)];
      }
    }

    /** One round of the loop: the bucket of an id, and what became of the queue. */
    method RemoveItem(queueId: string, id: string, answer: Deletion) returns (bucket: Bucket)
      requires queueId in items && queueId in status
      modifies this`items
      ensures var (b, after) := Attempt(old(items[queueId]), id, status[queueId], answer);
        bucket == b && items == old(items)[queueId := after]
    {
      var at := status[queueId];
      var index := IndexOf(items[queueId], id);
      if index.None? {
        bucket := NotFound;
      } else if UpTo(index.value, at.currentIndex) {
        bucket := SkippedPlayed;
      } else if UpTo(index.value, at.indexInBuffer) {
        bucket := SkippedBuffered;
      } else {
        var ok := DeleteItem(queueId, id, answer);
        if !ok {
          bucket := NotFound;
        } else {
          bucket := if IndexOf(items[queueId], id).None? then Removed else SkippedBuffered;
        }
      }
    }

    /** `remove_items_safe`. */
    method RemoveItemsSafe(queueId: string, ids: seq<string>, answers: nat -> Deletion) returns (r: Answer)
      requires items.Keys == status.Keys
      modifies this`items
      ensures r.InvalidData? <==> ids == [] || queueId !in status
      ensures r.InvalidData? ==> items == old(items)
      ensures !r.InvalidData? ==>
        var queue, at := old(items)[queueId], status[queueId];
        && items == old(items)[queueId := After(queue, ids, at, answers)]
        && r == Report(ids, Buckets(queue, ids, at, answers))
    {
      if ids == [] {
        return InvalidData("Provide at least one queue item id");
      }
      if queueId !in status {
        return InvalidData("Queue not found");
      }
      var at := status[queueId];
      ghost var queue := items[queueId];
      r := RemoveFromQueueResult([], [], [], []);
      var i := 0;
      while i < |ids|
        invariant 0 <= i <= |ids|
        invariant items == old(items)[queueId := After(queue, ids[..i], at, answers)]
        invariant r == Report(ids[..i], Buckets(queue, ids[..i], at, answers))
      {
        BatchStep(queue, ids, at, answers, i);
        var bucket := RemoveItem(queueId, ids[i], answers(i));
        r := Recorded(r, ids[i], bucket);
        i := i + 1;
      }
      assert ids[..i] == ids;
    }
  }

  lemma BatchStep(queue: seq<string>, ids: seq<string>, at: Status, answers: nat -> Deletion, i: nat)
    requires i < |ids|
    ensures var (bucket, after) := Attempt(After(queue, ids[..i], at, answers), ids[i], at, answers(i));
      && After(queue, ids[..i + 1], at, answers) == after
      && Buckets(queue, ids[..i + 1], at, answers) == Buckets(queue, ids[..i], at, answers) + [bucket]
      && Report(ids[..i + 1], Buckets(queue, ids[..i + 1], at, answers))
         == Recorded(Report(ids[..i], Buckets(queue, ids[..i], at, answers)), ids[i], bucket)
  {
    var more := ids[..i + 1];
    assert more[..i] == ids[..i] && more[i] == ids[i];
    var buckets := Buckets(queue, more, at, answers);
    assert buckets[..i] == Buckets(queue, ids[..i], at, answers);
    ReportStep(more, buckets);
  }

  // ---------------------------------------------------------------- what a batch keeps

  /** Every request is in exactly one bucket: together the buckets hold the requests, as often as
      they were made. */
  lemma {:induction false} BucketsShareOut(ids: seq<string>, buckets: seq<Bucket>)
    requires |ids| == |buckets|
    ensures multiset(ids) == multiset(Pick(ids, buckets, Removed)) + multiset(Pick(ids, buckets, NotFound))
         + multiset(Pick(ids, buckets, SkippedPlayed)) + multiset(Pick(ids, buckets, SkippedBuffered))
  {
    if ids != [] {
      var k := |ids| - 1;
      BucketsShareOut(ids[..k], buckets[..k]);
      assert ids == ids[..k] + [ids[k]];
    }
  }

  lemma {:induction false} PickedBy(ids: seq<string>, buckets: seq<Bucket>, b: Bucket, id: string)
    requires |ids| == |buckets|
    ensures id in Pick(ids, buckets, b) <==> exists i | 0 <= i < |ids| :: ids[i] == id && buckets[i] == b
  {
    if ids != [] {
      var k := |ids| - 1;
      PickedBy(ids[..k], buckets[..k], b, id);
      if i :| 0 <= i < |ids| && ids[i] == id && buckets[i] == b {
        if i < k {
          assert ids[..k][i] == id && buckets[..k][i] == b;
        }
      }
    }
  }

  /** How many leading items are played, playing or buffered. */
  function Protected(at: Status): nat {
    var played := if at.currentIndex.Some? then at.currentIndex.value + 1 else 0;
    var buffered := if at.indexInBuffer.Some? then at.indexInBuffer.value + 1 else 0;
    if played > buffered then played else buffered
  }

  function Head(queue: seq<string>, n: nat): seq<string> {
    if n <= |queue| then queue[..n] else queue
  }

  /** One attempt leaves the queue alone or drops one item behind the protected ones. */
  lemma AttemptDrops(queue: seq<string>, id: string, at: Status, answer: Deletion)
    ensures var (b, after) := Attempt(queue, id, at, answer);
      && (after == queue
          || exists i | Protected(at) <= i < |queue| ::
               queue[i] == id && id !in queue[..i] && after == queue[..i] + queue[i + 1..])
      && (b == Removed ==> id !in after)
  {}

  /** Items at or before the current and the buffered position keep their position. */
  lemma {:induction false} ProtectedStay(queue: seq<string>, ids: seq<string>, at: Status, answers: nat -> Deletion)
    ensures Head(After(queue, ids, at, answers), Protected(at)) == Head(queue, Protected(at))
  {
    if ids != [] {
      var k := |ids| - 1;
      var before := After(queue, ids[..k], at, answers);
      ProtectedStay(queue, ids[..k], at, answers);
      AttemptDrops(before, ids[k], at, answers(k));
      var after := After(queue, ids, at, answers);
      if after != before {
        var i :| Protected(at) <= i < |before| && after == before[..i] + before[i + 1..];
        assert after[..Protected(at)] == before[..Protected(at)];
      }
    }
  }

  /** What is kept of a sequence, in order. */
  ghost predicate Within(part: seq<string>, whole: seq<string>)
    decreases |whole|
  {
    part == whole || (whole != [] && Within(part, whole[1..]))
    || (part != [] && whole != [] && part[0] == whole[0] && Within(part[1..], whole[1..]))
  }

  lemma {:induction false} WithinDrop(s: seq<string>, i: nat)
    requires i < |s|
    ensures Within(s[..i] + s[i + 1..], s)
  {
    var part := s[..i] + s[i + 1..];
    if i == 0 {
      assert part == s[1..];
    } else {
      WithinDrop(s[1..], i - 1);
      assert part[1..] == s[1..][..i - 1] + s[1..][i..];
    }
  }

  lemma {:induction false} WithinTransitive(a: seq<string>, b: seq<string>, c: seq<string>)
    requires Within(a, b) && Within(b, c)
    ensures Within(a, c)
    decreases |b| + |c|
  {
    if a == b || b == c {
    } else if Within(b, c[1..]) {
      WithinTransitive(a, b, c[1..]);
    } else if Within(a, b[1..]) {
      WithinTransitive(a, b[1..], c[1..]);
    } else {
      WithinTransitive(a[1..], b[1..], c[1..]);
    }
  }

  /** Survivors keep their order: a batch only leaves items out. */
  lemma {:induction false} SurvivorsKeepOrder(queue: seq<string>, ids: seq<string>, at: Status,
                                              answers: nat -> Deletion)
    ensures Within(After(queue, ids, at, answers), queue)
  {
    if ids != [] {
      var k := |ids| - 1;
      var before, after := After(queue, ids[..k], at, answers), After(queue, ids, at, answers);
      SurvivorsKeepOrder(queue, ids[..k], at, answers);
      AttemptDrops(before, ids[k], at, answers(k));
      if after != before {
        var i :| Protected(at) <= i < |before| && after == before[..i] + before[i + 1..];
        WithinDrop(before, i);
        WithinTransitive(after, before, queue);
      }
    }
  }

  /** Every id reported as removed is absent afterwards, whatever the later requests did. */
  lemma {:induction false} RemovedAreAbsent(queue: seq<string>, ids: seq<string>, at: Status,
                                            answers: nat -> Deletion, id: string)
    requires id in Pick(ids, Buckets(queue, ids, at, answers), Removed)
    ensures id !in After(queue, ids, at, answers)
  {
    var k := |ids| - 1;
    var before := After(queue, ids[..k], at, answers);
    assert Buckets(queue, ids, at, answers)[..k] == Buckets(queue, ids[..k], at, answers);
    AttemptDrops(before, ids[k], at, answers(k));
    if id in Pick(ids[..k], Buckets(queue, ids[..k], at, answers), Removed) {
      RemovedAreAbsent(queue, ids[..k], at, answers, id);
    }
  }

  /** The played bucket is decided by the queue as it was before the batch: deletions shift nothing
      into or out of the played part. */
  lemma {:induction false} PlayedAsBefore(queue: seq<string>, ids: seq<string>, at: Status,
                                          answers: nat -> Deletion, i: nat)
    requires i < |ids|
    ensures Buckets(queue, ids, at, answers)[i] == SkippedPlayed
       <==> at.currentIndex.Some? && ids[i] in Head(queue, at.currentIndex.value + 1)
  {
    var k := |ids| - 1;
    if i < k {
      PlayedAsBefore(queue, ids[..k], at, answers, i);
    } else {
      var before := After(queue, ids[..k], at, answers);
      ProtectedStay(queue, ids[..k], at, answers);
      PlayedAttempt(before, queue, ids[k], at, answers(k));
      assert Buckets(queue, ids, at, answers)[k] == Attempt(before, ids[k], at, answers(k)).0;
    }
  }

  lemma PlayedAttempt(before: seq<string>, queue: seq<string>, id: string, at: Status, answer: Deletion)
    requires Head(before, Protected(at)) == Head(queue, Protected(at))
    ensures Attempt(before, id, at, answer).0 == SkippedPlayed
       <==> at.currentIndex.Some? && id in Head(queue, at.currentIndex.value + 1)
  {
    if at.currentIndex.Some? {
      var played := at.currentIndex.value + 1;
      HeadOfHead(before, played, Protected(at));
      HeadOfHead(queue, played, Protected(at));
      FirstInHead(before, id, played);
    }
  }

  lemma HeadOfHead(s: seq<string>, m: nat, n: nat)
    requires m <= n
    ensures Head(Head(s, n), m) == Head(s, m)
  {}

  lemma FirstInHead(s: seq<string>, id: string, n: nat)
    ensures id in Head(s, n) <==> IndexOf(s, id).Some? && IndexOf(s, id).value < n
  {
    var index := IndexOf(s, id);
    if index.Some? && index.value >= n {
      assert n <= |s|;
      assert s[..index.value][..n] == s[..n];
    } else if index.Some? {
      assert Head(s, n)[index.value] == id;
    }
  }

  // ---------------------------------------------------------------- nothing else is lost

  function Without(queue: seq<string>, gone: seq<string>): seq<string> {
    if queue == [] then []
    else
      var rest := Without(queue[1..], gone);
      if queue[0] in gone then rest else [queue[0]] + rest
  }

  ghost predicate Distinct(queue: seq<string>) {
    queue == [] || (queue[0] !in queue[1..] && Distinct(queue[1..]))
  }

  lemma {:induction false} WithoutNothing(queue: seq<string>)
    ensures Without(queue, []) == queue
  {
    if queue != [] {
      WithoutNothing(queue[1..]);
    }
  }

  /** Leaving out one id after others. */
  lemma {:induction false} WithoutTwice(queue: seq<string>, gone: seq<string>, id: string)
    ensures Without(Without(queue, gone), [id]) == Without(queue, gone + [id])
  {
    if queue != [] {
      WithoutTwice(queue[1..], gone, id);
      assert queue[0] in gone + [id] <==> queue[0] in gone || queue[0] == id;
      assert [queue[0]] + Without(queue[1..], gone) != [];
    }
  }

  lemma {:induction false} WithoutAbsent(queue: seq<string>, id: string)
    requires id !in queue
    ensures Without(queue, [id]) == queue
  {
    if queue != [] {
      WithoutAbsent(queue[1..], id);
    }
  }

  lemma {:induction false} WithoutLacks(queue: seq<string>, id: string)
    ensures id !in Without(queue, [id])
    ensures forall x | x in Without(queue, [id]) :: x in queue
  {
    if queue != [] {
      WithoutLacks(queue[1..], id);
    }
  }

  /** With distinct ids, dropping the first item with an id leaves the id out. */
  lemma {:induction false} DropIsWithout(queue: seq<string>, id: string)
    requires Distinct(queue) && id in queue
    ensures DeleteFirst(queue, id) == Without(queue, [id])
  {
    if queue[0] == id {
      WithoutAbsent(queue[1..], id);
      assert queue[..0] + queue[1..] == queue[1..];
    } else {
      DropIsWithout(queue[1..], id);
      var later := IndexOf(queue[1..], id).value;
      assert IndexOf(queue, id) == Some(later + 1);
      assert queue[..later + 1] + queue[later + 2..] == [queue[0]] + (queue[1..][..later] + queue[1..][later + 1..]);
    }
  }

  lemma {:induction false} WithoutDistinct(queue: seq<string>, id: string)
    requires Distinct(queue)
    ensures Distinct(Without(queue, [id]))
  {
    if queue != [] {
      WithoutDistinct(queue[1..], id);
      WithoutLacks(queue[1..], id);
      var rest := Without(queue[1..], [id]);
      assert ([queue[0]] + rest)[1..] == rest;
    }
  }

  /** With distinct ids an attempt changes the queue exactly when it reports a removal. */
  lemma DistinctAttempt(queue: seq<string>, id: string, at: Status, answer: Deletion)
    requires Distinct(queue)
    ensures var (b, after) := Attempt(queue, id, at, answer);
      after == (if b == Removed then Without(queue, [id]) else queue) && Distinct(after)
  {
    if id in queue {
      DropIsWithout(queue, id);
      WithoutLacks(queue, id);
      WithoutDistinct(queue, id);
    }
  }

  /** With distinct ids the batch removes exactly what it reports as removed: the queue afterwards
      is the queue before without the removed bucket. */
  lemma {:induction false} ExactlyTheRemovedGo(queue: seq<string>, ids: seq<string>, at: Status,
                                               answers: nat -> Deletion)
    requires Distinct(queue)
    ensures Distinct(After(queue, ids, at, answers))
    ensures After(queue, ids, at, answers)
         == Without(queue, Pick(ids, Buckets(queue, ids, at, answers), Removed))
  {
    if ids == [] {
      WithoutNothing(queue);
    } else {
      var k := |ids| - 1;
      assert Buckets(queue, ids, at, answers)[..k] == Buckets(queue, ids[..k], at, answers);
      ExactlyTheRemovedGo(queue, ids[..k], at, answers);
      DistinctAttempt(After(queue, ids[..k], at, answers), ids[k], at, answers(k));
      WithoutTwice(queue, Pick(ids[..k], Buckets(queue, ids[..k], at, answers), Removed), ids[k]);
    }
  }
}
