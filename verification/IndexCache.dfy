/** A value built once for many concurrent callers: the search index and the base snapshot. Both
    have a fast path without the lock, and a locked path that checks again before it builds. Every
    interleaving of the callers' steps is a trace. */
module IndexCache {
  import opened Wrappers

  type Fingerprint = nat

  /** What is cached, and the registry fingerprint it was built from. */
  datatype Index = Index(fingerprint: Fingerprint)

  /** Where one caller stands; `own` is the fingerprint it needs. */
  datatype Caller =
    | Waiting(own: Fingerprint)
    | Building(own: Fingerprint)
    | Done(own: Fingerprint, index: Index)
    | Failed(own: Fingerprint)

  /** `_index_for` builds for the snapshot its caller came with; `base_snapshot` captures the live
      registry once more when it has the lock. */
  datatype Kind = SearchIndex | BaseSnapshot

  /** The cached value, the lock's holder, the callers, and how often there was a build. The
      fingerprints of all builds so far are kept for the proofs. */
  datatype Service = Service(
    kind: Kind,
    index: Option<Index>,
    holder: Option<nat>,
    callers: seq<Caller>,
    indexBuildCount: nat,
    builds: seq<Fingerprint>)

  /** What can happen between two awaits. */
  datatype Event =
    | Arrive(own: Fingerprint)                    // a caller comes with a fingerprint
    | Acquire(caller: nat, capture: Fingerprint)  // a waiting caller gets the lock and checks again
    | Finish(caller: nat)                         // the build under the lock returns
    | Abort(caller: nat)                          // a build raises, or a caller is cancelled

  function Start(kind: Kind): Service {
    Service(kind, None, None, [], 0, [])
  }

  predicate Current(s: Service, own: Fingerprint) {
    s.index == Some(Index(own))
  }

  /** One atomic stretch of one caller; None when the event cannot happen now. */
  function Step(s: Service, e: Event): Option<Service> {
    match e
    case Arrive(own) =>
      Some(s.(callers := s.callers + [if Current(s, own) then Done(own, s.index.value) else Waiting(own)]))
    case Acquire(i, capture) =>
      if i >= |s.callers| || !s.callers[i].Waiting? || s.holder.Some? then None
      else if s.kind == SearchIndex && capture != s.callers[i].own then None
      else if Current(s, capture) then Some(s.(callers := s.callers[i := Done(capture, s.index.value)]))
      else Some(s.(callers := s.callers[i := Building(capture)], holder := Some(i)))
    case Finish(i) =>
      if i >= |s.callers| || !s.callers[i].Building? then None
      else
        var own := s.callers[i].own;
        var built := Index(own);
        Some(Service(s.kind, Some(built), None, s.callers[i := Done(own, built)],
                     s.indexBuildCount + 1, s.builds + [own]))
    case Abort(i) =>
      if i >= |s.callers| then None
      else match s.callers[i]
        case Waiting(own) => Some(s.(callers := s.callers[i := Failed(own)]))
        case Building(own) => Some(s.(callers := s.callers[i := Failed(own)], holder := None))
        case _ => None
  }

  function Run(s: Service, trace: seq<Event>): Option<Service>
    decreases |trace|
  {
    if trace == [] then Some(s)
    else
      var before := Run(s, trace[..|trace| - 1]);
      if before.None? then None else Step(before.value, trace[|trace| - 1])
  }

  // ---------------------------------------------------------------- what every interleaving keeps

  /** Builds never overlap: a caller is building exactly when it holds the lock. */
  ghost predicate BuildsAlone(s: Service) {
    && (forall i | 0 <= i < |s.callers| :: s.callers[i].Building? <==> s.holder == Some(i))
    && (s.holder.Some? ==> s.holder.value < |s.callers|)
  }

  /** Whoever is done got a value built from its own fingerprint. */
  ghost predicate OwnIndex(s: Service) {
    forall i | 0 <= i < |s.callers| :: s.callers[i].Done? ==> s.callers[i].index.fingerprint == s.callers[i].own
  }

  /** Nobody builds for a fingerprint that is already current. */
  ghost predicate NoRepeat(s: Service) {
    forall i | 0 <= i < |s.callers| :: s.callers[i].Building? ==> !Current(s, s.callers[i].own)
  }

  /** The current value is the last one built, the count is the number of builds, and no two
      builds in a row were for the same fingerprint. */
  ghost predicate BuildHistory(s: Service) {
    && s.indexBuildCount == |s.builds|
    && s.index == (if s.builds == [] then None else Some(Index(s.builds[|s.builds| - 1])))
    && (forall k | 1 <= k < |s.builds| :: s.builds[k - 1] != s.builds[k])
  }

  ghost predicate Sound(s: Service) {
    BuildsAlone(s) && OwnIndex(s) && NoRepeat(s) && BuildHistory(s)
  }

  lemma StepKeepsSound(s: Service, e: Event)
    requires Sound(s) && Step(s, e).Some?
    ensures Sound(Step(s, e).value)
  {
    var t := Step(s, e).value;
    match e {
      case Arrive(own) =>
        assert forall j | 0 <= j < |s.callers| :: t.callers[j] == s.callers[j];
      case Acquire(i, capture) =>
        assert forall j | 0 <= j < |s.callers| :: j != i ==> t.callers[j] == s.callers[j];
      case Finish(i) =>
        assert s.holder == Some(i);
        assert !Current(s, s.callers[i].own);
        assert forall j | 0 <= j < |s.callers| :: j != i ==> t.callers[j] == s.callers[j];
      case Abort(i) =>
        assert forall j | 0 <= j < |s.callers| :: j != i ==> t.callers[j] == s.callers[j];
    }
  }

  /** For any interleaving of any number of callers over changing fingerprints: builds never
      overlap, whoever ends has a value of its own fingerprint, and none builds for a fingerprint
      that is already current. */
  lemma {:induction false} EveryInterleavingIsSound(kind: Kind, trace: seq<Event>)
    requires Run(Start(kind), trace).Some?
    ensures Sound(Run(Start(kind), trace).value)
    decreases |trace|
  {
    if trace != [] {
      EveryInterleavingIsSound(kind, trace[..|trace| - 1]);
      StepKeepsSound(Run(Start(kind), trace[..|trace| - 1]).value, trace[|trace| - 1]);
    }
  }

  /** A failed or cancelled build leaves the value as it was and the lock free, so that whoever
      waits can go on; until then nobody else gets the lock. */
  lemma AbortLeavesIndexUsable(s: Service, i: nat, j: nat)
    requires Sound(s) && i < |s.callers| && s.callers[i].Building?
    requires j < |s.callers| && s.callers[j].Waiting?
    ensures Step(s, Acquire(j, s.callers[j].own)).None?
    ensures var t := Step(s, Abort(i));
      t.Some? && t.value.index == s.index && t.value.builds == s.builds
      && t.value.holder.None? && Step(t.value, Acquire(j, s.callers[j].own)).Some?
  {}

  /** Nobody waits for nothing: a waiting caller can take the lock, or somebody holds it who can
      both finish and fail. */
  lemma WaitingMeansProgress(s: Service, j: nat) returns (e: Event)
    requires Sound(s) && j < |s.callers| && s.callers[j].Waiting?
    ensures Step(s, e).Some?
    ensures e == Acquire(j, s.callers[j].own) || (s.holder.Some? && e == Finish(s.holder.value))
  {
    e := if s.holder.None? then Acquire(j, s.callers[j].own) else Finish(s.holder.value);
  }

  // ---------------------------------------------------------------- whose index

  function Arrivals(trace: seq<Event>): seq<Fingerprint>
    decreases |trace|
  {
    if trace == [] then []
    else
      var last := trace[|trace| - 1];
      Arrivals(trace[..|trace| - 1]) + if last.Arrive? then [last.own] else []
  }

  ghost predicate Own(s: Service, arrivals: seq<Fingerprint>) {
    && |s.callers| == |arrivals|
    && (s.kind == SearchIndex ==> forall i | 0 <= i < |arrivals| :: s.callers[i].own == arrivals[i])
  }

  /** So a search that is done ranks with an index of the very snapshot it came with, whatever
      other searches built meanwhile. */
  lemma {:induction false} SearchesRankTheirOwnSnapshot(trace: seq<Event>)
    requires Run(Start(SearchIndex), trace).Some?
    ensures var s := Run(Start(SearchIndex), trace).value;
      && s.kind == SearchIndex && Own(s, Arrivals(trace))
      && forall i | 0 <= i < |s.callers| :: s.callers[i].Done? ==> s.callers[i].index == Index(Arrivals(trace)[i])
    decreases |trace|
  {
    if trace != [] {
      SearchesRankTheirOwnSnapshot(trace[..|trace| - 1]);
      EveryInterleavingIsSound(SearchIndex, trace);
    }
  }

  /** The fingerprint an event brings in, if any. */
  predicate Brings(e: Event, own: Fingerprint) {
    match e
    case Arrive(f) => f == own
    case Acquire(_, f) => f == own
    case _ => true
  }

  ghost predicate AllFor(s: Service, own: Fingerprint) {
    && (forall k | 0 <= k < |s.builds| :: s.builds[k] == own)
    && (forall i | 0 <= i < |s.callers| :: s.callers[i].own == own)
  }

  /** While every caller brings one and the same fingerprint there is at most one build, however
      many callers there are, fail, or are cancelled. */
  lemma {:induction false} OneBuildPerGeneration(kind: Kind, trace: seq<Event>, own: Fingerprint)
    requires Run(Start(kind), trace).Some?
    requires forall k | 0 <= k < |trace| :: Brings(trace[k], own)
    ensures AllFor(Run(Start(kind), trace).value, own)
    ensures Run(Start(kind), trace).value.indexBuildCount <= 1
    decreases |trace|
  {
    if trace != [] {
      var shorter := trace[..|trace| - 1];
      assert forall k | 0 <= k < |shorter| :: shorter[k] == trace[k];
      OneBuildPerGeneration(kind, shorter, own);
      EveryInterleavingIsSound(kind, trace);
      StepKeepsAllFor(Run(Start(kind), shorter).value, trace[|trace| - 1], own);
      FirstTwo(Run(Start(kind), trace).value.builds, own);
    }
  }

  lemma FirstTwo(builds: seq<Fingerprint>, own: Fingerprint)
    requires forall k | 0 <= k < |builds| :: builds[k] == own
    ensures |builds| > 1 ==> builds[0] == own == builds[1]
  {}

  lemma StepKeepsAllFor(s: Service, e: Event, own: Fingerprint)
    requires AllFor(s, own) && Brings(e, own) && Step(s, e).Some?
    ensures AllFor(Step(s, e).value, own)
  {}
}
