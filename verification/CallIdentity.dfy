/** One run that shows what the seal does not promise: authentication is switched off while a call waits,
    and the handler is entered as the caller of before, without the target that was confirmed. */
module CallIdentity {
  import opened Wrappers
  import opened Policy
  import opened Preflight
  import opened CallProtocol

  const CALLER := Auth(Token("bearer", "client"), "owner")
  const GUEST := "guest"
  const CONFIRMED := {Impersonation}

  /** A server that requires authentication, on which the caller may act for the guest. */
  function Before(e: Entry, p: Snapshot): World {
    World(true, Some(CALLER.token), (t, u) => true, u => true, map[e.command := e.handler], h => true,
          (c, h) => e.decision, (u, h) => true, u => true, u => true, b => p, p, (d, pre) => Ok(pre),
          false, Some(e), true, Some(CALLER), Some(GUEST), Ok(EMPTY), Accept, Returned)
  }

  /** The same server after authentication was switched off and every user disabled. */
  function After(e: Entry, p: Snapshot): World {
    World(false, None, (t, u) => false, u => false, map[e.command := e.handler], h => true,
          (c, h) => e.decision, (u, h) => false, u => false, u => false, b => p, p, (d, pre) => Ok(pre),
          false, Some(e), true, None, None, Ok(EMPTY), Refuse, Returned)
  }

  ghost predicate Impersonable(e: Entry, p: Snapshot) {
    && e.allowImpersonation
    && EffectiveMode(e.decision, p, {}) == Allow
    && ConfirmationEvidence(e.decision, p, {}, true) == CONFIRMED
  }

  /** The call as authorized, and as entered. */
  function Asked(e: Entry, p: Snapshot): Invocation {
    Invocation(e, Some(CALLER), Some(GUEST), EMPTY, p)
  }

  function Sealed(e: Entry, p: Snapshot): Invocation {
    Invocation(e, Some(CALLER), None, EMPTY, p)
  }

  function At(pc: Pc, e: Entry, evidence: set<Reason>, log: seq<Event>): State {
    State(pc, Some(GUEST), Some(e), evidence, log)
  }

  function FullLog(e: Entry, p: Snapshot): seq<Event> {
    var w, inv := Before(e, p), Asked(e, p);
    [Permitted(inv, w), Prompted(CONFIRMED), Accepted(CONFIRMED, w), Permitted(inv, w),
     Rechecked(EMPTY, After(e, p)), Entered(Sealed(e, p), inv, EMPTY, None, After(e, p))]
  }

  lemma Authorizes(s: State, e: Entry, p: Snapshot, round: nat)
    requires Impersonable(e, p) && s.requested == Some(GUEST) && s.compiled == Some(e)
    ensures Authorize(s, Before(e, p), round, e, Some(CALLER)) == s.(pc := Resolving(round, e, Some(CALLER)))
  {}

  lemma Resolves(s: State, e: Entry, p: Snapshot, round: nat)
    ensures Resolved(s, Before(e, p), round, e, Some(CALLER))
         == s.(pc := Preflighting(round, e, Some(CALLER), Some(GUEST)))
  {}

  lemma Preflights(s: State, e: Entry, p: Snapshot, round: nat)
    requires Impersonable(e, p) && s.requested == Some(GUEST) && s.compiled == Some(e)
    ensures Preflighted(s, Before(e, p), round, e, Some(CALLER), Some(GUEST))
         == Proceed(Log(s, Permitted(Asked(e, p), Before(e, p))), Before(e, p), round, Asked(e, p))
  {}

  lemma Seals(s: State, e: Entry, p: Snapshot)
    requires Impersonable(e, p) && s.requested == Some(GUEST) && s.compiled == Some(e) && s.evidence == CONFIRMED
    ensures Seal(s, After(e, p), Asked(e, p), EMPTY, None, None)
         == Log(s, Entered(Sealed(e, p), Asked(e, p), EMPTY, None, After(e, p))).(pc := Executing(Sealed(e, p)))
  {
    assert Evidence(s, Sealed(e, p)) == CONFIRMED;
  }

  /** n moments of one world, then another world. */
  function Trace(w: World, n: nat, last: World): seq<World> {
    if n == 0 then [last] else [w] + Trace(w, n - 1, last)
  }

  lemma TwoSteps(s: State, w: World, n: nat, last: World)
    requires n >= 2
    ensures Run(s, Trace(w, n, last)) == Run(Step(Step(s, w), w), Trace(w, n - 2, last))
  {
    OneStep(s, w, n, last);
    OneStep(Step(s, w), w, n - 1, last);
  }

  lemma OneStep(s: State, w: World, n: nat, last: World)
    requires n >= 1
    ensures Run(s, Trace(w, n, last)) == Run(Step(s, w), Trace(w, n - 1, last))
  {
    assert Trace(w, n, last)[1..] == Trace(w, n - 1, last);
  }

  lemma LastStep(s: State, w: World, last: World)
    ensures Run(s, Trace(w, 0, last)) == Step(s, last)
  {
    assert [last][1..] == [];
  }

  /** Three steps to the first question for the target. */
  lemma Opens(e: Entry, p: Snapshot)
    requires Impersonable(e, p)
    ensures Step(Step(Step(Start(Some(GUEST)), Before(e, p)), Before(e, p)), Before(e, p))
         == At(Resolving(1, e, Some(CALLER)), e, {}, [])
  {
    var w := Before(e, p);
    var s := Start(Some(GUEST));
    assert Step(s, w) == s.(pc := Viewing(Some(e)));
    assert Step(Step(s, w), w) == At(Authenticating(e), e, {}, []);
    Authorizes(At(Authenticating(e), e, {}, []), e, p, 1);
  }

  /** Two steps from the target to the prompt, or to the seal. */
  lemma Asks(e: Entry, p: Snapshot)
    requires Impersonable(e, p)
    ensures Step(Step(At(Resolving(1, e, Some(CALLER)), e, {}, []), Before(e, p)), Before(e, p))
         == At(Asking(1, Asked(e, p)), e, {}, FullLog(e, p)[..2])
  {
    var s, log := At(Resolving(1, e, Some(CALLER)), e, {}, []), FullLog(e, p);
    Resolves(s, e, p, 1);
    var t := s.(pc := Preflighting(1, e, Some(CALLER), Some(GUEST)));
    Preflights(t, e, p, 1);
    LogPrefix(log, 0);
    LogPrefix(log, 1);
    assert Evidence(Log(t, log[0]), Asked(e, p)) == CONFIRMED;
    assert Log(t, log[0]).log == log[..1];
  }

  lemma Answers(e: Entry, p: Snapshot)
    requires Impersonable(e, p)
    ensures Step(Step(At(Asking(1, Asked(e, p)), e, {}, FullLog(e, p)[..2]), Before(e, p)), Before(e, p))
         == At(Resolving(2, e, Some(CALLER)), e, CONFIRMED, FullLog(e, p)[..3])
  {
    var s, log := At(Asking(1, Asked(e, p)), e, {}, FullLog(e, p)[..2]), FullLog(e, p);
    LogPrefix(log, 2);
    assert Evidence(s, Asked(e, p)) == CONFIRMED && {} + CONFIRMED == CONFIRMED;
    var t := At(Reauthenticating(2, Asked(e, p)), e, CONFIRMED, log[..3]);
    assert Step(s, Before(e, p)) == t;
    Authorizes(t, e, p, 2);
  }

  lemma Settles(e: Entry, p: Snapshot)
    requires Impersonable(e, p)
    ensures Step(Step(At(Resolving(2, e, Some(CALLER)), e, CONFIRMED, FullLog(e, p)[..3]), Before(e, p)), Before(e, p))
         == At(FinalPreflighting(Asked(e, p)), e, CONFIRMED, FullLog(e, p)[..4])
  {
    var s, log := At(Resolving(2, e, Some(CALLER)), e, CONFIRMED, FullLog(e, p)[..3]), FullLog(e, p);
    Resolves(s, e, p, 2);
    var t := s.(pc := Preflighting(2, e, Some(CALLER), Some(GUEST)));
    Preflights(t, e, p, 2);
    LogPrefix(log, 3);
    assert Evidence(Log(t, log[3]), Asked(e, p)) == CONFIRMED;
  }

  lemma Enters(e: Entry, p: Snapshot)
    requires Impersonable(e, p)
    ensures Step(At(FinalPreflighting(Asked(e, p)), e, CONFIRMED, FullLog(e, p)[..4]), After(e, p))
         == At(Executing(Sealed(e, p)), e, CONFIRMED, FullLog(e, p))
  {
    var log := FullLog(e, p);
    LogPrefix(log, 4);
    LogPrefix(log, 5);
    assert log[..6] == log;
    Seals(At(FinalPreflighting(Asked(e, p)), e, CONFIRMED, log[..5]), e, p);
  }

  lemma TenSteps(e: Entry, p: Snapshot, w: World, last: World)
    requires Impersonable(e, p) && w == Before(e, p) && last == After(e, p)
    ensures Run(Start(Some(GUEST)), Trace(w, 9, last)) == At(Executing(Sealed(e, p)), e, CONFIRMED, FullLog(e, p))
  {
    var s := Start(Some(GUEST));
    OneStep(s, w, 9, last);
    TwoSteps(Step(s, w), w, 8, last);
    Opens(e, p);
    TwoSteps(At(Resolving(1, e, Some(CALLER)), e, {}, []), w, 6, last);
    Asks(e, p);
    TwoSteps(At(Asking(1, Asked(e, p)), e, {}, FullLog(e, p)[..2]), w, 4, last);
    Answers(e, p);
    TwoSteps(At(Resolving(2, e, Some(CALLER)), e, CONFIRMED, FullLog(e, p)[..3]), w, 2, last);
    Settles(e, p);
    LastStep(At(FinalPreflighting(Asked(e, p)), e, CONFIRMED, FullLog(e, p)[..4]), w, last);
    Enters(e, p);
  }

  /** When authentication is switched off after the last confirmation, the handler is entered as the
      earlier caller although that user is disabled by then, and without the confirmed target. */
  lemma SwitchedOffSealEntersUnchecked(e: Entry, p: Snapshot)
    requires e.allowImpersonation && EffectiveMode(e.decision, p, {}) == Allow
    ensures var s := Run(Start(Some(GUEST)), Trace(Before(e, p), 9, After(e, p)));
      && |s.log| == 6 && s.log[5].Entered?
      && s.log[5].renewed.None? && !s.log[5].w.authRequired
      && s.log[5].inv.auth == s.log[5].earlier.auth == Some(CALLER) && !s.log[5].w.enabled(CALLER.user)
      && s.log[5].earlier.target == Some(GUEST) && s.log[5].inv.target == None
  {
    AuthorizedEvidence(e.decision, p, {}, true);
    EvidenceSuffices(e.decision, p, {});
    TenSteps(e, p, Before(e, p), After(e, p));
  }
}
