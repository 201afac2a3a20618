/** Statements about whole runs of the call protocol: the seal against classification, calls that never
    prompt, and one call that prompts and is executed. */
module CallRuns {
  import opened Wrappers
  import opened Policy
  import opened CommandPolicy
  import opened Preflight
  import opened CallProtocol

  // ---------------------------------------------------------------- the seal and classification

  /** A world that classifies a command by the tables, under whatever scope its handler has. */
  predicate Classifies(w: World, e: Entry, folded: string, scope: Scope, profile: Option<CommandProfile>) {
    w.decide(e.command, e.handler) == ResolveCommandPolicy(e.command, folded, scope, profile)
  }

  /** A world that revalidates preflight by kind, from the configuration's answers at that moment. */
  ghost predicate Revalidates(w: World, a: Answers) {
    forall d, pre :: w.revalidate(d, pre) == RevalidateSync(d.preflight, a, pre)
  }

  /** The seal revalidates under the decision of the earlier authorization and judges under the live one.
      They may differ in scope and capabilities but never in the preflight kind, so the sealed preflight is
      the live decision's own. */
  lemma SealedPreflightIsLive(inv: Invocation, earlier: Invocation, found: CommandPreflight, w: World, w0: World,
                              compiled: Entry, folded: string, scope: Scope, scope0: Scope,
                              profile: Option<CommandProfile>, a: Answers)
    requires SealHolds(inv, earlier, found, w, compiled) && PermissionHolds(earlier, w0, compiled)
    requires Classifies(w, compiled, folded, scope, profile) && Classifies(w0, compiled, folded, scope0, profile)
    requires Revalidates(w, a)
    ensures RevalidateSync(inv.entry.decision.preflight, a, found) == Ok(inv.preflight)
    ensures inv.entry.decision.preflight == earlier.entry.decision.preflight
  {
    NotDenied(inv.entry.decision, inv.policy, inv.preflight.additional);
    NotDenied(earlier.entry.decision, earlier.policy, earlier.preflight.additional);
    OneKindPerCommand(compiled.command, folded, scope, profile, scope0, profile);
  }

  lemma NotDenied(d: CommandDecision, p: Snapshot, additional: set<Capability>)
    requires EffectiveMode(d, p, additional) != Deny
    ensures !d.hardDenied
  {}

  // ---------------------------------------------------------------- an advertised allow

  /** A moment at which the command is advertised as allowed under one policy, and preflight answers with
      no more than its decision declares. */
  ghost predicate Quiet(w: World, e: Entry, p: Snapshot) {
    var d := w.decide(e.command, e.handler);
    && w.defaultPolicy == p && (forall b :: w.bearerPolicy(b) == p)
    && (w.found.Some? ==> w.found.value == e)
    && CatalogMode(d, e.allowImpersonation, p) == Allow
    && (w.preflight.Ok? ==> w.preflight.value.additional <= Declared(d))
  }

  /** A moment of a server that classifies by the tables, under any scope, and answers preflight by the
      command's kind from any configuration; the command is advertised as allowed under one policy. */
  ghost predicate Tabled(w: World, e: Entry, p: Snapshot, folded: string, profile: Option<CommandProfile>) {
    && w.defaultPolicy == p && (forall b :: w.bearerPolicy(b) == p)
    && (w.found.Some? ==> w.found.value == e)
    && CatalogMode(w.decide(e.command, e.handler), e.allowImpersonation, p) == Allow
    && (exists scope :: Classifies(w, e, folded, scope, profile))
    && (exists a :: w.preflight == PreflightCommand(CommandKind(e.command), a))
  }

  /** Preflight may run under the decision of an earlier scope; in such a world it still finds no more than
      the live decision declares, for every command but the favorite write. */
  lemma PreflightStaysDeclared(w: World, e: Entry, p: Snapshot, folded: string, profile: Option<CommandProfile>)
    requires Tabled(w, e, p, folded, profile) && CommandKind(e.command) != FavoriteClear
    ensures Quiet(w, e, p)
  {
    var scope :| Classifies(w, e, folded, scope, profile);
    var a :| w.preflight == PreflightCommand(CommandKind(e.command), a);
    NotDenied(w.decide(e.command, e.handler), p, {});
    KindOfCommand(e.command, folded, scope, profile);
    DecisionsDeclareTheirPreflight(e.command, folded, scope, profile);
    PreflightAddsOnlyItsKind(CommandKind(e.command), a, a);
  }

  /** A call of e that has not prompted, and is not about to. */
  ghost predicate Silent(s: State, e: Entry) {
    && Prompts(s.log) == 0 && !s.pc.Asking?
    && (s.compiled.Some? ==> s.compiled.value == e)
    && (s.pc.Looking? || s.pc.Viewing? ==> s.compiled.None?)
    && (s.pc.Viewing? && s.pc.listed.Some? ==> s.pc.listed.value == e)
  }

  lemma QuietProceeds(s: State, w: World, round: nat, inv: Invocation, e: Entry, p: Snapshot)
    requires Silent(s, e) && s.compiled == Some(e) && Quiet(w, e, p) && PermissionHolds(inv, w, e)
    ensures Silent(Authorized(s, w, round, inv), e)
  {
    var t := Log(s, Permitted(inv, w));
    LogCounts(s, Permitted(inv, w));
    assert inv.policy == p;
    AdvertisedAllowNeverPrompts(inv.entry.decision, e.allowImpersonation, p, inv.preflight.additional,
                                Impersonated(t).Some?);
    assert Evidence(t, inv) == {};
    AuthorizeStill(t, w, 2, inv.entry, None);
  }

  lemma QuietPreflighted(s: State, w: World, round: nat, live: Entry, auth: Option<Auth>, target: Option<string>,
                         e: Entry, p: Snapshot)
    requires Silent(s, e) && s.compiled == Some(e) && Quiet(w, e, p)
    requires live.command == e.command && live.handler == e.handler
    ensures Silent(Preflighted(s, w, round, live, auth, target), e)
  {
    LogCounts(s, Denied);
    if w.preflight.Ok? {
      var q := RequestPolicy(w, auth);
      var now := ReauthorizeEntry(w, live, auth, q);
      if now.Ok? && (target.Some? ==> w.enabled(target.value)) && FiltersPass(w, auth, target)
         && EffectiveMode(now.value.decision, q, w.preflight.value.additional) != Deny {
        QuietProceeds(s, w, round, Invocation(now.value, auth, target, w.preflight.value, q), e, p);
      }
    }
  }

  /** From s to t nothing was prompted, nor is about to be. */
  ghost predicate Still(s: State, t: State) {
    Prompts(t.log) == Prompts(s.log) && !t.pc.Asking? && !t.pc.Viewing? && t.compiled == s.compiled
  }

  lemma AuthorizeStill(s: State, w: World, round: nat, e: Entry, auth: Option<Auth>)
    ensures Still(s, Authorize(s, w, round, e, auth))
  {
    LogCounts(s, Denied);
  }

  lemma ResolvedStill(s: State, w: World, round: nat, e: Entry, auth: Option<Auth>)
    ensures Still(s, Resolved(s, w, round, e, auth))
  {
    LogCounts(s, Denied);
  }

  lemma SealStill(s: State, w: World, inv: Invocation, pre: CommandPreflight,
                  auth: Option<Auth>, target: Option<string>)
    ensures Still(s, Seal(s, w, inv, pre, auth, target))
  {
    LogCounts(s, Denied);
    var t := Seal(s, w, inv, pre, auth, target);
    if t.pc.Executing? {
      LogCounts(s, Entered(t.pc.inv, inv, pre, auth, w));
    }
  }

  lemma FinalPreflightedStill(s: State, w: World, inv: Invocation)
    ensures Still(s, FinalPreflighted(s, w, inv))
  {
    match w.preflight
    case ToolError => LogCounts(s, Denied);
    case Ok(pre) =>
      LogCounts(s, Rechecked(pre, w));
      SealStill(Log(s, Rechecked(pre, w)), w, inv, pre, None, None);
  }

  lemma FinalAuthenticatedStill(s: State, w: World, inv: Invocation, pre: CommandPreflight)
    ensures Still(s, FinalAuthenticated(s, w, inv, pre))
  {
    SealStill(s, w, inv, pre, w.authenticated, None);
  }

  lemma FinalResolvedStill(s: State, w: World, inv: Invocation, pre: CommandPreflight, caller: Auth)
    ensures Still(s, FinalResolved(s, w, inv, pre, caller))
  {
    if w.resolved.None? {
      LogCounts(s, Denied);
    } else {
      SealStill(s, w, inv, pre, Some(caller), w.resolved);
    }
  }

  lemma RaisedStill(s: State, inv: Invocation, a: HandlerAnswer)
    ensures Still(s, Raised(s, inv, a))
  {
    LogCounts(s, Denied);
    LogCounts(s, Failed);
  }

  lemma ExecutedStill(s: State, w: World, inv: Invocation)
    ensures Still(s, Executed(s, w, inv))
  {
    LogCounts(s, HandlerReturned(w));
    RaisedStill(s, inv, w.handler);
  }

  lemma PostflightedStill(s: State, w: World, inv: Invocation)
    ensures Still(s, Postflighted(s, w, inv))
  {
    RaisedStill(s, inv, w.handler);
    LogCounts(s, PostflightPassed(w));
    LogCounts(Log(s, PostflightPassed(w)), Succeeded);
  }

  lemma VisibleSilent(s: State, w: World, listed: Option<Entry>, viewer: Option<Auth>, e: Entry)
    requires Prompts(s.log) == 0 && s.compiled.None? && (listed.Some? ==> listed.value == e)
    ensures Silent(Visible(s, w, listed, viewer), e)
  {
    AuthorizeStill(s.(compiled := Some(e)), w, 1, e, None);
  }

  lemma AuthenticatedStill(s: State, w: World, e: Entry)
    ensures Still(s, Authenticated(s, w, e))
  {
    AuthorizeStill(s, w, 1, e, w.authenticated);
  }

  lemma ReauthenticatedStill(s: State, w: World, round: nat, inv: Invocation)
    ensures Still(s, Reauthenticated(s, w, round, inv))
  {
    LogCounts(s, Denied);
    AuthorizeStill(s, w, round, inv.entry, w.authenticated);
  }

  /** Only the step after preflight could prompt. */
  lemma OtherStepsStill(s: State, w: World)
    requires !s.pc.Looking? && !s.pc.Viewing? && !s.pc.Preflighting? && !s.pc.Asking?
    ensures Still(s, Step(s, w))
  {
    if !w.abort {
      match s.pc {
        case NamingDenied => LogCounts(s, Denied);
        case Authenticating(live) => AuthenticatedStill(s, w, live);
        case Reauthenticating(round, inv) => ReauthenticatedStill(s, w, round, inv);
        case Resolving(round, live, auth) => ResolvedStill(s, w, round, live, auth);
        case FinalPreflighting(inv) => FinalPreflightedStill(s, w, inv);
        case FinalAuthenticating(inv, pre) => FinalAuthenticatedStill(s, w, inv, pre);
        case FinalResolving(inv, pre, caller) => FinalResolvedStill(s, w, inv, pre, caller);
        case Executing(inv) => ExecutedStill(s, w, inv);
        case Postflighting(inv) => PostflightedStill(s, w, inv);
        case Finished =>
      }
    }
  }

  lemma StepStaysSilent(s: State, w: World, e: Entry, p: Snapshot)
    requires Inv(s) && Silent(s, e) && Quiet(w, e, p)
    ensures Silent(Step(s, w), e)
  {
    if s.pc.Looking? {
      VisibleSilent(s, w, w.found, None, e);
    } else if s.pc.Viewing? {
      VisibleSilent(s, w, s.pc.listed, w.authenticated, e);
    } else if s.pc.Preflighting? {
      QuietPreflighted(s, w, s.pc.round, s.pc.e, s.pc.auth, s.pc.target, e, p);
    } else {
      OtherStepsStill(s, w);
    }
  }

  ghost predicate AllQuiet(worlds: seq<World>, e: Entry, p: Snapshot) {
    worlds == [] || (Quiet(worlds[0], e, p) && AllQuiet(worlds[1..], e, p))
  }

  lemma {:induction false} RunStaysSilent(s: State, worlds: seq<World>, e: Entry, p: Snapshot)
    requires Inv(s) && Silent(s, e) && AllQuiet(worlds, e, p)
    ensures Silent(Run(s, worlds), e)
    decreases |worlds|
  {
    if worlds != [] {
      StepKeepsInv(s, worlds[0]);
      StepStaysSilent(s, worlds[0], e, p);
      RunStaysSilent(Step(s, worlds[0]), worlds[1..], e, p);
    }
  }

  /** While a command stays advertised as allowed under one policy, no run of a call of it prompts. */
  lemma AdvertisedAllowRunsWithoutPrompt(requested: Option<string>, worlds: seq<World>, e: Entry, p: Snapshot)
    requires AllQuiet(worlds, e, p)
    ensures Prompts(Run(Start(requested), worlds).log) == 0
  {
    var s := Start(requested);
    StartIsSilent(s, requested, e);
    RunStaysSilent(s, worlds, e, p);
  }

  ghost predicate AllTabled(worlds: seq<World>, e: Entry, p: Snapshot, folded: string,
                            profile: Option<CommandProfile>) {
    worlds == [] || (Tabled(worlds[0], e, p, folded, profile) && AllTabled(worlds[1..], e, p, folded, profile))
  }

  lemma {:induction false} TabledRunIsQuiet(worlds: seq<World>, e: Entry, p: Snapshot, folded: string,
                                            profile: Option<CommandProfile>)
    requires AllTabled(worlds, e, p, folded, profile) && CommandKind(e.command) != FavoriteClear
    ensures AllQuiet(worlds, e, p)
  {
    if worlds != [] {
      PreflightStaysDeclared(worlds[0], e, p, folded, profile);
      TabledRunIsQuiet(worlds[1..], e, p, folded, profile);
    }
  }

  /** So no call of a command but the favorite write prompts, through whatever scopes, configurations and
      answers, as long as the tables advertise it as allowed. */
  lemma TabledAllowNeverPrompts(requested: Option<string>, worlds: seq<World>, e: Entry, p: Snapshot,
                                folded: string, profile: Option<CommandProfile>)
    requires AllTabled(worlds, e, p, folded, profile) && CommandKind(e.command) != FavoriteClear
    ensures Prompts(Run(Start(requested), worlds).log) == 0
  {
    TabledRunIsQuiet(worlds, e, p, folded, profile);
    AdvertisedAllowRunsWithoutPrompt(requested, worlds, e, p);
  }

  lemma StartIsSilent(s: State, requested: Option<string>, e: Entry)
    requires s == Start(requested)
    ensures Inv(s) && Silent(s, e)
  {}

  // ---------------------------------------------------------------- a hidden command

  /** What is entered is not hidden at that moment: the live decision and the policy of the seal give a
      catalog mode other than deny, for every decision that classification makes. */
  lemma EnteredIsNotHidden(requested: Option<string>, worlds: seq<World>, i: nat)
    requires i < |Run(Start(requested), worlds).log| && Run(Start(requested), worlds).log[i].Entered?
    requires FailClosed(Run(Start(requested), worlds).log[i].inv.entry.decision)
    ensures var s := Run(Start(requested), worlds);
      var e := s.log[i];
      && s.compiled.Some? && e.inv.entry.decision == e.w.decide(s.compiled.value.command, s.compiled.value.handler)
      && e.inv.policy == RequestPolicy(e.w, e.inv.auth)
      && CatalogMode(e.inv.entry.decision, s.compiled.value.allowImpersonation, e.inv.policy) != Deny
  {
    EveryRunIsSafe(requested, worlds);
    var s := Run(Start(requested), worlds);
    assert SafeAt(s, i);
    var inv := s.log[i].inv;
    if CatalogMode(inv.entry.decision, s.compiled.value.allowImpersonation, inv.policy) == Deny {
      HiddenNeverExecutes(inv.entry.decision, s.compiled.value.allowImpersonation, inv.policy,
                          inv.preflight.additional);
    }
  }

  /** A moment at which the command is hidden under one policy. */
  ghost predicate Hiding(w: World, e: Entry, p: Snapshot) {
    && w.defaultPolicy == p && (forall b :: w.bearerPolicy(b) == p)
    && (w.found.Some? ==> w.found.value == e)
    && CatalogMode(w.decide(e.command, e.handler), e.allowImpersonation, p) == Deny
  }

  ghost predicate AllHiding(worlds: seq<World>, e: Entry, p: Snapshot) {
    worlds == [] || (Hiding(worlds[0], e, p) && AllHiding(worlds[1..], e, p))
  }

  /** A call of a hidden command gets no further than its first authorization. */
  ghost predicate Turned(s: State, e: Entry) {
    match s.pc
    case Looking => s.log == []
    case Viewing(listed) => s.log == [] && (listed.Some? ==> listed.value == e)
    case NamingDenied => s.log == []
    case Authenticating(at) => s.log == [] && at == e
    case Finished => s.log == [] || s.log == [Denied]
    case _ => false
  }

  lemma StepStaysTurned(s: State, w: World, e: Entry, p: Snapshot)
    requires Turned(s, e) && Hiding(w, e, p)
    ensures Turned(Step(s, w), e)
  {
    if s.log == [] {
      assert Refused(s).log == [Denied];
    }
  }

  lemma {:induction false} RunStaysTurned(s: State, worlds: seq<World>, e: Entry, p: Snapshot)
    requires Turned(s, e) && AllHiding(worlds, e, p)
    ensures Turned(Run(s, worlds), e)
    decreases |worlds|
  {
    if worlds != [] {
      StepStaysTurned(s, worlds[0], e, p);
      RunStaysTurned(Step(s, worlds[0]), worlds[1..], e, p);
    }
  }

  /** While a command stays hidden under one policy, a call of it leaves one denied record at most:
      nobody is asked, and nothing is entered. */
  lemma HiddenRunsAreDenied(requested: Option<string>, worlds: seq<World>, e: Entry, p: Snapshot)
    requires AllHiding(worlds, e, p)
    ensures var log := Run(Start(requested), worlds).log; log == [] || log == [Denied]
  {
    RunStaysTurned(Start(requested), worlds, e, p);
  }

  // ---------------------------------------------------------------- a call that prompts and is executed

  const CLEARS := Requires({DeleteFavorites})
  const ASKED := {Because(DeleteFavorites)}

  /** A quiet server without authentication, on which somebody clears a favorite, accepts whatever is asked,
      and everything else goes well. */
  function FavoriteWorld(e: Entry, p: Snapshot): World {
    World(false, None, (t, u) => true, u => true, map[e.command := e.handler], h => true, (c, h) => e.decision,
          (u, h) => true, u => true, u => true, b => p, p, (d, pre) => Ok(CLEARS),
          false, Some(e), true, None, None, Ok(CLEARS), Accept, Returned)
  }

  ghost predicate ClearsFavorite(e: Entry, p: Snapshot) {
    && e.command == SET_FAVORITE && !e.allowImpersonation
    && EffectiveMode(e.decision, p, {}) == Allow
    && EffectiveMode(e.decision, p, {DeleteFavorites}) == Confirm
    && ConfirmationEvidence(e.decision, p, {DeleteFavorites}, false) == ASKED
    && e.decision == CommandDecision({EditFavorites}, FavoriteClear, {}, None, false)
  }

  function FavoriteCall(e: Entry, p: Snapshot): Invocation {
    Invocation(e, None, None, CLEARS, p)
  }

  function At(pc: Pc, e: Entry, evidence: set<Reason>, log: seq<Event>): State {
    State(pc, None, Some(e), evidence, log)
  }

  lemma FavoriteAuthorizes(s: State, e: Entry, p: Snapshot, round: nat)
    requires ClearsFavorite(e, p) && s.requested.None? && s.compiled == Some(e)
    ensures Authorize(s, FavoriteWorld(e, p), round, e, None) == s.(pc := Preflighting(round, e, None, None))
  {}

  lemma FavoriteStarts(e: Entry, p: Snapshot)
    requires ClearsFavorite(e, p)
    ensures Step(Start(None), FavoriteWorld(e, p)) == At(Preflighting(1, e, None, None), e, {}, [])
  {
    FavoriteAuthorizes(At(Looking, e, {}, []), e, p, 1);
  }

  lemma FavoritePreflights(s: State, e: Entry, p: Snapshot, round: nat)
    requires ClearsFavorite(e, p) && s.requested.None? && s.compiled == Some(e)
    ensures Preflighted(s, FavoriteWorld(e, p), round, e, None, None)
         == Proceed(Log(s, Permitted(FavoriteCall(e, p), FavoriteWorld(e, p))), FavoriteWorld(e, p), round,
                    FavoriteCall(e, p))
  {}

  lemma FavoriteSeals(s: State, e: Entry, p: Snapshot)
    requires ClearsFavorite(e, p) && s.requested.None? && s.compiled == Some(e) && s.evidence == ASKED
    ensures var w, inv := FavoriteWorld(e, p), FavoriteCall(e, p);
      Seal(s, w, inv, CLEARS, None, None) == Log(s, Entered(inv, inv, CLEARS, None, w)).(pc := Executing(inv))
  {
    assert Evidence(s, FavoriteCall(e, p)) == ASKED;
  }

  lemma {:induction false} FirstOfIn(order: seq<Capability>, from: set<Capability>, c: Capability)
    requires c in order && c in from
    ensures FirstOf(order, from).Some? && FirstOf(order, from).value in from
  {
    if order[0] !in from {
      FirstOfIn(order[1..], from, c);
    }
  }

  lemma ChangesAreAudited(inv: Invocation, c: Capability)
    requires !StartsWith(inv.entry.command, "fastmcp/")
    requires c in SORTED && c in inv.entry.decision.required + inv.preflight.additional
    requires forall x | x in inv.entry.decision.required + inv.preflight.additional :: FamilyOf(x) != Query
    ensures Audits(inv)
  {
    FirstOfIn(SORTED, inv.entry.decision.required + inv.preflight.additional, c);
  }

  lemma FavoriteNotOwn(command: string)
    requires command == SET_FAVORITE
    ensures !StartsWith(command, "fastmcp/")
  {
    assert command[0] == 'm';
  }

  lemma FavoriteAudits(e: Entry, p: Snapshot)
    requires ClearsFavorite(e, p)
    ensures Audits(FavoriteCall(e, p))
  {
    FavoriteNotOwn(e.command);
    assert SORTED[17] == EditFavorites;
    ChangesAreAudited(FavoriteCall(e, p), EditFavorites);
  }

  function Again(s: State, w: World, n: nat): State {
    if n == 0 then s else Step(Again(s, w, n - 1), w)
  }

  lemma {:induction false} AgainIsRun(s: State, w: World, n: nat)
    ensures Again(s, w, n) == Run(s, seq(n, i => w))
    decreases n
  {
    if n > 0 {
      AgainFirst(s, w, n - 1);
      AgainIsRun(Step(s, w), w, n - 1);
      assert seq(n, i => w)[1..] == seq(n - 1, i => w);
    }
  }

  lemma {:induction false} AgainFirst(s: State, w: World, n: nat)
    ensures Again(s, w, n + 1) == Again(Step(s, w), w, n)
    decreases n
  {
    if n > 0 {
      AgainFirst(s, w, n - 1);
    }
  }

  function FavoriteLog(e: Entry, p: Snapshot): seq<Event> {
    var w, inv := FavoriteWorld(e, p), FavoriteCall(e, p);
    [Permitted(inv, w), Prompted(ASKED), Accepted(ASKED, w), Permitted(inv, w), Rechecked(CLEARS, w),
     Entered(inv, inv, CLEARS, None, w), HandlerReturned(w), PostflightPassed(w), Succeeded]
  }

  lemma FavoritePrompts(e: Entry, p: Snapshot)
    requires ClearsFavorite(e, p)
    ensures Again(Start(None), FavoriteWorld(e, p), 2)
         == At(Asking(1, FavoriteCall(e, p)), e, {}, FavoriteLog(e, p)[..2])
  {
    var w := FavoriteWorld(e, p);
    FavoriteStarts(e, p);
    assert Again(Start(None), w, 1) == Step(Start(None), w);
    FavoritePreflights(At(Preflighting(1, e, None, None), e, {}, []), e, p, 1);
  }

  lemma FavoriteAnswers(e: Entry, p: Snapshot)
    requires ClearsFavorite(e, p)
    ensures Again(Start(None), FavoriteWorld(e, p), 3)
         == At(Preflighting(2, e, None, None), e, ASKED, FavoriteLog(e, p)[..3])
  {
    var w, log := FavoriteWorld(e, p), FavoriteLog(e, p);
    FavoritePrompts(e, p);
    LogPrefix(log, 2);
    var asking := At(Asking(1, FavoriteCall(e, p)), e, {}, log[..2]);
    assert Evidence(asking, FavoriteCall(e, p)) == ASKED;
    FavoriteAuthorizes(At(Asking(1, FavoriteCall(e, p)), e, ASKED, log[..3]), e, p, 2);
    assert {} + ASKED == ASKED;
  }

  lemma FavoriteAccepted(e: Entry, p: Snapshot)
    requires ClearsFavorite(e, p)
    ensures Again(Start(None), FavoriteWorld(e, p), 4)
         == At(FinalPreflighting(FavoriteCall(e, p)), e, ASKED, FavoriteLog(e, p)[..4])
  {
    var log := FavoriteLog(e, p);
    FavoriteAnswers(e, p);
    LogPrefix(log, 3);
    FavoritePreflights(At(Preflighting(2, e, None, None), e, ASKED, log[..3]), e, p, 2);
  }

  lemma FavoriteEnters(e: Entry, p: Snapshot)
    requires ClearsFavorite(e, p)
    ensures Again(Start(None), FavoriteWorld(e, p), 5)
         == At(Executing(FavoriteCall(e, p)), e, ASKED, FavoriteLog(e, p)[..6])
  {
    var log := FavoriteLog(e, p);
    FavoriteAccepted(e, p);
    var t := At(FinalPreflighting(FavoriteCall(e, p)), e, ASKED, log[..5]);
    LogPrefix(log, 4);
    LogPrefix(log, 5);
    FavoriteSeals(t, e, p);
  }

  lemma FavoriteSucceeds(e: Entry, p: Snapshot)
    requires ClearsFavorite(e, p)
    ensures Again(Start(None), FavoriteWorld(e, p), 7) == At(Finished, e, ASKED, FavoriteLog(e, p))
  {
    var log := FavoriteLog(e, p);
    FavoriteReturns(e, p);
    FavoriteEnds(At(Postflighting(FavoriteCall(e, p)), e, ASKED, log[..7]), e, p);
    LogPrefix(log, 7);
    LogPrefix(log, 8);
    WholeLog(log);
  }

  lemma WholeLog(log: seq<Event>)
    ensures log[..|log|] == log
  {}

  lemma FavoriteReturns(e: Entry, p: Snapshot)
    requires ClearsFavorite(e, p)
    ensures Again(Start(None), FavoriteWorld(e, p), 6)
         == At(Postflighting(FavoriteCall(e, p)), e, ASKED, FavoriteLog(e, p)[..7])
  {
    var log := FavoriteLog(e, p);
    FavoriteEnters(e, p);
    LogPrefix(log, 6);
  }

  lemma FavoriteEnds(s: State, e: Entry, p: Snapshot)
    requires ClearsFavorite(e, p)
    ensures Postflighted(s, FavoriteWorld(e, p), FavoriteCall(e, p))
         == s.(pc := Finished, log := s.log + [PostflightPassed(FavoriteWorld(e, p))] + [Succeeded])
  {
    FavoriteAudits(e, p);
  }

  /** Clearing a favorite, advertised as allowed, in full: one prompt, accepted, then the handler is entered
      and success recorded. So prompts, entries and successes do occur. */
  lemma FavoriteCallPromptsAndRuns(command: string, value: string, p: Snapshot, a: Answers) returns (e: Entry)
    requires command == SET_FAVORITE && value == "library.write" && !a.favoriteGiven
    requires p.Mode(EditFavorites) == Allow && p.Mode(DeleteFavorites) == Confirm
    ensures e == Entry(command, 1, ResolveCommandPolicy(command, command, Named(value), None), false)
    ensures CatalogMode(e.decision, e.allowImpersonation, p) == Allow
    ensures var s := Run(Start(None), seq(7, i => FavoriteWorld(e, p)));
      s.pc == Finished && s.log == FavoriteLog(e, p)
  {
    var d := FavoriteClearPrompts(command, value, p, a);
    e := Entry(command, 1, d, false);
    FavoriteMode(d, p);
    FavoriteSucceeds(e, p);
    AgainIsRun(Start(None), FavoriteWorld(e, p), 7);
  }
}
