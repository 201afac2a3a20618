/** One tool call as a step machine. Each step runs one block of code between two awaits, in
    whatever world it wakes up in: policy, handler registry, users, filters, bearer binding and
    setup-flow state may all have changed. The log keeps what happened, for the statements. */
module CallProtocol {
  import opened Wrappers
  import opened Policy
  import opened Preflight

  datatype Token = Token(bearer: string, client: string)

  datatype Auth = Auth(token: Token, user: string)

  /** A compiled catalog entry; `handler` is the identity of the compiled handler object. */
  datatype Entry = Entry(command: string, handler: nat, decision: CommandDecision, allowImpersonation: bool)

  /** `AuthorizedInvocation`. */
  datatype Invocation = Invocation(
    entry: Entry, auth: Option<Auth>, target: Option<string>,
    preflight: CommandPreflight, policy: Snapshot)

  datatype Elicited = Accept | Refuse | Unsupported

  datatype HandlerAnswer = Returned | RaisedToolError | RaisedPermission | RaisedOther | TimedOut

  /** Everything outside the call, at one moment. */
  datatype World = World(
    authRequired: bool,
    token: Option<Token>,
    identityHolds: (Token, string) -> bool,
    enabled: string -> bool,
    registry: map<string, nat>,
    discoverable: nat -> bool,
    decide: (string, nat) -> CommandDecision,     // classification under the live scope
    scopeAllowed: (string, nat) -> bool,
    mayImpersonate: string -> bool,
    filtersPass: string -> bool,
    bearerPolicy: string -> Snapshot,
    defaultPolicy: Snapshot,
    revalidate: (CommandDecision, CommandPreflight) -> Result<CommandPreflight>,
    // answers to whatever the call was awaiting
    abort: bool,                                  // cancelled, timed out, or an unlisted exception
    found: Option<Entry>,
    parses: bool,
    authenticated: Option<Auth>,
    resolved: Option<string>,
    preflight: Result<CommandPreflight>,
    elicited: Elicited,
    handler: HandlerAnswer)

  datatype Event =
    | Prompted(reasons: set<Reason>)
    | Accepted(reasons: set<Reason>, w: World)
    | NotAccepted
    | Permitted(inv: Invocation, w: World)   // an authorization pass that was not denied
    | Rechecked(found: CommandPreflight, w: World)  // the last preflight, right before the seal
    | Entered(inv: Invocation, earlier: Invocation, found: CommandPreflight, renewed: Option<Auth>, w: World)
    | HandlerReturned(w: World)
    | PostflightPassed(w: World)
    | Denied
    | Succeeded
    | Failed

  /** Where the call is suspended, with the locals it will wake up with. */
  datatype Pc =
    | Looking
    | Viewing(listed: Option<Entry>)
    | NamingDenied
    | Authenticating(e: Entry)
    | Resolving(round: nat, e: Entry, auth: Option<Auth>)
    | Preflighting(round: nat, e: Entry, auth: Option<Auth>, target: Option<string>)
    | Asking(round: nat, inv: Invocation)
    | Reauthenticating(round: nat, inv: Invocation)
    | FinalPreflighting(inv: Invocation)
    | FinalAuthenticating(inv: Invocation, found: CommandPreflight)
    | FinalResolving(inv: Invocation, found: CommandPreflight, caller: Auth)
    | Executing(inv: Invocation)
    | Postflighting(inv: Invocation)
    | Finished

  datatype State = State(
    pc: Pc, requested: Option<string>, compiled: Option<Entry>, evidence: set<Reason>, log: seq<Event>)

  function Start(requested: Option<string>): State {
    State(Looking, requested, None, {}, [])
  }

  // ---------------------------------------------------------------- helpers of the blocks

  function Log(s: State, e: Event): State {
    s.(log := s.log + [e])
  }

  function Refused(s: State): State {
    Log(s, Denied).(pc := Finished)
  }

  /** The user to impersonate: asked for, and allowed by the compiled entry. */
  function Impersonated(s: State): Option<string> {
    if s.compiled.Some? && s.compiled.value.allowImpersonation then s.requested else None
  }

  function RequestPolicy(w: World, auth: Option<Auth>): Snapshot {
    if auth.Some? then w.bearerPolicy(auth.value.token.bearer) else w.defaultPolicy
  }

  /** `_reauthorize_entry`: live handler, identity, scope and policy, in one block. */
  function ReauthorizeEntry(w: World, e: Entry, auth: Option<Auth>, p: Snapshot): Result<Entry> {
    if e.command !in w.registry || w.registry[e.command] != e.handler then ToolError
    else if !w.discoverable(e.handler) then ToolError
    else if auth.None? && w.authRequired then ToolError
    else if auth.Some? && !w.enabled(auth.value.user) then ToolError
    else if auth.Some? && !w.scopeAllowed(auth.value.user, e.handler) then ToolError
    else
      var d := w.decide(e.command, e.handler);
      if EffectiveMode(d, p, {}) == Deny then ToolError else Ok(e.(decision := d))
  }

  /** Target filters apply to the impersonated user, or else to the caller. */
  function FiltersPass(w: World, auth: Option<Auth>, target: Option<string>): bool {
    if target.Some? then w.filtersPass(target.value)
    else auth.Some? ==> w.filtersPass(auth.value.user)
  }

  function Evidence(s: State, inv: Invocation): set<Reason> {
    ConfirmationEvidence(inv.entry.decision, inv.policy, inv.preflight.additional, Impersonated(s).Some?)
  }

  /** `_authentication_is_still_exact`. */
  function StillExact(w: World, auth: Option<Auth>): bool {
    match auth
    case None => !w.authRequired
    case Some(a) =>
      w.enabled(a.user) && w.token == Some(a.token) && w.identityHolds(a.token, a.user)
  }

  function StartsWith(s: string, prefix: string): bool {
    prefix <= s
  }

  /** `_invocation_audit_capability` for an invocation that is not denied. */
  function AuditCapability(inv: Invocation): Option<Capability> {
    var d := inv.entry.decision;
    var first := FirstOf(SORTED, d.required + inv.preflight.additional);
    if first.Some? then first
    else
      var open := FirstOf(SORTED, set a | a in d.alternatives && inv.policy.Mode(a) != Deny);
      if open.Some? then open else FirstOf(SORTED, d.alternatives)
  }

  /** `_audit_execution` records only privileged outcomes of commands it does not own. */
  function Audits(inv: Invocation): bool {
    !StartsWith(inv.entry.command, "fastmcp/")
    && AuditCapability(inv).Some? && FamilyOf(AuditCapability(inv).value) != Query
  }

  // ---------------------------------------------------------------- blocks

  /** Waking with the base snapshot: `catalog_context` reads here whether it needs a user. */
  function Looked(s: State, w: World): State {
    if w.authRequired then s.(pc := Viewing(w.found)) else Visible(s, w, w.found, None)
  }

  function Viewed(s: State, w: World, found: Option<Entry>): State {
    if w.authenticated.None? then s.(pc := NamingDenied) else Visible(s, w, found, w.authenticated)
  }

  /** The entry must be visible to this request; then `_call` reads whether it needs a user. */
  function Visible(s: State, w: World, found: Option<Entry>, viewer: Option<Auth>): State {
    if found.None? then s.(pc := NamingDenied)
    else
      var e := found.value;
      if viewer.Some? && !w.scopeAllowed(viewer.value.user, e.handler) then s.(pc := NamingDenied)
      else if EffectiveMode(e.decision, RequestPolicy(w, viewer), {}) == Deny then s.(pc := NamingDenied)
      else
        var s' := s.(compiled := Some(e));
        if w.authRequired then s'.(pc := Authenticating(e)) else Parsed(s', w, e, None)
  }

  function Authenticated(s: State, w: World, e: Entry): State {
    if w.authenticated.None? && w.authRequired then s.(pc := NamingDenied)
    else Parsed(s, w, e, w.authenticated)
  }

  function Parsed(s: State, w: World, e: Entry, auth: Option<Auth>): State {
    if w.parses then Authorize(s, w, 1, e, auth) else s.(pc := Finished)
  }

  /** `_authorize_call` up to its first await. */
  function Authorize(s: State, w: World, round: nat, e: Entry, auth: Option<Auth>): State {
    match ReauthorizeEntry(w, e, auth, RequestPolicy(w, auth))
    case ToolError => Refused(s)
    case Ok(live) =>
      if Impersonated(s).Some? then s.(pc := Resolving(round, live, auth))
      else Filtered(s, w, round, live, auth, None)
  }

  function Filtered(s: State, w: World, round: nat, e: Entry, auth: Option<Auth>, target: Option<string>): State {
    if FiltersPass(w, auth, target) then s.(pc := Preflighting(round, e, auth, target)) else Refused(s)
  }

  function Resolved(s: State, w: World, round: nat, e: Entry, auth: Option<Auth>): State {
    if w.resolved.None? then Refused(s) else Filtered(s, w, round, e, auth, w.resolved)
  }

  /** `_authorize_call` after preflight: everything is checked once more. */
  function Preflighted(s: State, w: World, round: nat, e: Entry, auth: Option<Auth>, target: Option<string>): State {
    match w.preflight
    case ToolError => Refused(s)
    case Ok(pre) =>
      var p := RequestPolicy(w, auth);
      match ReauthorizeEntry(w, e, auth, p)
      case ToolError => Refused(s)
      case Ok(live) =>
        if target.Some? && !w.enabled(target.value) then Refused(s)
        else if !FiltersPass(w, auth, target) then Refused(s)
        else if EffectiveMode(live.decision, p, pre.additional) == Deny then Refused(s)
        else Authorized(s, w, round, Invocation(live, auth, target, pre, p))
  }

  /** `_call` after each authorization: prompt, or go on without one. */
  function Authorized(s: State, w: World, round: nat, inv: Invocation): State {
    Proceed(Log(s, Permitted(inv, w)), w, round, inv)
  }

  function Proceed(s: State, w: World, round: nat, inv: Invocation): State {
    var reasons := Evidence(s, inv);
    if round == 1 then
      if reasons == {} then Rebind(s, w, 2, inv)
      else Log(s, Prompted(reasons)).(pc := Asking(1, inv))
    else if round == 2 && !(reasons <= s.evidence) then
      Log(s, Prompted(reasons)).(pc := Asking(2, inv))
    else s.(pc := FinalPreflighting(inv))
  }

  function Answered(s: State, w: World, round: nat, inv: Invocation): State {
    match w.elicited
    case Accept => Rebind(Take(s, Evidence(s, inv), w), w, round + 1, inv)
    case _ => Log(s, NotAccepted).(pc := Finished)
  }

  /** `confirmation_evidence |= evidence`, together with the accepted record. */
  function Take(s: State, reasons: set<Reason>, w: World): State {
    Log(s, Accepted(reasons, w)).(evidence := s.evidence + reasons)
  }

  /** `_reauthorize`. */
  function Rebind(s: State, w: World, round: nat, inv: Invocation): State {
    if w.authRequired then s.(pc := Reauthenticating(round, inv)) else Authorize(s, w, round, inv.entry, None)
  }

  function Reauthenticated(s: State, w: World, round: nat, inv: Invocation): State {
    if w.authenticated.None? then Refused(s) else Authorize(s, w, round, inv.entry, w.authenticated)
  }

  function FinalPreflighted(s: State, w: World, inv: Invocation): State {
    match w.preflight
    case ToolError => Refused(s)
    case Ok(pre) =>
      var t := Log(s, Rechecked(pre, w));
      if w.authRequired then t.(pc := FinalAuthenticating(inv, pre)) else Seal(t, w, inv, pre, None, None)
  }

  function FinalAuthenticated(s: State, w: World, inv: Invocation, pre: CommandPreflight): State {
    if w.authenticated.Some? && Impersonated(s).Some?
    then s.(pc := FinalResolving(inv, pre, w.authenticated.value))
    else Seal(s, w, inv, pre, w.authenticated, None)
  }

  function FinalResolved(s: State, w: World, inv: Invocation, pre: CommandPreflight, caller: Auth): State {
    if w.resolved.None? then Refused(s) else Seal(s, w, inv, pre, Some(caller), w.resolved)
  }

  /** The impersonation conditions of the seal. */
  function TargetHolds(w: World, inv: Invocation, auth: Option<Auth>, target: string): bool {
    && auth.Some? && auth.value.user != "" && target != ""
    && Some(target) == inv.target
    && (auth.value.user != target ==> w.mayImpersonate(auth.value.user))
    && w.enabled(target)
  }

  /** The synchronous seal of `_finalize_invocation`, the evidence check that follows it, and
      the entry into the handler: one block, one world. */
  function Seal(s: State, w: World, inv: Invocation, pre: CommandPreflight,
                auth: Option<Auth>, target: Option<string>): State {
    match w.revalidate(inv.entry.decision, pre)
    case ToolError => Refused(s)
    case Ok(sealed) =>
      var holder := if auth.Some? then auth else inv.auth;
      var p := RequestPolicy(w, holder);
      if auth.None? && w.authRequired then Refused(s)
      else if !StillExact(w, auth) then Refused(s)
      else match ReauthorizeEntry(w, inv.entry, auth, p)
        case ToolError => Refused(s)
        case Ok(live) =>
          var final := Invocation(live, holder, target, sealed, p);
          if target.Some? && !TargetHolds(w, inv, auth, target.value) then Refused(s)
          else if !FiltersPass(w, auth, target) then Refused(s)
          else if EffectiveMode(live.decision, p, sealed.additional) == Deny then Refused(s)
          else if !(Evidence(s, final) <= s.evidence) then Refused(s)
          else Log(s, Entered(final, inv, pre, auth, w)).(pc := Executing(final))
  }

  /** How an exception inside the sealed section ends the call. */
  function Raised(s: State, inv: Invocation, a: HandlerAnswer): State {
    (if !Audits(inv) then s else Log(s, if a == RaisedPermission then Denied else Failed)).(pc := Finished)
  }

  function Executed(s: State, w: World, inv: Invocation): State {
    if w.handler == Returned then Log(s, HandlerReturned(w)).(pc := Postflighting(inv))
    else Raised(s, inv, w.handler)
  }

  function Postflighted(s: State, w: World, inv: Invocation): State {
    if w.handler != Returned then Raised(s, inv, w.handler)
    else
      var s' := Log(s, PostflightPassed(w));
      (if Audits(inv) then Log(s', Succeeded) else s').(pc := Finished)
  }

  /** One step: wake up in world w and run to the next await. */
  function Step(s: State, w: World): State {
    if w.abort then s.(pc := Finished)
    else match s.pc
      case Looking => Looked(s, w)
      case Viewing(found) => Viewed(s, w, found)
      case NamingDenied => Refused(s)
      case Authenticating(e) => Authenticated(s, w, e)
      case Resolving(round, e, auth) => Resolved(s, w, round, e, auth)
      case Preflighting(round, e, auth, target) => Preflighted(s, w, round, e, auth, target)
      case Asking(round, inv) => Answered(s, w, round, inv)
      case Reauthenticating(round, inv) => Reauthenticated(s, w, round, inv)
      case FinalPreflighting(inv) => FinalPreflighted(s, w, inv)
      case FinalAuthenticating(inv, pre) => FinalAuthenticated(s, w, inv, pre)
      case FinalResolving(inv, pre, caller) => FinalResolved(s, w, inv, pre, caller)
      case Executing(inv) => Executed(s, w, inv)
      case Postflighting(inv) => Postflighted(s, w, inv)
      case Finished => s
  }

  /** A run: the call wakes up in one arbitrary world after another. */
  function Run(s: State, worlds: seq<World>): State
    decreases |worlds|
  {
    if worlds == [] then s else Run(Step(s, worlds[0]), worlds[1..])
  }

  // ---------------------------------------------------------------- what a log shows

  function Prompts(log: seq<Event>): nat {
    if log == [] then 0
    else Prompts(log[..|log| - 1]) + if log[|log| - 1].Prompted? then 1 else 0
  }

  /** How often the handler was entered. */
  function Entries(log: seq<Event>): nat {
    if log == [] then 0
    else Entries(log[..|log| - 1]) + if log[|log| - 1].Entered? then 1 else 0
  }

  predicate IsTerminal(e: Event) {
    e.Denied? || e.Succeeded? || e.Failed?
  }

  /** Terminal audit records: denied, succeeded, failed. */
  function Terminals(log: seq<Event>): nat {
    if log == [] then 0
    else
      Terminals(log[..|log| - 1])
      + if IsTerminal(log[|log| - 1]) then 1 else 0
  }

  /** An acceptance: the user said yes, to the prompt right before it and reason for reason. */
  ghost predicate AcceptedAt(log: seq<Event>, j: int) {
    && 0 < j < |log| && log[j].Accepted?
    && log[j - 1] == Prompted(log[j].reasons) && log[j].w.elicited == Accept
  }

  /** Every reason was named in a prompt that was accepted. */
  ghost predicate Backed(reasons: set<Reason>, log: seq<Event>) {
    forall r | r in reasons :: exists j :: AcceptedAt(log, j) && r in log[j].reasons
  }

  /** The invocation that the last authorization pass let through. */
  function LastPermitted(log: seq<Event>): Option<Invocation> {
    if log == [] then None
    else if log[|log| - 1].Permitted? then Some(log[|log| - 1].inv)
    else LastPermitted(log[..|log| - 1])
  }

  /** What the last preflight before the seal answered. */
  function LastRechecked(log: seq<Event>): Option<CommandPreflight> {
    if log == [] then None
    else if log[|log| - 1].Rechecked? then Some(log[|log| - 1].found)
    else LastRechecked(log[..|log| - 1])
  }

  /** An entry of a live command: the compiled handler, registered, discoverable and classified under the
      live scope. */
  ghost predicate LiveEntry(live: Entry, w: World, compiled: Entry) {
    && live.command == compiled.command && live.handler == compiled.handler
    && live.command in w.registry && w.registry[live.command] == compiled.handler
    && w.discoverable(live.handler)
    && live.decision == w.decide(live.command, compiled.handler)
  }

  /** What one authorization pass establishes in its world. */
  ghost predicate PermissionHolds(inv: Invocation, w: World, compiled: Entry) {
    && LiveEntry(inv.entry, w, compiled)
    && inv.policy == RequestPolicy(w, inv.auth)
    && w.preflight == Ok(inv.preflight)
    && EffectiveMode(inv.entry.decision, inv.policy, inv.preflight.additional) != Deny
    && FiltersPass(w, inv.auth, inv.target)
    && (w.authRequired ==> inv.auth.Some?)
    && (inv.auth.Some? ==> w.enabled(inv.auth.value.user) && w.scopeAllowed(inv.auth.value.user, compiled.handler))
    && (inv.target.Some? ==> w.enabled(inv.target.value))
  }

  /** What must hold in the world in which the handler is entered: the command is live, and the sealed
      preflight revalidates the answer found for the invocation authorized earlier. */
  ghost predicate SealHolds(inv: Invocation, earlier: Invocation, found: CommandPreflight, w: World,
                            compiled: Entry) {
    && LiveEntry(inv.entry, w, compiled)
    && inv.policy == RequestPolicy(w, inv.auth)
    && w.revalidate(earlier.entry.decision, found) == Ok(inv.preflight)
    && EffectiveMode(inv.entry.decision, inv.policy, inv.preflight.additional) != Deny
  }

  /** Who the handler is entered as. A fresh authentication is the identity of the moment, in scope and
      within its filters, and the target authorized earlier is kept and checked again. Without one,
      which takes a server that does not require authentication at that moment, the caller authorized
      earlier stands as it was and no target is left. */
  ghost predicate IdentityHolds(inv: Invocation, earlier: Invocation, renewed: Option<Auth>, w: World,
                                compiled: Entry) {
    match renewed
    case Some(caller) =>
      && inv.auth == renewed && StillExact(w, renewed)
      && w.scopeAllowed(caller.user, compiled.handler)
      && FiltersPass(w, renewed, inv.target)
      && inv.target == earlier.target
      && (inv.target.Some? ==>
            && w.enabled(inv.target.value)
            && (caller.user != inv.target.value ==> w.mayImpersonate(caller.user)))
    case None =>
      !w.authRequired && inv.auth == earlier.auth && inv.target == None
  }

  /** The event at i is safe against the log before it. A permission holds in its world and has a target
      exactly when one is asked for; a last preflight is that world's answer; an entry's seal and
      identity hold against this call's own last authorization and last preflight, and what it needs
      confirmed was accepted before it; a handler that returned was entered right before, a postflight that
      passed follows a handler that returned, and a success follows a postflight that passed. */
  ghost predicate SafeAt(s: State, i: nat)
    requires i < |s.log|
  {
    match s.log[i]
    case Accepted(_, _) => AcceptedAt(s.log, i)
    case Permitted(inv, w) =>
      && s.compiled.Some? && PermissionHolds(inv, w, s.compiled.value)
      && (inv.target.Some? <==> Impersonated(s).Some?)
    case Rechecked(found, w) => w.preflight == Ok(found)
    case Entered(inv, earlier, found, renewed, w) =>
      && s.compiled.Some?
      && SealHolds(inv, earlier, found, w, s.compiled.value)
      && IdentityHolds(inv, earlier, renewed, w, s.compiled.value)
      && LastPermitted(s.log[..i]) == Some(earlier)
      && LastRechecked(s.log[..i]) == Some(found)
      && Backed(Evidence(s, inv), s.log[..i])
    case HandlerReturned(w) => i > 0 && s.log[i - 1].Entered? && w.handler == Returned
    case PostflightPassed(w) => i > 0 && s.log[i - 1].HandlerReturned? && w.handler == Returned
    case Succeeded => i > 0 && s.log[i - 1].PostflightPassed?
    case _ => true
  }

  ghost predicate Safe(s: State) {
    Backed(s.evidence, s.log) && forall i | 0 <= i < |s.log| :: SafeAt(s, i)
  }

  // ---------------------------------------------------------------- the invariant

  function EntryAt(pc: Pc): Option<Entry> {
    match pc
    case Authenticating(e) => Some(e)
    case Resolving(_, e, _) => Some(e)
    case Preflighting(_, e, _, _) => Some(e)
    case Asking(_, inv) => Some(inv.entry)
    case Reauthenticating(_, inv) => Some(inv.entry)
    case FinalPreflighting(inv) => Some(inv.entry)
    case FinalAuthenticating(inv, _) => Some(inv.entry)
    case FinalResolving(inv, _, _) => Some(inv.entry)
    case Executing(inv) => Some(inv.entry)
    case Postflighting(inv) => Some(inv.entry)
    case _ => None
  }

  /** How many prompts there may have been by now. */
  function PromptLimit(pc: Pc): nat {
    match pc
    case Looking => 0
    case Viewing(_) => 0
    case NamingDenied => 0
    case Authenticating(_) => 0
    case Resolving(round, _, _) => if round == 0 then 0 else round - 1
    case Preflighting(round, _, _, _) => if round == 0 then 0 else round - 1
    case Asking(round, _) => round
    case Reauthenticating(round, _) => if round == 0 then 0 else round - 1
    case _ => 2
  }

  /** The last authorization pass let this invocation through, with a target if one is asked for. */
  ghost predicate PermittedFor(s: State, inv: Invocation) {
    LastPermitted(s.log) == Some(inv) && (inv.target.Some? <==> Impersonated(s).Some?)
  }

  /** The call is about to seal its own last authorization with its own last preflight. */
  ghost predicate SealedFor(s: State, inv: Invocation, found: CommandPreflight) {
    PermittedFor(s, inv) && LastRechecked(s.log) == Some(found)
  }


  ghost predicate RoundOk(s: State) {
    match s.pc
    case Resolving(round, _, _) => 1 <= round <= 3 && Impersonated(s).Some?
    case Preflighting(round, _, _, target) => 1 <= round <= 3 && (target.Some? <==> Impersonated(s).Some?)
    case Asking(round, inv) =>
      1 <= round <= 2 && s.log != [] && s.log[|s.log| - 1] == Prompted(Evidence(s, inv))
    case Reauthenticating(round, _) => 2 <= round <= 3
    case FinalPreflighting(inv) => PermittedFor(s, inv)
    case FinalAuthenticating(inv, found) => SealedFor(s, inv, found)
    case FinalResolving(inv, found, _) => SealedFor(s, inv, found) && Impersonated(s).Some?
    case Executing(_) => s.log != [] && s.log[|s.log| - 1].Entered?
    case Postflighting(_) => s.log != [] && s.log[|s.log| - 1].HandlerReturned?
    case _ => true
  }

  ghost predicate Inv(s: State) {
    && Safe(s)
    && RoundOk(s)
    && Prompts(s.log) <= PromptLimit(s.pc) <= 2
    && Terminals(s.log) <= (if s.pc.Finished? then 1 else 0)
    && Entries(s.log) <= (if s.pc.Executing? || s.pc.Postflighting? || s.pc.Finished? then 1 else 0)
    && (EntryAt(s.pc).Some? ==>
          && s.compiled.Some?
          && EntryAt(s.pc).value.command == s.compiled.value.command
          && EntryAt(s.pc).value.handler == s.compiled.value.handler)
    && (s.pc.Looking? || s.pc.Viewing? ==> s.log == [])
  }

  lemma LogCounts(s: State, e: Event)
    ensures Prompts(Log(s, e).log) == Prompts(s.log) + if e.Prompted? then 1 else 0
    ensures Terminals(Log(s, e).log) == Terminals(s.log) + if IsTerminal(e) then 1 else 0
    ensures Entries(Log(s, e).log) == Entries(s.log) + if e.Entered? then 1 else 0
  {
    assert Log(s, e).log[..|s.log|] == s.log;
  }

  lemma LogPrefix(log: seq<Event>, i: nat)
    requires i < |log|
    ensures log[..i] + [log[i]] == log[..i + 1]
  {}

  lemma BackedGrows(reasons: set<Reason>, log: seq<Event>, more: seq<Event>)
    requires Backed(reasons, log)
    ensures Backed(reasons, log + more)
  {
    forall r | r in reasons ensures exists j :: AcceptedAt(log + more, j) && r in (log + more)[j].reasons {
      var j :| AcceptedAt(log, j) && r in log[j].reasons;
      assert AcceptedAt(log + more, j);
    }
  }

  /** Whether an event is safe depends on the log up to it, the entry and the requested target. */
  lemma StaysSafe(s: State, t: State, i: nat)
    requires i < |s.log| && i < |t.log| && SafeAt(s, i)
    requires t.compiled == s.compiled && t.requested == s.requested
    requires t.log[..i] == s.log[..i] && t.log[i] == s.log[i]
    ensures SafeAt(t, i)
  {
    assert i > 0 ==> t.log[i - 1] == t.log[..i][i - 1] == s.log[..i][i - 1] == s.log[i - 1];
    if s.log[i].Entered? {
      assert Evidence(t, t.log[i].inv) == Evidence(s, s.log[i].inv);
    }
  }

  /** A log stays safe when the event added to it is safe. */
  lemma LogKeepsSafe(s: State, e: Event)
    requires Safe(s) && SafeAt(Log(s, e), |s.log|)
    ensures Safe(Log(s, e))
  {
    var t := Log(s, e);
    BackedGrows(s.evidence, s.log, [e]);
    forall i | 0 <= i < |t.log| ensures SafeAt(t, i) {
      if i < |s.log| {
        assert t.log[..i] == s.log[..i];
        StaysSafe(s, t, i);
      }
    }
  }

  lemma RefusedKeepsInv(s: State)
    requires Safe(s) && Prompts(s.log) <= 2 && Terminals(s.log) == 0 && Entries(s.log) <= 1
    ensures Inv(Refused(s))
  {
    LogCounts(s, Denied);
    LogKeepsSafe(s, Denied);
    SamePart(Log(s, Denied), Refused(s));
  }

  // ---------------------------------------------------------------- every block keeps it

  /** What the shared continuations need of the state they continue from. */
  ghost predicate Going(s: State, e: Entry, prompts: int) {
    && Safe(s) && Prompts(s.log) <= prompts && Terminals(s.log) == 0 && Entries(s.log) == 0
    && s.compiled.Some? && e.command == s.compiled.value.command && e.handler == s.compiled.value.handler
  }

  lemma FilteredKeepsInv(s: State, w: World, round: nat, e: Entry, auth: Option<Auth>, target: Option<string>)
    requires Going(s, e, round - 1) && 1 <= round <= 3 && (target.Some? <==> Impersonated(s).Some?)
    ensures Inv(Filtered(s, w, round, e, auth, target))
  {
    RefusedKeepsInv(s);
    SamePart(s, s.(pc := Preflighting(round, e, auth, target)));
  }

  lemma AuthorizeKeepsInv(s: State, w: World, round: nat, e: Entry, auth: Option<Auth>)
    requires Going(s, e, round - 1) && 1 <= round <= 3
    ensures Inv(Authorize(s, w, round, e, auth))
  {
    match ReauthorizeEntry(w, e, auth, RequestPolicy(w, auth))
    case ToolError => RefusedKeepsInv(s);
    case Ok(live) =>
      if Impersonated(s).Some? {
        SamePart(s, s.(pc := Resolving(round, live, auth)));
      } else {
        FilteredKeepsInv(s, w, round, live, auth, None);
      }
  }

  lemma RebindKeepsInv(s: State, w: World, round: nat, inv: Invocation)
    requires Going(s, inv.entry, round - 1) && 2 <= round <= 3
    ensures Inv(Rebind(s, w, round, inv))
  {
    SamePart(s, s.(pc := Reauthenticating(round, inv)));
    AuthorizeKeepsInv(s, w, round, inv.entry, None);
  }

  lemma AskingKeepsInv(s: State, round: nat, inv: Invocation)
    requires Going(s, inv.entry, round - 1) && 1 <= round <= 2
    ensures Inv(Log(s, Prompted(Evidence(s, inv))).(pc := Asking(round, inv)))
  {
    var e := Prompted(Evidence(s, inv));
    LogCounts(s, e);
    LogKeepsSafe(s, e);
    var s' := Log(s, e).(pc := Asking(round, inv));
    assert Safe(s') by { SamePart(Log(s, e), s'); }
    assert s'.log[|s'.log| - 1] == e;
  }

  /** Safety does not depend on where the call is suspended, nor on what was accepted as long as that is
      backed. */
  lemma SamePart(s: State, t: State)
    requires Safe(s) && t == s.(pc := t.pc, evidence := t.evidence) && Backed(t.evidence, t.log)
    ensures Safe(t)
  {
    forall i | 0 <= i < |t.log| ensures SafeAt(t, i) {
      StaysSafe(s, t, i);
    }
  }

  lemma ProceedKeepsInv(s: State, w: World, round: nat, inv: Invocation)
    requires Going(s, inv.entry, round - 1) && 1 <= round <= 3 && PermittedFor(s, inv)
    ensures Inv(Proceed(s, w, round, inv))
  {
    if round == 1 && Evidence(s, inv) == {} {
      RebindKeepsInv(s, w, 2, inv);
    } else if round == 1 || (round == 2 && !(Evidence(s, inv) <= s.evidence)) {
      AskingKeepsInv(s, round, inv);
    } else {
      SamePart(s, s.(pc := FinalPreflighting(inv)));
    }
  }

  lemma AuthorizedKeepsInv(s: State, w: World, round: nat, inv: Invocation)
    requires Going(s, inv.entry, round - 1) && 1 <= round <= 3
    requires PermissionHolds(inv, w, s.compiled.value) && (inv.target.Some? <==> Impersonated(s).Some?)
    ensures Inv(Authorized(s, w, round, inv))
  {
    var e := Permitted(inv, w);
    LogCounts(s, e);
    LogKeepsSafe(s, e);
    ProceedKeepsInv(Log(s, e), w, round, inv);
  }

  lemma PreflightedKeepsInv(s: State, w: World, round: nat, e: Entry, auth: Option<Auth>, target: Option<string>)
    requires Going(s, e, round - 1) && 1 <= round <= 3 && (target.Some? <==> Impersonated(s).Some?)
    ensures Inv(Preflighted(s, w, round, e, auth, target))
  {
    RefusedKeepsInv(s);
    if w.preflight.Ok? {
      var p := RequestPolicy(w, auth);
      var live := ReauthorizeEntry(w, e, auth, p);
      if live.Ok? && (target.Some? ==> w.enabled(target.value)) && FiltersPass(w, auth, target)
         && EffectiveMode(live.value.decision, p, w.preflight.value.additional) != Deny {
        AuthorizedKeepsInv(s, w, round, Invocation(live.value, auth, target, w.preflight.value, p));
      }
    }
  }

  /** Taking an accepted prompt's reasons into the evidence. */
  lemma TakeKeepsGoing(s: State, w: World, e: Entry, reasons: set<Reason>, prompts: int)
    requires Going(s, e, prompts) && s.log != [] && s.log[|s.log| - 1] == Prompted(reasons)
    requires w.elicited == Accept
    ensures Going(Take(s, reasons, w), e, prompts)
  {
    var accepted := Accepted(reasons, w);
    LogCounts(s, accepted);
    LogKeepsSafe(s, accepted);
    var t := Take(s, reasons, w);
    BackedGrows(s.evidence, s.log, [accepted]);
    assert AcceptedAt(t.log, |s.log|);
    SamePart(Log(s, accepted), t);
  }

  lemma AcceptedKeepsInv(s: State, w: World, round: nat, inv: Invocation, reasons: set<Reason>)
    requires Going(s, inv.entry, round) && 1 <= round <= 2
    requires s.log != [] && s.log[|s.log| - 1] == Prompted(reasons)
    requires w.elicited == Accept
    ensures Inv(Rebind(Take(s, reasons, w), w, round + 1, inv))
  {
    TakeKeepsGoing(s, w, inv.entry, reasons, round);
    var t, next := Take(s, reasons, w), round + 1;
    assert Going(t, inv.entry, next - 1);
    RebindKeepsInv(t, w, next, inv);
  }

  lemma AnsweredKeepsInv(s: State, w: World, round: nat, inv: Invocation)
    requires Going(s, inv.entry, round) && 1 <= round <= 2
    requires s.log != [] && s.log[|s.log| - 1] == Prompted(Evidence(s, inv))
    ensures Inv(Answered(s, w, round, inv))
  {
    if w.elicited.Accept? {
      AcceptedKeepsInv(s, w, round, inv, Evidence(s, inv));
    } else {
      DeclinedKeepsInv(s);
    }
  }

  lemma DeclinedKeepsInv(s: State)
    requires Safe(s) && Prompts(s.log) <= 2 && Terminals(s.log) == 0 && Entries(s.log) <= 1
    ensures Inv(Log(s, NotAccepted).(pc := Finished))
  {
    LogCounts(s, NotAccepted);
    LogKeepsSafe(s, NotAccepted);
    SamePart(Log(s, NotAccepted), Log(s, NotAccepted).(pc := Finished));
  }

  /** Entering the handler is safe: the seal's own checks, in the world of the seal. */
  lemma SealKeepsInv(s: State, w: World, inv: Invocation, pre: CommandPreflight,
                     auth: Option<Auth>, target: Option<string>)
    requires Going(s, inv.entry, 2) && SealedFor(s, inv, pre)
    requires target.Some? <==> auth.Some? && Impersonated(s).Some?
    ensures Inv(Seal(s, w, inv, pre, auth, target))
  {
    RefusedKeepsInv(s);
    var s' := Seal(s, w, inv, pre, auth, target);
    if s'.pc.Executing? {
      var final := s'.pc.inv;
      assert SealHolds(final, inv, pre, w, s.compiled.value);
      assert IdentityHolds(final, inv, auth, w, s.compiled.value);
      EntryKeepsInv(s, final, Entered(final, inv, pre, auth, w));
    }
  }

  /** An entry whose seal and identity hold and whose evidence was accepted. */
  lemma EntryKeepsInv(s: State, final: Invocation, e: Event)
    requires e.Entered? && e.inv == final && Going(s, final.entry, 2) && SealedFor(s, e.earlier, e.found)
    requires SealHolds(final, e.earlier, e.found, e.w, s.compiled.value)
    requires IdentityHolds(final, e.earlier, e.renewed, e.w, s.compiled.value)
    requires Evidence(s, final) <= s.evidence
    ensures Inv(Log(s, e).(pc := Executing(final)))
  {
    var t := Log(s, e);
    LogCounts(s, e);
    assert t.log[..|s.log|] == s.log;
    assert Evidence(t, final) == Evidence(s, final);
    LogKeepsSafe(s, e);
    BackedGrows(s.evidence, s.log, [e]);
    SamePart(t, t.(pc := Executing(final)));
  }

  lemma RaisedKeepsInv(s: State, inv: Invocation, a: HandlerAnswer)
    requires Safe(s) && Prompts(s.log) <= 2 && Terminals(s.log) == 0 && Entries(s.log) <= 1
    ensures Inv(Raised(s, inv, a))
  {
    var e := if a == RaisedPermission then Denied else Failed;
    LogCounts(s, e);
    LogKeepsSafe(s, e);
    SamePart(if Audits(inv) then Log(s, e) else s, Raised(s, inv, a));
  }

  /** The same once the handler has been entered. */
  ghost predicate Running(s: State, e: Entry) {
    && Safe(s) && Prompts(s.log) <= 2 && Terminals(s.log) == 0 && Entries(s.log) <= 1
    && s.compiled.Some? && e.command == s.compiled.value.command && e.handler == s.compiled.value.handler
  }

  lemma ExecutedKeepsInv(s: State, w: World, inv: Invocation)
    requires Running(s, inv.entry) && s.log != [] && s.log[|s.log| - 1].Entered?
    ensures Inv(Executed(s, w, inv))
  {
    if w.handler == Returned {
      var e := HandlerReturned(w);
      LogCounts(s, e);
      LogKeepsSafe(s, e);
      SamePart(Log(s, e), Executed(s, w, inv));
    } else {
      RaisedKeepsInv(s, inv, w.handler);
    }
  }

  lemma SucceededKeepsInv(s: State)
    requires Safe(s) && Prompts(s.log) <= 2 && Terminals(s.log) == 0 && Entries(s.log) <= 1
    requires s.log != [] && s.log[|s.log| - 1].PostflightPassed?
    ensures Inv(s.(pc := Finished)) && Inv(Log(s, Succeeded).(pc := Finished))
  {
    LogCounts(s, Succeeded);
    LogKeepsSafe(s, Succeeded);
    SamePart(s, s.(pc := Finished));
    SamePart(Log(s, Succeeded), Log(s, Succeeded).(pc := Finished));
  }

  lemma PostflightedKeepsInv(s: State, w: World, inv: Invocation)
    requires Running(s, inv.entry) && s.log != [] && s.log[|s.log| - 1].HandlerReturned?
    ensures Inv(Postflighted(s, w, inv))
  {
    if w.handler == Returned {
      var e := PostflightPassed(w);
      LogCounts(s, e);
      LogKeepsSafe(s, e);
      SucceededKeepsInv(Log(s, e));
    } else {
      RaisedKeepsInv(s, inv, w.handler);
    }
  }

  lemma VisibleKeepsInv(s: State, w: World, found: Option<Entry>, viewer: Option<Auth>)
    requires Inv(s) && s.log == []
    ensures Inv(Visible(s, w, found, viewer))
  {
    if found.Some? {
      var e := found.value;
      var t := s.(compiled := Some(e));
      assert Safe(t);
      if w.parses {
        AuthorizeKeepsInv(t, w, 1, e, None);
      }
    }
  }

  lemma AuthenticatedKeepsInv(s: State, w: World, e: Entry)
    requires Going(s, e, 0)
    ensures Inv(Authenticated(s, w, e))
  {
    if w.authenticated.None? && w.authRequired {
      SamePart(s, s.(pc := NamingDenied));
    } else if w.parses {
      AuthorizeKeepsInv(s, w, 1, e, w.authenticated);
    } else {
      SamePart(s, s.(pc := Finished));
    }
  }

  lemma ResolvedKeepsInv(s: State, w: World, round: nat, e: Entry, auth: Option<Auth>)
    requires Going(s, e, round - 1) && 1 <= round <= 3 && Impersonated(s).Some?
    ensures Inv(Resolved(s, w, round, e, auth))
  {
    if w.resolved.None? {
      RefusedKeepsInv(s);
    } else {
      FilteredKeepsInv(s, w, round, e, auth, w.resolved);
    }
  }

  lemma ReauthenticatedKeepsInv(s: State, w: World, round: nat, inv: Invocation)
    requires Going(s, inv.entry, round - 1) && 2 <= round <= 3
    ensures Inv(Reauthenticated(s, w, round, inv))
  {
    RefusedKeepsInv(s);
    AuthorizeKeepsInv(s, w, round, inv.entry, w.authenticated);
  }

  lemma FinalPreflightedKeepsInv(s: State, w: World, inv: Invocation)
    requires Going(s, inv.entry, 2) && PermittedFor(s, inv)
    ensures Inv(FinalPreflighted(s, w, inv))
  {
    match w.preflight
    case ToolError => RefusedKeepsInv(s);
    case Ok(pre) =>
      var e := Rechecked(pre, w);
      var t := Log(s, e);
      LogCounts(s, e);
      LogKeepsSafe(s, e);
      assert t.log[..|s.log|] == s.log;
      if w.authRequired {
        SamePart(t, t.(pc := FinalAuthenticating(inv, pre)));
      } else {
        SealKeepsInv(t, w, inv, pre, None, None);
      }
  }

  lemma FinalAuthenticatedKeepsInv(s: State, w: World, inv: Invocation, pre: CommandPreflight)
    requires Going(s, inv.entry, 2) && SealedFor(s, inv, pre)
    ensures Inv(FinalAuthenticated(s, w, inv, pre))
  {
    if w.authenticated.Some? && Impersonated(s).Some? {
      SamePart(s, s.(pc := FinalResolving(inv, pre, w.authenticated.value)));
    } else {
      SealKeepsInv(s, w, inv, pre, w.authenticated, None);
    }
  }

  lemma FinalResolvedKeepsInv(s: State, w: World, inv: Invocation, pre: CommandPreflight, caller: Auth)
    requires Going(s, inv.entry, 2) && SealedFor(s, inv, pre) && Impersonated(s).Some?
    ensures Inv(FinalResolved(s, w, inv, pre, caller))
  {
    if w.resolved.None? {
      RefusedKeepsInv(s);
    } else {
      SealKeepsInv(s, w, inv, pre, Some(caller), w.resolved);
    }
  }

  /** One step in any world keeps the invariant. */
  lemma StepKeepsInv(s: State, w: World)
    requires Inv(s)
    ensures Inv(Step(s, w))
  {
    if w.abort {
      SamePart(s, Step(s, w));
    } else {
      match s.pc
      case Looking => VisibleKeepsInv(s, w, w.found, None);
      case Viewing(found) => VisibleKeepsInv(s, w, found, w.authenticated);
      case NamingDenied => RefusedKeepsInv(s);
      case Authenticating(e) => AuthenticatedKeepsInv(s, w, e);
      case Resolving(round, e, auth) => ResolvedKeepsInv(s, w, round, e, auth);
      case Preflighting(round, e, auth, target) => PreflightedKeepsInv(s, w, round, e, auth, target);
      case Asking(round, inv) => AnsweredKeepsInv(s, w, round, inv);
      case Reauthenticating(round, inv) => ReauthenticatedKeepsInv(s, w, round, inv);
      case FinalPreflighting(inv) => FinalPreflightedKeepsInv(s, w, inv);
      case FinalAuthenticating(inv, pre) => FinalAuthenticatedKeepsInv(s, w, inv, pre);
      case FinalResolving(inv, pre, caller) => FinalResolvedKeepsInv(s, w, inv, pre, caller);
      case Executing(inv) => ExecutedKeepsInv(s, w, inv);
      case Postflighting(inv) => PostflightedKeepsInv(s, w, inv);
      case Finished =>
    }
  }

  // ---------------------------------------------------------------- every run

  lemma {:induction false} RunKeepsInv(s: State, worlds: seq<World>)
    requires Inv(s)
    ensures Inv(Run(s, worlds))
    decreases |worlds|
  {
    if worlds != [] {
      StepKeepsInv(s, worlds[0]);
      RunKeepsInv(Step(s, worlds[0]), worlds[1..]);
    }
  }

  /** On every run every event is safe: the handler is entered only through a seal that holds in that very
      world for the call's own last authorization and last preflight, with every reason for confirmation
      named in a prompt that the user answered yes earlier in this call; and success is recorded only
      right after a postflight that passed, a handler that returned and the entry. There are at most one
      entry, two prompts and one terminal audit record. */
  lemma EveryRunIsSafe(requested: Option<string>, worlds: seq<World>)
    ensures var s := Run(Start(requested), worlds);
      && (forall i | 0 <= i < |s.log| :: SafeAt(s, i))
      && Entries(s.log) <= 1
      && Prompts(s.log) <= 2
      && Terminals(s.log) <= 1
      && Backed(s.evidence, s.log)
  {
    RunKeepsInv(Start(requested), worlds);
  }

  /** The identity that the handler is entered as is renewed exactly when a final authentication
      answered, as it has to wherever authentication is required at that moment; the target authorized
      earlier is kept exactly then, or when there was none. */
  lemma EntryIdentity(requested: Option<string>, worlds: seq<World>, i: nat)
    requires i < |Run(Start(requested), worlds).log| && Run(Start(requested), worlds).log[i].Entered?
    ensures var e := Run(Start(requested), worlds).log[i];
      && (e.w.authRequired ==> e.renewed.Some?)
      && (e.renewed.Some? ==> StillExact(e.w, e.inv.auth))
      && e.inv.auth == (if e.renewed.Some? then e.renewed else e.earlier.auth)
      && (e.inv.target == e.earlier.target <==> e.renewed.Some? || e.earlier.target.None?)
  {
    EveryRunIsSafe(requested, worlds);
    assert SafeAt(Run(Start(requested), worlds), i);
  }

  /** A success stands behind its entry, the return of the handler and the passed postflight. */
  lemma SuccessFollows(requested: Option<string>, worlds: seq<World>, i: nat)
    requires i < |Run(Start(requested), worlds).log| && Run(Start(requested), worlds).log[i] == Succeeded
    ensures i >= 3
    ensures var log := Run(Start(requested), worlds).log;
      && log[i - 3].Entered? && log[i - 2].HandlerReturned? && log[i - 1].PostflightPassed?
      && log[i - 2].w.handler == Returned && log[i - 1].w.handler == Returned
  {
    EveryRunIsSafe(requested, worlds);
    var s := Run(Start(requested), worlds);
    assert SafeAt(s, i);
    assert SafeAt(s, i - 1);
    assert SafeAt(s, i - 2);
  }

  /** What the user accepted is exactly what the policy of the seal asks for: granting just
      those capabilities would have made the sealed call allowed, each was accepted in a prompt
      before entry, and so was impersonation when someone is impersonated. */
  ghost predicate FullyConfirmed(s: State, i: nat)
    requires i < |s.log| && s.log[i].Entered?
  {
    var inv := s.log[i].inv;
    var asked := ConfirmedCapabilities(inv.entry.decision, inv.policy, inv.preflight.additional);
    && EffectiveMode(inv.entry.decision, Grant(inv.policy, asked), inv.preflight.additional) == Allow
    && Backed(Reasons(asked), s.log[..i])
    && (Impersonated(s).Some? ==> Backed({Impersonation}, s.log[..i]))
  }

  lemma SafeEntryIsConfirmed(s: State, i: nat)
    requires i < |s.log| && s.log[i].Entered? && SafeAt(s, i)
    ensures FullyConfirmed(s, i)
  {
    var inv := s.log[i].inv;
    var d, p, add := inv.entry.decision, inv.policy, inv.preflight.additional;
    AuthorizedEvidence(d, p, add, Impersonated(s).Some?);
    EvidenceSuffices(d, p, add);
    if EffectiveMode(d, p, add) == Allow {
      assert Grant(p, {}).modes == p.modes;
    }
  }

  lemma EnteredCallsAreFullyConfirmed(requested: Option<string>, worlds: seq<World>)
    ensures var s := Run(Start(requested), worlds);
      forall i | 0 <= i < |s.log| && s.log[i].Entered? :: FullyConfirmed(s, i)
  {
    EveryRunIsSafe(requested, worlds);
    var s := Run(Start(requested), worlds);
    forall i | 0 <= i < |s.log| && s.log[i].Entered? ensures FullyConfirmed(s, i) {
      SafeEntryIsConfirmed(s, i);
    }
  }
}
