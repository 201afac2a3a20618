/** Capabilities, policy modes, and the deny / confirm / allow algebra that decides one call. */
module Policy {
  import opened Wrappers

  datatype Capability =
    | QueryLibrary | QueryQueue | QueryPlayers | QueryMetadata
    | ControlPlayback | ControlVolume | ControlPlayers | ControlMedia
    | EditLibrary | EditQueue | EditPlaylists | EditFavorites
    | DeleteLibrary | DeleteQueue | DeletePlaylists | DeleteFavorites
    | DebugInspect | DebugLogs | DebugEvents | DebugProviders
    | ConfigRead | ConfigWriteProvider | ConfigWriteCore | ConfigWritePlayer | ConfigWriteSecret
    | SystemAdmin

  /** The capabilities in the order Python sorts their names. */
  const SORTED: seq<Capability> := [
    ConfigRead, ConfigWriteCore, ConfigWritePlayer, ConfigWriteProvider, ConfigWriteSecret,
    ControlMedia, ControlPlayback, ControlPlayers, ControlVolume,
    DebugEvents, DebugInspect, DebugLogs, DebugProviders,
    DeleteFavorites, DeleteLibrary, DeletePlaylists, DeleteQueue,
    EditFavorites, EditLibrary, EditPlaylists, EditQueue,
    QueryLibrary, QueryMetadata, QueryPlayers, QueryQueue, SystemAdmin]

  /** The part of a capability name before its first colon. */
  datatype Family = Query | Control | Edit | Delete | Debug | Config | System

  function FamilyOf(c: Capability): Family {
    match c
    case QueryLibrary => Query case QueryQueue => Query
    case QueryPlayers => Query case QueryMetadata => Query
    case ControlPlayback => Control case ControlVolume => Control
    case ControlPlayers => Control case ControlMedia => Control
    case EditLibrary => Edit case EditQueue => Edit
    case EditPlaylists => Edit case EditFavorites => Edit
    case DeleteLibrary => Delete case DeleteQueue => Delete
    case DeletePlaylists => Delete case DeleteFavorites => Delete
    case DebugInspect => Debug case DebugLogs => Debug
    case DebugEvents => Debug case DebugProviders => Debug
    case ConfigRead => Config case ConfigWriteProvider => Config
    case ConfigWriteCore => Config case ConfigWritePlayer => Config
    case ConfigWriteSecret => Config
    case SystemAdmin => System
  }

  datatype PolicyMode = Deny | Allow | Confirm

  datatype Profile = SafeQueries | HomeControl | InteractiveAdmin | Trusted | Custom

  /** A snapshot assigns every capability. */
  type Modes = m: map<Capability, PolicyMode> | forall c: Capability :: c in m
    ghost witness map c: Capability | true :: Deny

  datatype Snapshot = Snapshot(profile: Profile, modes: Modes) {
    function Mode(c: Capability): PolicyMode {
      modes[c]
    }
  }

  /** `policy_snapshot`: expand one profile. Missing Custom modes are denied. */
  function PolicySnapshot(profile: Profile, custom: map<Capability, PolicyMode>): Snapshot {
    Snapshot(profile, map c: Capability | true :: ProfileMode(profile, custom, c))
  }

  function ProfileMode(profile: Profile, custom: map<Capability, PolicyMode>, c: Capability): PolicyMode {
    match profile
    case Custom => if c in custom then custom[c] else Deny
    case Trusted => Allow
    case SafeQueries => if FamilyOf(c) == Query then Allow else Deny
    case HomeControl =>
      if FamilyOf(c) in {Query, Control, Edit} then Allow
      else if FamilyOf(c) == Delete then Confirm
      else Deny
    case InteractiveAdmin => if FamilyOf(c) in {Query, Control} then Allow else Confirm
  }

  // ---------------------------------------------------------------- one command's mode

  datatype PreflightKind =
    | NoPreflight | ConfigSecretRead | ConfigSecretWrite | StorageSecretWrite
    | FavoriteClear | ConfigFlowSubmit | ConfigFlowAbort

  datatype CommandDecision = CommandDecision(
    required: set<Capability>,
    preflight: PreflightKind,
    alternatives: set<Capability>,
    secret: Option<Capability>,
    hardDenied: bool)

  /** `combine_policy_modes`: deny, then confirm, then allow; nothing at all is denied. */
  function CombinePolicyModes(modes: set<PolicyMode>): PolicyMode {
    if modes == {} || Deny in modes then Deny
    else if Confirm in modes then Confirm
    else Allow
  }

  /** The best mode any alternative offers. */
  function AnyOf(p: Snapshot, alternatives: set<Capability>): PolicyMode {
    var modes := set c | c in alternatives :: p.Mode(c);
    if Allow in modes then Allow else if Confirm in modes then Confirm else Deny
  }

  /** `CommandDecision.effective_mode`. */
  function EffectiveMode(d: CommandDecision, p: Snapshot, additional: set<Capability>): PolicyMode {
    if d.hardDenied then Deny
    else
      var modes := set c | c in d.required + additional :: p.Mode(c);
      CombinePolicyModes(modes + if d.alternatives == {} then {} else {AnyOf(p, d.alternatives)})
  }

  /** The algebra read as three plain statements about single capabilities. */
  lemma EffectiveModeMeans(d: CommandDecision, p: Snapshot, additional: set<Capability>)
    ensures EffectiveMode(d, p, additional) == Deny <==>
              || d.hardDenied
              || (d.required + additional == {} && d.alternatives == {})
              || (exists c :: c in d.required + additional && p.Mode(c) == Deny)
              || (d.alternatives != {} && forall a | a in d.alternatives :: p.Mode(a) == Deny)
    ensures EffectiveMode(d, p, additional) == Allow <==>
              && !d.hardDenied
              && (d.required + additional != {} || d.alternatives != {})
              && (forall c | c in d.required + additional :: p.Mode(c) == Allow)
              && (d.alternatives != {} ==> exists a :: a in d.alternatives && p.Mode(a) == Allow)
  {
    var modes := set c | c in d.required + additional :: p.Mode(c);
    forall c | c in d.required + additional ensures p.Mode(c) in modes {}
    forall a | a in d.alternatives
      ensures p.Mode(a) == Allow ==> AnyOf(p, d.alternatives) == Allow
      ensures p.Mode(a) == Confirm ==> AnyOf(p, d.alternatives) != Deny
    {}
    if d.required + additional != {} {
      var c :| c in d.required + additional;
      assert p.Mode(c) in modes;
    }
    if d.alternatives != {} {
      var a :| a in d.alternatives;
    }
  }

  // ---------------------------------------------------------------- confirmation evidence

  datatype Reason = Because(capability: Capability) | Impersonation

  /** `_confirmed_capabilities`. */
  function ConfirmedCapabilities(d: CommandDecision, p: Snapshot, additional: set<Capability>): set<Capability> {
    (set c | c in d.required + additional && p.Mode(c) == Confirm)
    + (if exists a :: a in d.alternatives && p.Mode(a) == Allow then {}
       else set a | a in d.alternatives && p.Mode(a) == Confirm)
  }

  function Reasons(capabilities: set<Capability>): set<Reason> {
    set c | c in capabilities :: Because(c)
  }

  /** `_invocation_mode`. */
  function InvocationMode(d: CommandDecision, p: Snapshot, additional: set<Capability>,
                          impersonating: bool): PolicyMode {
    var mode := EffectiveMode(d, p, additional);
    if impersonating && mode == Allow then Confirm else mode
  }

  function FirstOf(order: seq<Capability>, from: set<Capability>): Option<Capability> {
    if order == [] then None
    else if order[0] in from then Some(order[0])
    else FirstOf(order[1..], from)
  }

  /** `_confirmation_capability`: the one reason named first. */
  function ConfirmationReason(d: CommandDecision, p: Snapshot, additional: set<Capability>): Reason {
    var required := d.required + additional;
    match FirstOf(SORTED, set c | c in required && p.Mode(c) == Confirm)
    case Some(c) => Because(c)
    case None =>
      var offered := if exists a :: a in d.alternatives && p.Mode(a) == Allow then {}
                     else set a | a in d.alternatives && p.Mode(a) == Confirm;
      match FirstOf(SORTED, offered)
      case Some(c) => Because(c)
      case None =>
        match FirstOf(SORTED, required)
        case Some(c) => Because(c)
        case None => Impersonation
  }

  /** `_confirmation_evidence`: the reasons that must have been elicited. */
  function ConfirmationEvidence(d: CommandDecision, p: Snapshot, additional: set<Capability>,
                                impersonating: bool): set<Reason> {
    if InvocationMode(d, p, additional, impersonating) == Allow then {}
    else
      var evidence := Reasons(ConfirmedCapabilities(d, p, additional))
                      + (if impersonating then {Impersonation} else {});
      if evidence == {} then {ConfirmationReason(d, p, additional)} else evidence
  }

  /** The policy in which the capabilities of s have been granted. */
  function Grant(p: Snapshot, s: set<Capability>): Snapshot {
    p.(modes := map c: Capability | true :: if c in s then Allow else p.modes[c])
  }

  predicate NeedsAlternative(d: CommandDecision, p: Snapshot) {
    d.alternatives != {} && forall a | a in d.alternatives :: p.Mode(a) != Allow
  }

  lemma GrantMode(p: Snapshot, s: set<Capability>, c: Capability)
    ensures Grant(p, s).Mode(c) == if c in s then Allow else p.Mode(c)
  {}

  lemma RequiredGranted(d: CommandDecision, p: Snapshot, additional: set<Capability>, s: set<Capability>)
    requires forall c | c in d.required + additional :: p.Mode(c) != Deny
    ensures (forall c | c in d.required + additional :: Grant(p, s).Mode(c) == Allow) <==>
              ConfirmedCapabilities(d, p, additional) * (d.required + additional) <= s
  {
    var confirmed := ConfirmedCapabilities(d, p, additional);
    forall c | c in d.required + additional
      ensures Grant(p, s).Mode(c) == Allow <==> c in s || p.Mode(c) == Allow
      ensures p.Mode(c) == Confirm ==> c in confirmed * (d.required + additional)
    {
      GrantMode(p, s, c);
    }
    if confirmed * (d.required + additional) <= s {
      forall c | c in d.required + additional ensures Grant(p, s).Mode(c) == Allow {}
    }
  }

  lemma AlternativeGranted(d: CommandDecision, p: Snapshot, s: set<Capability>)
    ensures (d.alternatives != {} ==> exists a :: a in d.alternatives && Grant(p, s).Mode(a) == Allow) <==>
              (NeedsAlternative(d, p) ==> s * d.alternatives != {})
  {
    forall a | a in d.alternatives ensures Grant(p, s).Mode(a) == Allow <==> a in s || p.Mode(a) == Allow {
      GrantMode(p, s, a);
    }
    if s * d.alternatives != {} {
      var a :| a in s * d.alternatives;
      assert Grant(p, s).Mode(a) == Allow;
    }
    if a :| a in d.alternatives && Grant(p, s).Mode(a) == Allow && p.Mode(a) != Allow {
      assert a in s * d.alternatives;
    }
  }

  /** Evidence is exact. Under a policy that asks for confirmation, granting a set of
      capabilities makes the call allowed if and only if the set holds every confirmed
      required capability and, when no alternative is allowed yet, some alternative. */
  lemma EvidenceIsExact(d: CommandDecision, p: Snapshot, additional: set<Capability>, s: set<Capability>)
    requires EffectiveMode(d, p, additional) == Confirm
    ensures EffectiveMode(d, Grant(p, s), additional) == Allow <==>
              && ConfirmedCapabilities(d, p, additional) * (d.required + additional) <= s
              && (NeedsAlternative(d, p) ==> s * d.alternatives != {})
  {
    EffectiveModeMeans(d, p, additional);
    EffectiveModeMeans(d, Grant(p, s), additional);
    RequiredGranted(d, p, additional, s);
    AlternativeGranted(d, p, s);
  }

  /** The evidence itself suffices, is never empty when confirmation is asked for, and is
      empty when the call is allowed. */
  lemma EvidenceSuffices(d: CommandDecision, p: Snapshot, additional: set<Capability>)
    ensures EffectiveMode(d, p, additional) == Confirm ==>
              && ConfirmedCapabilities(d, p, additional) != {}
              && EffectiveMode(d, Grant(p, ConfirmedCapabilities(d, p, additional)), additional) == Allow
    ensures EffectiveMode(d, p, additional) == Allow ==> ConfirmedCapabilities(d, p, additional) == {}
  {
    EffectiveModeMeans(d, p, additional);
    var confirmed := ConfirmedCapabilities(d, p, additional);
    if EffectiveMode(d, p, additional) == Confirm {
      EvidenceIsExact(d, p, additional, confirmed);
      if NeedsAlternative(d, p) {
        var a :| a in d.alternatives && p.Mode(a) == Confirm;
        assert a in confirmed * d.alternatives;
      } else {
        var c :| c in d.required + additional && p.Mode(c) == Confirm;
        assert c in confirmed;
      }
    }
  }

  /** So the fallback reason is never used for an authorized call: its evidence is exactly the
      confirmed capabilities, and impersonation when someone is impersonated. */
  lemma AuthorizedEvidence(d: CommandDecision, p: Snapshot, additional: set<Capability>, impersonating: bool)
    requires EffectiveMode(d, p, additional) != Deny
    ensures ConfirmationEvidence(d, p, additional, impersonating)
         == Reasons(ConfirmedCapabilities(d, p, additional))
            + (if impersonating then {Impersonation} else {})
    ensures ConfirmationEvidence(d, p, additional, impersonating) == {}
       <==> InvocationMode(d, p, additional, impersonating) == Allow
  {
    EvidenceSuffices(d, p, additional);
    var named := Reasons(ConfirmedCapabilities(d, p, additional));
    if EffectiveMode(d, p, additional) == Confirm {
      var c :| c in ConfirmedCapabilities(d, p, additional);
      assert Because(c) in named;
    } else {
      assert named == {};
    }
  }

  // ---------------------------------------------------------------- discovery

  /** `_catalog_mode`: the mode advertised for one command. */
  function CatalogMode(d: CommandDecision, allowImpersonation: bool, p: Snapshot): PolicyMode {
    var mode := EffectiveMode(d, p, {});
    if mode == Allow && (
      || allowImpersonation
      || (exists a :: a in d.alternatives && p.Mode(a) == Confirm)
      || (d.secret.Some? && p.Mode(d.secret.value) == Confirm))
    then Confirm
    else mode
  }

  /** What a decision declares that preflight may add. */
  function Declared(d: CommandDecision): set<Capability> {
    d.alternatives + if d.secret.Some? then {d.secret.value} else {}
  }

  /** What classification guarantees: denied outright, or guarded by some capability. */
  predicate FailClosed(d: CommandDecision) {
    d.hardDenied || d.required != {} || d.alternatives != {}
  }

  /** A command hidden as denied can never execute, whatever preflight adds. */
  lemma HiddenNeverExecutes(d: CommandDecision, allowImpersonation: bool, p: Snapshot,
                            additional: set<Capability>)
    requires FailClosed(d)
    requires CatalogMode(d, allowImpersonation, p) == Deny
    ensures EffectiveMode(d, p, additional) == Deny
  {
    EffectiveModeMeans(d, p, {});
    EffectiveModeMeans(d, p, additional);
    if c :| c in d.required + {} && p.Mode(c) == Deny {
      assert c in d.required + additional;
    }
  }

  /** A command advertised as allowed never prompts in a call that is not denied, as long as
      preflight adds only what the decision declares. */
  lemma AdvertisedAllowNeverPrompts(d: CommandDecision, allowImpersonation: bool, p: Snapshot,
                                    additional: set<Capability>, impersonating: bool)
    requires CatalogMode(d, allowImpersonation, p) == Allow
    requires additional <= Declared(d)
    requires impersonating ==> allowImpersonation
    requires EffectiveMode(d, p, additional) != Deny
    ensures ConfirmationEvidence(d, p, additional, impersonating) == {}
  {
    EffectiveModeMeans(d, p, {});
    EffectiveModeMeans(d, p, additional);
    forall c | c in d.required + additional ensures p.Mode(c) == Allow {
      if c in d.required {
        assert c in d.required + {};
      }
    }
  }

  /** For a decision that declares nothing, such as the favorite write, an advertised allow
      prompts exactly when preflight adds a capability whose mode is confirm. */
  lemma UndeclaredPrompts(d: CommandDecision, p: Snapshot, additional: set<Capability>)
    requires CatalogMode(d, false, p) == Allow
    requires EffectiveMode(d, p, additional) != Deny
    ensures ConfirmationEvidence(d, p, additional, false) != {} <==>
              exists c :: c in additional && p.Mode(c) == Confirm
  {
    EffectiveModeMeans(d, p, {});
    EffectiveModeMeans(d, p, additional);
    AuthorizedEvidence(d, p, additional, false);
    forall c | c in d.required ensures p.Mode(c) == Allow {
      assert c in d.required + {};
    }
    if c :| c in additional && p.Mode(c) == Confirm {
      assert c in d.required + additional;
    }
  }
}
