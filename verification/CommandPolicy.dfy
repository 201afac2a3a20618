/** Classification of command names into capability decisions.

    Case folding is a parameter, so every statement holds for any folding table. */
module CommandPolicy {
  import opened Wrappers
  import opened Policy

  datatype Operation = Read | Steer | Write | Erase | Administer

  /** One capability column per operation, in declaration order. */
  datatype FamilyPolicy =
    FamilyPolicy(prefix: string, columns: seq<(Operation, Capability)>, readonly: bool)

  /** A live required scope, already case-folded; a tuple grants access through any member. */
  datatype Scope = NoScope | Named(value: string) | OneOf(members: seq<Scope>)

  datatype CommandProfile = CommandProfile(operationOverride: Option<Operation>)

  // ---------------------------------------------------------------- tables

  const MEDIA_FAMILIES: seq<FamilyPolicy> := [
    FamilyPolicy("music/playlists/",
                 [(Read, QueryLibrary), (Write, EditPlaylists), (Erase, DeletePlaylists)], false),
    FamilyPolicy("music/favorites/", [(Read, QueryLibrary), (Write, EditFavorites), (Erase, DeleteFavorites)], false),
    FamilyPolicy("music/",
                 [(Read, QueryLibrary), (Steer, ControlMedia), (Write, EditLibrary), (Erase, DeleteLibrary)], false),
    FamilyPolicy("smart_playlists/",
                 [(Read, QueryLibrary), (Write, EditPlaylists), (Erase, DeletePlaylists)], false),
    FamilyPolicy("statistics/", [(Read, QueryLibrary)], true),
    FamilyPolicy("players/cmd/volume_", [(Steer, ControlVolume)], false),
    FamilyPolicy("players/cmd/", [(Steer, ControlPlayers)], false),
    FamilyPolicy("players/sleep_timer/",
                 [(Read, QueryPlayers), (Steer, ControlPlayback), (Erase, ControlPlayback)], false),
    FamilyPolicy("players/", [(Read, QueryPlayers)], false),
    FamilyPolicy("player_queues/",
                 [(Read, QueryQueue), (Steer, EditQueue), (Write, EditQueue), (Erase, DeleteQueue)], false)]

  const SYSTEM_FAMILIES: seq<FamilyPolicy> := [
    FamilyPolicy("metadata/", [(Read, QueryMetadata)], false),
    FamilyPolicy("config/providers", [(Read, ConfigRead), (Write, ConfigWriteProvider)], false),
    FamilyPolicy("config/core", [(Read, ConfigRead), (Write, ConfigWriteCore)], false),
    FamilyPolicy("config/players", [(Read, ConfigRead), (Write, ConfigWritePlayer)], false),
    FamilyPolicy("config/player_queues", [(Read, ConfigRead), (Write, ConfigWritePlayer)], false),
    FamilyPolicy("config/dsp_presets/", [(Read, ConfigRead), (Write, ConfigWritePlayer)], false),
    FamilyPolicy("config/dsp_irs/", [(Read, ConfigRead), (Write, ConfigWritePlayer)], false),
    FamilyPolicy("storage/", [(Read, ConfigRead), (Write, ConfigWriteProvider)], false),
    FamilyPolicy("streams/", [(Read, ConfigRead), (Write, ConfigWriteCore)], false),
    FamilyPolicy("diagnostics/", [(Read, DebugInspect)], true),
    FamilyPolicy("providers", [(Read, DebugProviders)], false)]

  const FAMILY_POLICIES := MEDIA_FAMILIES + SYSTEM_FAMILIES

  function ScopeColumns(scope: string): Option<seq<(Operation, Capability)>> {
    var media := MediaScopeColumns(scope);
    if media.Some? then media else ServerScopeColumns(scope)
  }

  function MediaScopeColumns(scope: string): Option<seq<(Operation, Capability)>> {
    if scope == "library.read" then Some([(Read, QueryLibrary)])
    else if scope in {"library.write", "library.manage"} then Some([(Write, EditLibrary), (Erase, DeleteLibrary)])
    else if scope == "players.read" then Some([(Read, QueryPlayers)])
    else if scope == "players.control" then Some([(Steer, ControlPlayers)])
    else if scope == "queues.read" then Some([(Read, QueryQueue)])
    else if scope == "queues.control" then Some([(Steer, EditQueue), (Erase, DeleteQueue)])
    else None
  }

  function ServerScopeColumns(scope: string): Option<seq<(Operation, Capability)>> {
    if scope == "providers.read" then Some([(Read, DebugProviders)])
    else if scope in {"config.players.read", "config.providers.read", "config.core.read"}
    then Some([(Read, ConfigRead)])
    else if scope == "config.players.write" then Some([(Write, ConfigWritePlayer)])
    else if scope in {"config.providers.write", "config.providers.own"} then Some([(Write, ConfigWriteProvider)])
    else if scope == "config.core.write" then Some([(Write, ConfigWriteCore)])
    else if scope in {"system.read", "system.manage"} then Some([(Administer, SystemAdmin)])
    else None
  }

  const PLAYBACK_COMMANDS := {
    "player_queues/autoplay", "player_queues/crossfade", "player_queues/dont_stop_the_music",
    "player_queues/next", "player_queues/overlay", "player_queues/pause", "player_queues/play",
    "player_queues/play_index", "player_queues/play_media", "player_queues/play_pause",
    "player_queues/previous", "player_queues/repeat", "player_queues/resume", "player_queues/seek",
    "player_queues/set_playback_speed", "player_queues/shuffle", "player_queues/skip",
    "player_queues/stop", "player_queues/transfer", "players/cmd/next", "players/cmd/pause",
    "players/cmd/play", "players/cmd/play_pause", "players/cmd/previous", "players/cmd/repeat",
    "players/cmd/resume", "players/cmd/seek", "players/cmd/shuffle", "players/cmd/stop"}

  const VOLUME_COMMANDS := {
    "players/cmd/group_volume", "players/cmd/group_volume_down", "players/cmd/group_volume_mute",
    "players/cmd/group_volume_up", "players/cmd/volume_down", "players/cmd/volume_mute",
    "players/cmd/volume_set", "players/cmd/volume_up"}

  const DESTRUCTIVE_VERBS := {"clear", "delete", "remove", "reset", "revoke"}

  function Guarded(c: Capability): CommandDecision {
    CommandDecision({c}, NoPreflight, {}, None, false)
  }

  function HardDenied(): CommandDecision {
    CommandDecision({}, NoPreflight, {}, None, true)
  }

  function ExactPolicy(command: string): Option<CommandDecision> {
    var media := ExactMediaPolicy(command);
    if media.Some? then media
    else
      var config := ExactConfigPolicy(command);
      if config.Some? then config else ExactExtraPolicy(command)
  }

  function ExactMediaPolicy(command: string): Option<CommandDecision> {
    if command in PLAYBACK_COMMANDS then Some(Guarded(ControlPlayback))
    else if command in {"music/mark_played", "music/mark_unplayed", "players/cmd/play_announcement"}
    then Some(Guarded(ControlMedia))
    else if command in VOLUME_COMMANDS then Some(Guarded(ControlVolume))
    else if command == "music/radios/radio_tracks" then Some(Guarded(QueryLibrary))
    else if command in {"music/recommendations", "music/recommendations/items", "music/recently_played_items"}
    then Some(Guarded(QueryMetadata))
    else if command == "players/tts_engines" then Some(Guarded(QueryPlayers))
    else if command == "player_queues/save_as_playlist" then Some(Guarded(EditPlaylists))
    else if command in {"player_queues/delete_item", "player_queues/clear", "fastmcp/queue/remove_items_safe"}
    then Some(Guarded(DeleteQueue))
    else None
  }

  function ExactConfigPolicy(command: string): Option<CommandDecision> {
    if command == "config/providers/reload" then Some(Guarded(ConfigWriteProvider))
    else if command == "config/flows/submit"
    then Some(CommandDecision({}, ConfigFlowSubmit, {ConfigWriteProvider, ConfigWritePlayer},
                              Some(ConfigWriteSecret), false))
    else if command == "config/flows/get" then Some(Guarded(ConfigRead))
    else if command == "config/flows/abort"
    then Some(CommandDecision({}, ConfigFlowAbort, {ConfigWriteProvider, ConfigWritePlayer}, None, false))
    else if command in {"players/create_group_player", "players/remove_group_player", "players/remove"}
    then Some(Guarded(ConfigWritePlayer))
    else if command == "players/add_currently_playing_to_favorites" then Some(Guarded(EditFavorites))
    else if command == "metadata/set_default_preferred_language" then Some(Guarded(ConfigWriteCore))
    else if command in {"metadata/set_preferred_language", "metadata/update_metadata"} then Some(Guarded(EditLibrary))
    else None
  }

  function ExactExtraPolicy(command: string): Option<CommandDecision> {
    if command in {"fastmcp/debug/tail_log", "fastmcp/debug/log_stats"} then Some(Guarded(DebugLogs))
    else if command in {"fastmcp/debug/recent_events", "fastmcp/debug/event_buffer_stats"}
    then Some(Guarded(DebugEvents))
    else if command in {"fastmcp/debug/health", "fastmcp/debug/routes", "fastmcp/debug/packages"}
    then Some(Guarded(DebugProviders))
    else if command == "party/skip" then Some(Guarded(ControlPlayback))
    else if command in {"party/add_to_queue", "party/boost_queue_item"}
    then Some(CommandDecision({EditQueue, ControlPlayback}, NoPreflight, {}, None, false))
    else if command in {"party/url", "yandex_station/command"} then Some(Guarded(SystemAdmin))
    else None
  }

  // ---------------------------------------------------------------- classification

  function IsHardDenied(command: string): bool {
    command in {"dashboard/register", "dashboard/unregister", "music/tracks/preview"}
    || "auth/" <= command
  }

  function IsSystemCommand(command: string): bool {
    || "audio_analysis/" <= command || "dashboard/" <= command
    || "logging/" <= command || "tasks/" <= command
    || command in {"info", "translations/locales"}
  }

  predicate Matches(f: FamilyPolicy, command: string) {
    if f.prefix != [] && f.prefix[|f.prefix| - 1] in {'/', '_'} then f.prefix <= command
    else command == f.prefix || f.prefix + "/" <= command
  }

  /** `_matching_family`: the first of the longest matching families. */
  function LongestMatch(fs: seq<FamilyPolicy>, command: string): Option<FamilyPolicy> {
    if fs == [] then None
    else
      var later := LongestMatch(fs[1..], command);
      if Matches(fs[0], command) && (later.None? || |fs[0].prefix| >= |later.value.prefix|)
      then Some(fs[0]) else later
  }

  function Column(columns: seq<(Operation, Capability)>, operation: Operation): Option<Capability> {
    if columns == [] then None
    else if columns[0].0 == operation then Some(columns[0].1)
    else Column(columns[1..], operation)
  }

  function EndsWith(s: string, suffix: string): bool {
    |suffix| <= |s| && s[|s| - |suffix|..] == suffix
  }

  /** The privilege order read, control, write, system. */
  function Rank(op: Operation): nat {
    match op
    case Read => 0 case Steer => 1 case Write => 2 case Administer => 3
    case Erase => 4
  }

  /** `_scope_operation`: a tuple is only as privileged as its weakest member. */
  function ScopeOperation(scope: Scope): Option<Operation> {
    match scope
    case NoScope => None
    case OneOf(members) => WeakestOperation(members)
    case Named(value) =>
      if "system." <= value then Some(Administer)
      else if EndsWith(value, ".control") then Some(Steer)
      else if EndsWith(value, ".write") || EndsWith(value, ".manage") || EndsWith(value, ".own") then Some(Write)
      else if EndsWith(value, ".read") then Some(Read)
      else None
  }

  function WeakestOperation(members: seq<Scope>): Option<Operation> {
    if members == [] then None
    else
      var first, later := ScopeOperation(members[0]), WeakestOperation(members[1..]);
      if first.None? then later
      else if later.None? || Rank(first.value) <= Rank(later.value) then first
      else later
  }

  /** `_scope_family`: the columns of the weakest member, or None when any part is unmapped. */
  function ScopeFamily(scope: Scope): Option<seq<(Operation, Capability)>> {
    match scope
    case NoScope => None
    case Named(value) => ScopeColumns(value)
    case OneOf(members) => WeakestFamily(members)
  }

  function WeakestFamily(members: seq<Scope>): Option<seq<(Operation, Capability)>> {
    if members == [] then None
    else
      var first := ScopeFamily(members[0]);
      if first.None? || |members| == 1 then first
      else
        var later := WeakestFamily(members[1..]);
        if later.None? then None
        else if first.value != [] && later.value != []
                && Rank(first.value[0].0) > Rank(later.value[0].0) then later
        else first
  }

  /** The words of a command name: its path parts split at underscores and hyphens. */
  function Words(name: string): seq<string> {
    WordsFrom(name, "")
  }

  function WordsFrom(rest: string, word: string): seq<string> {
    if rest == [] then [word]
    else if rest[0] in {'/', '_', '-'} then [word] + WordsFrom(rest[1..], "")
    else WordsFrom(rest[1..], word + [rest[0]])
  }

  predicate AnyDestructive(words: seq<string>) {
    words != [] && (words[0] in DESTRUCTIVE_VERBS || AnyDestructive(words[1..]))
  }

  predicate HasDestructiveWord(name: string) {
    AnyDestructive(Words(name))
  }

  /** `_operation`. */
  function OperationOf(folded: string, scope: Scope, profile: Option<CommandProfile>,
                       columns: seq<(Operation, Capability)>, readonly: bool): Operation {
    if readonly then Read
    else if HasDestructiveWord(folded) then Erase
    else if profile.Some? && profile.value.operationOverride.Some? then profile.value.operationOverride.value
    else if ScopeOperation(scope).Some? then ScopeOperation(scope).value
    else if |columns| == 1 then columns[0].0
    else Administer
  }

  function RequiredCapability(f: FamilyPolicy, op: Operation): Option<Capability> {
    var own := Column(f.columns, op);
    if own.None? && op == Erase then Column(f.columns, Write) else own
  }

  /** `_scope_fallback_policy`: a mutating command never inherits a read column. */
  function ScopeFallback(folded: string, scope: Scope, profile: Option<CommandProfile>): CommandDecision {
    match ScopeFamily(scope)
    case None => HardDenied()
    case Some(columns) =>
      var op := OperationOf(folded, scope, profile, columns, false);
      var own := Column(columns, op);
      if own.Some? then Guarded(own.value)
      else if columns != [] && (op == Read || columns[0].0 != Read) then Guarded(columns[0].1)
      else HardDenied()
  }

  function PreflightFor(command: string): PreflightKind {
    if command in {"config/providers/get_value", "config/core/get_value", "config/players/get_value"}
    then ConfigSecretRead
    else if command in {"config/providers/save", "config/core/save", "config/players/save"} then ConfigSecretWrite
    else if command in {"storage/network_shares/add", "storage/network_shares/update"} then StorageSecretWrite
    else if command == "music/favorites/set_item" then FavoriteClear
    else NoPreflight
  }

  /** `resolve_command_policy`. */
  function ResolveCommandPolicy(command: string, folded: string, scope: Scope,
                                profile: Option<CommandProfile>): CommandDecision {
    if IsHardDenied(command) then HardDenied()
    else
      var exact := ExactPolicy(command);
      if exact.Some? then exact.value
      else if IsSystemCommand(command) then Guarded(SystemAdmin)
      else
        FamilyDecision(LongestMatch(FAMILY_POLICIES, command), PreflightFor(command), folded, scope, profile)
  }

  /** The decision for a name outside the exact table, by its family or else by its scope. */
  function FamilyDecision(family: Option<FamilyPolicy>, kind: PreflightKind, folded: string,
                          scope: Scope, profile: Option<CommandProfile>): CommandDecision {
    match family
    case None => ScopeFallback(folded, scope, profile)
    case Some(f) =>
      match RequiredCapability(f, OperationOf(folded, scope, profile, f.columns, f.readonly))
      case None => HardDenied()
      case Some(c) =>
        CommandDecision({c}, kind, {},
          if kind in {ConfigSecretWrite, StorageSecretWrite} then Some(ConfigWriteSecret) else None,
          false)
  }

  // ---------------------------------------------------------------- classification is safe

  predicate IsReadCapability(c: Capability) {
    FamilyOf(c) == Query || FamilyOf(c) == Debug || c == ConfigRead
  }

  lemma ExactDecisionsAreGuarded(command: string)
    ensures ExactPolicy(command).Some? ==> FailClosed(ExactPolicy(command).value)
  {
    ExactMediaGuarded(command);
    ExactConfigGuarded(command);
    ExactExtraGuarded(command);
  }

  lemma ExactMediaGuarded(command: string)
    ensures ExactMediaPolicy(command).Some? ==> FailClosed(ExactMediaPolicy(command).value)
  {}

  lemma ExactConfigGuarded(command: string)
    ensures ExactConfigPolicy(command).Some? ==> FailClosed(ExactConfigPolicy(command).value)
  {}

  lemma ExactExtraGuarded(command: string)
    ensures ExactExtraPolicy(command).Some? ==> FailClosed(ExactExtraPolicy(command).value)
  {}

  lemma FamilyDecisionFailsClosed(family: Option<FamilyPolicy>, kind: PreflightKind, folded: string,
                                  scope: Scope, profile: Option<CommandProfile>)
    ensures FailClosed(FamilyDecision(family, kind, folded, scope, profile))
  {}

  /** Every command, scope and profile is denied outright or guarded by a capability. */
  lemma ClassificationFailsClosed(command: string, folded: string, scope: Scope,
                                  profile: Option<CommandProfile>)
    ensures FailClosed(ResolveCommandPolicy(command, folded, scope, profile))
  {
    ExactDecisionsAreGuarded(command);
    FamilyDecisionFailsClosed(LongestMatch(FAMILY_POLICIES, command), PreflightFor(command),
                              folded, scope, profile);
  }

  /** A table whose erase and write columns are never read capabilities. */
  predicate MutationsGuarded(columns: seq<(Operation, Capability)>) {
    forall i | 0 <= i < |columns| :: columns[i].0 != Read ==> !IsReadCapability(columns[i].1)
  }

  lemma {:induction false} ColumnIn(columns: seq<(Operation, Capability)>, op: Operation)
    ensures Column(columns, op).Some? ==> exists i | 0 <= i < |columns| ::
              columns[i] == (op, Column(columns, op).value)
  {
    if columns != [] && columns[0].0 != op {
      ColumnIn(columns[1..], op);
    }
  }

  lemma FamiliesGuarded()
    ensures forall i | 0 <= i < |FAMILY_POLICIES| :: MutationsGuarded(FAMILY_POLICIES[i].columns)
  {
    MediaFamiliesGuarded();
    SystemFamiliesGuarded();
    assert forall i | |MEDIA_FAMILIES| <= i < |FAMILY_POLICIES| ::
      FAMILY_POLICIES[i] == SYSTEM_FAMILIES[i - |MEDIA_FAMILIES|];
  }

  lemma MediaFamiliesGuarded()
    ensures forall i | 0 <= i < |MEDIA_FAMILIES| :: MutationsGuarded(MEDIA_FAMILIES[i].columns)
  {}

  lemma SystemFamiliesGuarded()
    ensures forall i | 0 <= i < |SYSTEM_FAMILIES| :: MutationsGuarded(SYSTEM_FAMILIES[i].columns)
  {}

  lemma MediaScopesGuarded(value: string)
    ensures MediaScopeColumns(value).Some? ==> MutationsGuarded(MediaScopeColumns(value).value)
  {}

  lemma ServerScopesGuarded(value: string)
    ensures ServerScopeColumns(value).Some? ==> MutationsGuarded(ServerScopeColumns(value).value)
  {}

  lemma {:induction false} ScopeFamilyGuarded(scope: Scope)
    ensures ScopeFamily(scope).Some? ==> MutationsGuarded(ScopeFamily(scope).value)
    decreases scope, 0
  {
    match scope
    case NoScope =>
    case Named(value) =>
      MediaScopesGuarded(value);
      ServerScopesGuarded(value);
    case OneOf(members) => WeakestFamilyGuarded(members);
  }

  lemma {:induction false} WeakestFamilyGuarded(members: seq<Scope>)
    ensures WeakestFamily(members).Some? ==> MutationsGuarded(WeakestFamily(members).value)
    decreases members, 1
  {
    if members != [] {
      ScopeFamilyGuarded(members[0]);
      WeakestFamilyGuarded(members[1..]);
    }
  }

  lemma {:induction false} LongestMatchIn(fs: seq<FamilyPolicy>, command: string)
    ensures LongestMatch(fs, command).Some? ==>
              var f := LongestMatch(fs, command).value;
              (exists i | 0 <= i < |fs| :: fs[i] == f) && Matches(f, command)
    ensures forall i | 0 <= i < |fs| && Matches(fs[i], command) ::
              LongestMatch(fs, command).Some?
              && |fs[i].prefix| <= |LongestMatch(fs, command).value.prefix|
  {
    if fs != [] {
      LongestMatchIn(fs[1..], command);
      assert forall i | 1 <= i < |fs| :: fs[i] == fs[1..][i - 1];
    }
  }

  lemma ChosenFamilyGuarded(command: string)
    ensures LongestMatch(FAMILY_POLICIES, command).Some? ==>
              MutationsGuarded(LongestMatch(FAMILY_POLICIES, command).value.columns)
  {
    FamiliesGuarded();
    LongestMatchIn(FAMILY_POLICIES, command);
  }

  predicate GuardsMutation(d: CommandDecision) {
    d.hardDenied || exists c :: c in d.required && !IsReadCapability(c)
  }

  lemma FamilyDecisionGuarded(family: Option<FamilyPolicy>, kind: PreflightKind, folded: string,
                              scope: Scope, profile: Option<CommandProfile>)
    requires HasDestructiveWord(folded)
    requires family.Some? ==> !family.value.readonly && MutationsGuarded(family.value.columns)
    ensures GuardsMutation(FamilyDecision(family, kind, folded, scope, profile))
  {
    var d := FamilyDecision(family, kind, folded, scope, profile);
    match family {
      case Some(f) =>
        ColumnIn(f.columns, Erase);
        ColumnIn(f.columns, Write);
        if !d.hardDenied {
          assert RequiredCapability(f, Erase).value in d.required;
        }
      case None =>
        ScopeFamilyGuarded(scope);
        if !d.hardDenied {
          var columns := ScopeFamily(scope).value;
          ColumnIn(columns, Erase);
          var own := Column(columns, Erase);
          assert (if own.Some? then own.value else columns[0].1) in d.required;
        }
    }
  }

  /** A destructive name outside the read-only families is decided by the exact table, or
      denied outright, or guarded by a capability that is not a read. */
  lemma DestructiveNamesAreGuarded(command: string, folded: string, scope: Scope,
                                   profile: Option<CommandProfile>)
    requires HasDestructiveWord(folded)
    ensures var d := ResolveCommandPolicy(command, folded, scope, profile);
      || ExactPolicy(command) == Some(d)
      || (LongestMatch(FAMILY_POLICIES, command).Some?
            && LongestMatch(FAMILY_POLICIES, command).value.readonly)
      || GuardsMutation(d)
  {
    var family := LongestMatch(FAMILY_POLICIES, command);
    if family.None? || !family.value.readonly {
      ChosenFamilyGuarded(command);
      FamilyDecisionGuarded(family, PreflightFor(command), folded, scope, profile);
      assert SystemAdmin in Guarded(SystemAdmin).required;
      assert GuardsMutation(HardDenied()) && GuardsMutation(Guarded(SystemAdmin));
      ResolveParts(command, folded, scope, profile);
    }
  }

  lemma ResolveParts(command: string, folded: string, scope: Scope, profile: Option<CommandProfile>)
    ensures var d := ResolveCommandPolicy(command, folded, scope, profile);
      || ExactPolicy(command) == Some(d)
      || d in {HardDenied(), Guarded(SystemAdmin),
               FamilyDecision(LongestMatch(FAMILY_POLICIES, command), PreflightFor(command), folded, scope, profile)}
  {}

  /** The chosen family ends at a segment boundary of the name, and every other family that
      matches is a shorter prefix of the chosen one, whatever the order of the table. */
  lemma LongestFamilyAtBoundary(command: string)
    requires LongestMatch(FAMILY_POLICIES, command).Some?
    ensures var p := LongestMatch(FAMILY_POLICIES, command).value.prefix;
      && p <= command
      && (command == p || command[|p|] == '/' || (p != [] && p[|p| - 1] in {'/', '_'}))
    ensures forall i | 0 <= i < |FAMILY_POLICIES| && Matches(FAMILY_POLICIES[i], command) ::
              FAMILY_POLICIES[i].prefix <= LongestMatch(FAMILY_POLICIES, command).value.prefix
  {
    LongestMatchIn(FAMILY_POLICIES, command);
    var p := LongestMatch(FAMILY_POLICIES, command).value.prefix;
    assert p <= p + "/";
    forall i | 0 <= i < |FAMILY_POLICIES| && Matches(FAMILY_POLICIES[i], command)
      ensures FAMILY_POLICIES[i].prefix <= p
    {
      var q := FAMILY_POLICIES[i].prefix;
      assert q <= q + "/";
      assert q == command[..|q|] && p == command[..|p|];
    }
  }
}
