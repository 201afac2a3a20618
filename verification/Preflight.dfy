/** Request-dependent preflight: what live configuration may add to a call's requirements,
    once before confirmation and once more, synchronously, at the final seal. */
module Preflight {
  import opened Wrappers
  import opened Policy
  import opened CommandPolicy

  datatype Result<T> = Ok(value: T) | ToolError

  datatype CommandPreflight =
    CommandPreflight(secureConfigValue: Option<bool>, additional: set<Capability>)

  /** What the arguments say and the live configuration answers at one moment. */
  datatype Answers = Answers(
    valueIsSecure: Option<bool>,   // None: the value cannot be classified
    valuesAreMapping: bool,
    entriesReadable: bool,         // the getter answered with entries
    namesSecretKey: bool,          // some submitted key is secret among those entries
    passwordGiven: bool,
    favoriteGiven: bool,
    flowArgumentsValid: bool,
    flowScope: string,             // case-folded; empty when the flow is unknown
    stepEntriesListed: bool)

  const EMPTY := CommandPreflight(None, {})

  function Requires(s: set<Capability>): CommandPreflight {
    CommandPreflight(None, s)
  }

  /** `_setup_flow_write_capability`. */
  function FlowCapability(scope: string): Option<Capability> {
    if scope in {"config.providers.write", "config.providers.own"} then Some(ConfigWriteProvider)
    else if scope == "config.players.write" then Some(ConfigWritePlayer)
    else None
  }

  /** `preflight_command`. */
  function PreflightCommand(kind: PreflightKind, a: Answers): Result<CommandPreflight> {
    match kind
    case ConfigSecretRead =>
      if a.valueIsSecure.None? then ToolError else Ok(CommandPreflight(a.valueIsSecure, {}))
    case ConfigSecretWrite =>
      if !a.valuesAreMapping then Ok(EMPTY)
      else if !a.entriesReadable then ToolError
      else Ok(if a.namesSecretKey then Requires({ConfigWriteSecret}) else EMPTY)
    case StorageSecretWrite =>
      Ok(if a.passwordGiven then Requires({ConfigWriteSecret}) else EMPTY)
    case FavoriteClear =>
      Ok(if a.favoriteGiven then EMPTY else Requires({DeleteFavorites}))
    case ConfigFlowSubmit =>
      var c := FlowCapability(a.flowScope);
      if !a.flowArgumentsValid || c.None? || !a.stepEntriesListed then ToolError
      else Ok(Requires({c.value} + if a.namesSecretKey then {ConfigWriteSecret} else {}))
    case ConfigFlowAbort =>
      var c := FlowCapability(a.flowScope);
      if !a.flowArgumentsValid || c.None? then ToolError else Ok(Requires({c.value}))
    case NoPreflight => Ok(EMPTY)
  }

  /** `revalidate_preflight_command_sync`: what cannot be proved synchronously keeps its earlier
      class, except that an unreadable setup-flow step counts as secret. */
  function RevalidateSync(kind: PreflightKind, a: Answers, earlier: CommandPreflight): Result<CommandPreflight> {
    match kind
    case ConfigSecretRead =>
      Ok(CommandPreflight(if a.valueIsSecure.None? then earlier.secureConfigValue else a.valueIsSecure, {}))
    case ConfigSecretWrite =>
      if !a.valuesAreMapping then Ok(EMPTY)
      else if !a.entriesReadable then Ok(earlier)
      else Ok(if a.namesSecretKey then Requires({ConfigWriteSecret}) else EMPTY)
    case StorageSecretWrite =>
      Ok(if a.passwordGiven then Requires({ConfigWriteSecret}) else EMPTY)
    case FavoriteClear =>
      Ok(if a.favoriteGiven then EMPTY else Requires({DeleteFavorites}))
    case ConfigFlowSubmit =>
      var c := FlowCapability(a.flowScope);
      if !a.flowArgumentsValid || c.None? then ToolError
      else Ok(Requires({c.value}
                       + if !a.stepEntriesListed || a.namesSecretKey then {ConfigWriteSecret} else {}))
    case ConfigFlowAbort =>
      var c := FlowCapability(a.flowScope);
      if !a.flowArgumentsValid || c.None? then ToolError else Ok(Requires({c.value}))
    case NoPreflight => Ok(earlier)
  }

  /** Everything a preflight kind can ever add. */
  function MayAdd(kind: PreflightKind): set<Capability> {
    match kind
    case NoPreflight => {}
    case ConfigSecretRead => {}
    case ConfigSecretWrite => {ConfigWriteSecret}
    case StorageSecretWrite => {ConfigWriteSecret}
    case FavoriteClear => {DeleteFavorites}
    case ConfigFlowSubmit => {ConfigWriteProvider, ConfigWritePlayer, ConfigWriteSecret}
    case ConfigFlowAbort => {ConfigWriteProvider, ConfigWritePlayer}
  }

  /** The preflight a call carries after both passes, or a refusal. */
  function FinalPreflight(kind: PreflightKind, before: Answers, sealed: Answers): Result<CommandPreflight> {
    match PreflightCommand(kind, before)
    case ToolError => ToolError
    case Ok(earlier) => RevalidateSync(kind, sealed, earlier)
  }

  lemma PreflightAddsOnlyItsKind(kind: PreflightKind, before: Answers, sealed: Answers)
    ensures PreflightCommand(kind, before).Ok? ==>
              PreflightCommand(kind, before).value.additional <= MayAdd(kind)
    ensures FinalPreflight(kind, before, sealed).Ok? ==>
              FinalPreflight(kind, before, sealed).value.additional <= MayAdd(kind)
  {}

  predicate Declares(d: CommandDecision) {
    d.preflight == FavoriteClear || MayAdd(d.preflight) <= Declared(d)
  }

  lemma ExactMediaDeclares(command: string)
    ensures ExactMediaPolicy(command).Some? ==> Declares(ExactMediaPolicy(command).value)
  {}

  lemma ExactConfigDeclares(command: string)
    ensures ExactConfigPolicy(command).Some? ==> Declares(ExactConfigPolicy(command).value)
  {}

  lemma ExactExtraDeclares(command: string)
    ensures ExactExtraPolicy(command).Some? ==> Declares(ExactExtraPolicy(command).value)
  {}

  lemma ExactDeclares(command: string)
    ensures ExactPolicy(command).Some? ==> Declares(ExactPolicy(command).value)
  {
    ExactMediaDeclares(command);
    ExactConfigDeclares(command);
    ExactExtraDeclares(command);
  }

  lemma FamilyDecisionDeclares(family: Option<FamilyPolicy>, kind: PreflightKind, folded: string,
                               scope: Scope, profile: Option<CommandProfile>)
    requires kind != ConfigFlowSubmit && kind != ConfigFlowAbort
    ensures Declares(FamilyDecision(family, kind, folded, scope, profile))
  {}

  /** Every decision but the favorite write declares all that its preflight may add. */
  lemma DecisionsDeclareTheirPreflight(command: string, folded: string, scope: Scope,
                                       profile: Option<CommandProfile>)
    ensures Declares(ResolveCommandPolicy(command, folded, scope, profile))
  {
    ExactDeclares(command);
    FamilyDecisionDeclares(LongestMatch(FAMILY_POLICIES, command), PreflightFor(command),
                           folded, scope, profile);
  }

  /** What one pass found for a decision: of its kind, and for the favorite write exactly what the
      argument says. */
  ghost predicate FoundFor(d: CommandDecision, favoriteGiven: bool, add: set<Capability>) {
    && add <= MayAdd(d.preflight)
    && (d.preflight == FavoriteClear ==> add == if favoriteGiven then {} else {DeleteFavorites})
  }

  /** Discovery holds against one pass: hidden means denied; an advertised allow asks for nothing in a call
      that is not denied, except that clearing a favorite asks when deleting favorites needs confirmation. */
  ghost predicate Conservative(d: CommandDecision, allowImpersonation: bool, p: Snapshot,
                               favoriteGiven: bool, add: set<Capability>, impersonating: bool) {
    && (CatalogMode(d, allowImpersonation, p) == Deny ==> EffectiveMode(d, p, add) == Deny)
    && (CatalogMode(d, allowImpersonation, p) == Allow && EffectiveMode(d, p, add) != Deny ==>
          (ConfirmationEvidence(d, p, add, impersonating) != {} <==>
             d.preflight == FavoriteClear && !favoriteGiven && p.Mode(DeleteFavorites) == Confirm))
  }

  /** Discovery is conservative for every command, whatever live configuration answers, both against the
      pass on which prompts are decided and against the sealed one that decides entry. */
  lemma DiscoveryIsConservative(command: string, folded: string, scope: Scope,
                                profile: Option<CommandProfile>, allowImpersonation: bool,
                                p: Snapshot, before: Answers, sealed: Answers, impersonating: bool)
    requires impersonating ==> allowImpersonation
    ensures var d := ResolveCommandPolicy(command, folded, scope, profile);
      && (PreflightCommand(d.preflight, before).Ok? ==>
            Conservative(d, allowImpersonation, p, before.favoriteGiven,
                         PreflightCommand(d.preflight, before).value.additional, impersonating))
      && (FinalPreflight(d.preflight, before, sealed).Ok? ==>
            Conservative(d, allowImpersonation, p, sealed.favoriteGiven,
                         FinalPreflight(d.preflight, before, sealed).value.additional, impersonating))
  {
    var d := ResolveCommandPolicy(command, folded, scope, profile);
    ClassificationFailsClosed(command, folded, scope, profile);
    DecisionsDeclareTheirPreflight(command, folded, scope, profile);
    BothPassesFind(d, before, sealed);
    var first, last := PreflightCommand(d.preflight, before), FinalPreflight(d.preflight, before, sealed);
    if first.Ok? {
      ConservativeDecision(d, allowImpersonation, p, before.favoriteGiven, first.value.additional, impersonating);
    }
    if last.Ok? {
      ConservativeDecision(d, allowImpersonation, p, sealed.favoriteGiven, last.value.additional, impersonating);
    }
  }

  lemma BothPassesFind(d: CommandDecision, before: Answers, sealed: Answers)
    ensures PreflightCommand(d.preflight, before).Ok? ==>
              FoundFor(d, before.favoriteGiven, PreflightCommand(d.preflight, before).value.additional)
    ensures FinalPreflight(d.preflight, before, sealed).Ok? ==>
              FoundFor(d, sealed.favoriteGiven, FinalPreflight(d.preflight, before, sealed).value.additional)
  {
    PreflightAddsOnlyItsKind(d.preflight, before, sealed);
  }

  lemma ConservativeDecision(d: CommandDecision, allowImpersonation: bool, p: Snapshot,
                             favoriteGiven: bool, add: set<Capability>, impersonating: bool)
    requires FailClosed(d) && Declares(d) && FoundFor(d, favoriteGiven, add)
    requires impersonating ==> allowImpersonation
    ensures Conservative(d, allowImpersonation, p, favoriteGiven, add, impersonating)
  {
    if CatalogMode(d, allowImpersonation, p) == Deny {
      HiddenNeverExecutes(d, allowImpersonation, p, add);
    } else if CatalogMode(d, allowImpersonation, p) == Allow && EffectiveMode(d, p, add) != Deny {
      if d.preflight == FavoriteClear {
        UndeclaredPrompts(d, p, add);
        assert DeleteFavorites in {DeleteFavorites};
      } else {
        AdvertisedAllowNeverPrompts(d, allowImpersonation, p, add, impersonating);
      }
    }
  }

  /** The preflight kind of a command, whatever its scope and profile. */
  function CommandKind(command: string): PreflightKind {
    if IsHardDenied(command) then NoPreflight
    else if ExactPolicy(command).Some? then ExactPolicy(command).value.preflight
    else if IsSystemCommand(command) || LongestMatch(FAMILY_POLICIES, command).None? then NoPreflight
    else PreflightFor(command)
  }

  /** Every decision about a command that is not denied outright has the command's kind. */
  lemma KindOfCommand(command: string, folded: string, scope: Scope, profile: Option<CommandProfile>)
    ensures var d := ResolveCommandPolicy(command, folded, scope, profile);
      d.hardDenied || d.preflight == CommandKind(command)
  {
    FamilyKind(LongestMatch(FAMILY_POLICIES, command), PreflightFor(command), folded, scope, profile);
  }

  /** So its decisions under any two scopes and profiles agree on it. */
  lemma OneKindPerCommand(command: string, folded: string, scope: Scope, profile: Option<CommandProfile>,
                          scope': Scope, profile': Option<CommandProfile>)
    ensures var d := ResolveCommandPolicy(command, folded, scope, profile);
      var d' := ResolveCommandPolicy(command, folded, scope', profile');
      d.hardDenied || d'.hardDenied || d.preflight == d'.preflight
  {
    KindOfCommand(command, folded, scope, profile);
    KindOfCommand(command, folded, scope', profile');
  }

  lemma FamilyKind(family: Option<FamilyPolicy>, kind: PreflightKind, folded: string, scope: Scope,
                   profile: Option<CommandProfile>)
    ensures var d := FamilyDecision(family, kind, folded, scope, profile);
      d.hardDenied || d.preflight == if family.None? then NoPreflight else kind
  {}

  const SET_FAVORITE := "music/favorites/set_item"

  lemma ApartAt(f: FamilyPolicy, command: string, j: nat)
    requires j < |f.prefix| && j < |command| && f.prefix[j] != command[j]
    ensures !Matches(f, command)
  {
    assert (f.prefix + "/")[j] == f.prefix[j];
  }

  lemma MediaFamiliesApart(i: nat)
    requires 3 <= i < |MEDIA_FAMILIES|
    ensures !Matches(MEDIA_FAMILIES[i], SET_FAVORITE)
  {
    assert MEDIA_FAMILIES[i].prefix[0] in {'s', 'p'};
    ApartAt(MEDIA_FAMILIES[i], SET_FAVORITE, 0);
  }

  lemma SystemFamiliesApart(i: nat)
    requires i < |SYSTEM_FAMILIES|
    ensures !Matches(SYSTEM_FAMILIES[i], SET_FAVORITE)
  {
    if i == 0 {
      ApartAt(SYSTEM_FAMILIES[0], SET_FAVORITE, 1);
    } else {
      assert SYSTEM_FAMILIES[i].prefix[0] in {'c', 's', 'd', 'p'};
      ApartAt(SYSTEM_FAMILIES[i], SET_FAVORITE, 0);
    }
  }

  const FAVORITES := MEDIA_FAMILIES[1]

  lemma FavoritesFamily()
    ensures LongestMatch(FAMILY_POLICIES, SET_FAVORITE) == Some(FAVORITES)
  {
    LongestMatchIn(FAMILY_POLICIES, SET_FAVORITE);
    assert FAMILY_POLICIES[1] == FAVORITES;
    assert SET_FAVORITE[..16] == FAVORITES.prefix;
    assert Matches(FAMILY_POLICIES[1], SET_FAVORITE);
    var f := LongestMatch(FAMILY_POLICIES, SET_FAVORITE).value;
    var i :| 0 <= i < |FAMILY_POLICIES| && FAMILY_POLICIES[i] == f;
    if 3 <= i < |MEDIA_FAMILIES| {
      MediaFamiliesApart(i);
    } else if i >= |MEDIA_FAMILIES| {
      SystemFamiliesApart(i - |MEDIA_FAMILIES|);
    } else if i == 0 {
      ApartAt(MEDIA_FAMILIES[0], SET_FAVORITE, 6);
    }
  }

  /** No exact name could be mistaken for the favorite write. */
  predicate ToldApart(command: string) {
    |command| == 24 && command[0] == 'm' ==> command[1] == 'e'
  }

  lemma ExactMediaApart(command: string)
    requires ExactMediaPolicy(command).Some?
    ensures ToldApart(command)
  {}

  lemma ExactConfigApart(command: string)
    requires ExactConfigPolicy(command).Some?
    ensures ToldApart(command)
  {}

  lemma ExactExtraApart(command: string)
    requires ExactExtraPolicy(command).Some?
    ensures ToldApart(command)
  {}

  lemma ByFamily(command: string, folded: string, scope: Scope, profile: Option<CommandProfile>)
    requires !ToldApart(command) && !IsHardDenied(command) && !IsSystemCommand(command)
    ensures ResolveCommandPolicy(command, folded, scope, profile)
         == FamilyDecision(LongestMatch(FAMILY_POLICIES, command), PreflightFor(command), folded, scope, profile)
  {
    if ExactMediaPolicy(command).Some? {
      ExactMediaApart(command);
    }
    if ExactConfigPolicy(command).Some? {
      ExactConfigApart(command);
    }
    if ExactExtraPolicy(command).Some? {
      ExactExtraApart(command);
    }
  }

  lemma {:induction false} WordEnds(word: string, c: char, rest: string, begun: string)
    requires c in {'/', '_', '-'} && forall i | 0 <= i < |word| :: word[i] !in {'/', '_', '-'}
    ensures WordsFrom(word + [c] + rest, begun) == [begun + word] + WordsFrom(rest, "")
  {
    var t := word + [c] + rest;
    if word == [] {
      assert t == [c] + rest && begun + word == begun;
    } else {
      WordEnds(word[1..], c, rest, begun + [word[0]]);
      assert t[1..] == word[1..] + [c] + rest;
      assert begun + [word[0]] + word[1..] == begun + word;
    }
  }

  lemma {:induction false} LastWord(word: string, begun: string)
    requires forall i | 0 <= i < |word| :: word[i] !in {'/', '_', '-'}
    ensures WordsFrom(word, begun) == [begun + word]
  {
    if word == [] {
      assert begun + word == begun;
    } else {
      LastWord(word[1..], begun + [word[0]]);
      assert begun + [word[0]] + word[1..] == begun + word;
    }
  }

  lemma FourWords(command: string, a: string, b: string, c: string, d: string)
    requires forall s, i | s in {a, b, c, d} && 0 <= i < |s| :: s[i] !in {'/', '_', '-'}
    requires command == a + ['/'] + (b + ['/'] + (c + ['_'] + d))
    ensures Words(command) == [a, b, c, d]
  {
    WordEnds(a, '/', b + ['/'] + (c + ['_'] + d), "");
    WordEnds(b, '/', c + ['_'] + d, "");
    WordEnds(c, '_', d, "");
    LastWord(d, "");
    assert "" + a == a && "" + b == b && "" + c == c && "" + d == d;
  }

  lemma NoneDestructive(words: seq<string>)
    requires |words| == 4
    requires forall i | 0 <= i < 4 :: words[i] !in DESTRUCTIVE_VERBS
    ensures !AnyDestructive(words)
  {
    assert !AnyDestructive(words[4..]);
    assert !AnyDestructive(words[3..]);
    assert !AnyDestructive(words[2..]);
    assert !AnyDestructive(words[1..]);
  }

  lemma FavoriteSpelled(command: string, music: string, favorites: string, put: string, item: string)
    requires command == SET_FAVORITE
    requires music == "music" && favorites == "favorites" && put == "set" && item == "item"
    ensures command == music + ['/'] + (favorites + ['/'] + (put + ['_'] + item))
  {
    assert put + ['_'] + item == "set_item";
    assert favorites + ['/'] + "set_item" == "favorites/set_item";
  }

  predicate OneWord(s: string) {
    s !in DESTRUCTIVE_VERBS && forall i | 0 <= i < |s| :: s[i] !in {'/', '_', '-'}
  }

  lemma FavoriteParts()
    ensures OneWord("music") && OneWord("favorites") && OneWord("set") && OneWord("item")
  {}

  lemma FavoriteWords(command: string)
    requires command == SET_FAVORITE
    ensures !HasDestructiveWord(command)
  {
    FavoriteParts();
    FavoriteSpelled(command, "music", "favorites", "set", "item");
    FourPlainWords(command, "music", "favorites", "set", "item");
  }

  lemma FourPlainWords(command: string, a: string, b: string, c: string, d: string)
    requires OneWord(a) && OneWord(b) && OneWord(c) && OneWord(d)
    requires command == a + ['/'] + (b + ['/'] + (c + ['_'] + d))
    ensures !HasDestructiveWord(command)
  {
    FourWords(command, a, b, c, d);
    NoneDestructive([a, b, c, d]);
  }

  lemma WriteScope(value: string)
    requires value == "library.write"
    ensures ScopeOperation(Named(value)) == Some(Write)
  {
    assert value[7..] == ".write" && value[5..] == "ry.write";
    assert value[0] == 'l';
  }

  lemma FavoriteOperation(command: string, value: string)
    requires command == SET_FAVORITE && value == "library.write"
    ensures OperationOf(command, Named(value), None, FAVORITES.columns, false) == Write
  {
    FavoriteWords(command);
    WriteScope(value);
  }

  lemma FavoriteName(command: string)
    requires command == SET_FAVORITE
    ensures !ToldApart(command) && !IsHardDenied(command) && !IsSystemCommand(command)
    ensures PreflightFor(command) == FavoriteClear
  {}

  lemma FavoriteDecision(command: string, value: string)
    requires command == SET_FAVORITE && value == "library.write"
    ensures FamilyDecision(LongestMatch(FAMILY_POLICIES, command), FavoriteClear, command, Named(value), None)
         == CommandDecision({EditFavorites}, FavoriteClear, {}, None, false)
  {
    FavoritesFamily();
    FavoriteOperation(command, value);
    FavoriteKind(FAVORITES, FavoriteClear, command, Named(value));
  }

  lemma FavoriteKind(f: FamilyPolicy, kind: PreflightKind, folded: string, scope: Scope)
    requires f == FAVORITES && kind == FavoriteClear
    requires OperationOf(folded, scope, None, f.columns, f.readonly) == Write
    ensures FamilyDecision(Some(f), kind, folded, scope, None)
         == CommandDecision({EditFavorites}, FavoriteClear, {}, None, false)
  {}

  /** The exception is real: clearing a favorite with the scope to write the library, under a policy that
      allows editing favorites and asks before deleting them, is advertised as allowed and asks. */
  lemma FavoriteClearPrompts(command: string, value: string, p: Snapshot, a: Answers) returns (d: CommandDecision)
    requires command == SET_FAVORITE && value == "library.write" && !a.favoriteGiven
    requires p.Mode(EditFavorites) == Allow && p.Mode(DeleteFavorites) == Confirm
    ensures d == ResolveCommandPolicy(command, command, Named(value), None)
    ensures d == CommandDecision({EditFavorites}, FavoriteClear, {}, None, false)
    ensures CatalogMode(d, false, p) == Allow
    ensures PreflightCommand(d.preflight, a) == Ok(Requires({DeleteFavorites}))
    ensures EffectiveMode(d, p, {DeleteFavorites}) == Confirm
    ensures ConfirmationEvidence(d, p, {DeleteFavorites}, false) == {Because(DeleteFavorites)}
  {
    FavoriteName(command);
    FavoriteDecision(command, value);
    d := CommandDecision({EditFavorites}, FavoriteClear, {}, None, false);
    ByFamily(command, command, Named(value), None);
    FavoriteModes(d, p);
  }

  /** Home control is such a policy. */
  lemma HomeControlAsks()
    ensures PolicySnapshot(HomeControl, map[]).Mode(EditFavorites) == Allow
    ensures PolicySnapshot(HomeControl, map[]).Mode(DeleteFavorites) == Confirm
  {}

  /** Under any policy that allows editing favorites and asks before deleting them. */
  lemma FavoriteModes(d: CommandDecision, p: Snapshot)
    requires d == CommandDecision({EditFavorites}, FavoriteClear, {}, None, false)
    requires p.Mode(EditFavorites) == Allow && p.Mode(DeleteFavorites) == Confirm
    ensures CatalogMode(d, false, p) == Allow
    ensures EffectiveMode(d, p, {DeleteFavorites}) == Confirm
    ensures ConfirmationEvidence(d, p, {DeleteFavorites}, false) == {Because(DeleteFavorites)}
  {
    var add := {DeleteFavorites};
    FavoriteMode(d, p);
    AuthorizedEvidence(d, p, add, false);
    assert ConfirmedCapabilities(d, p, add) == add;
    assert Reasons(add) == {Because(DeleteFavorites)};
  }

  lemma FavoriteMode(d: CommandDecision, p: Snapshot)
    requires d == CommandDecision({EditFavorites}, FavoriteClear, {}, None, false)
    requires p.Mode(EditFavorites) == Allow && p.Mode(DeleteFavorites) == Confirm
    ensures EffectiveMode(d, p, {}) == Allow && EffectiveMode(d, p, {DeleteFavorites}) == Confirm
  {
    EffectiveModeMeans(d, p, {});
    EffectiveModeMeans(d, p, {DeleteFavorites});
    assert DeleteFavorites in d.required + {DeleteFavorites};
  }
}
