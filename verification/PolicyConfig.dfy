/** Compiling raw provider values into an immutable resolver. Whatever is malformed fails closed. */
module PolicyConfig {
  import opened Wrappers
  import opened Policy

  /** A stored value as the parser sees it. */
  datatype Raw = Missing | NotText | Text(text: string)

  /** The keys the parser reads. Token suffixes are digests, taken as injective, so a key is known by
      the token ID itself. */
  datatype Key =
    | DefaultPolicy
    | TokenPolicy(tokenId: string)
    | DefaultMode(capability: Capability)
    | TokenMode(capability: Capability, tokenId: string)

  /** The provider values, and the entries of the manual token-ID list as text. */
  datatype ProviderConfig = ProviderConfig(values: map<Key, Raw>, manual: seq<string>)

  const INHERIT_POLICY := "Inherit"
  const LEGACY_READ_ONLY_POLICY := "Read-only"

  function PolicyValue(config: ProviderConfig, key: Key): Raw {
    if key in config.values then config.values[key] else Missing
  }

  function ProfileNamed(name: string): Option<Profile> {
    if name == "Safe queries" then Some(SafeQueries)
    else if name == "Home control" then Some(HomeControl)
    else if name == "Interactive admin" then Some(InteractiveAdmin)
    else if name == "Trusted" then Some(Trusted)
    else if name == "Custom" then Some(Custom)
    else None
  }

  /** `_parse_mode`. */
  function ParseMode(raw: Raw): PolicyMode {
    if !raw.Text? then Deny
    else if raw.text == "allow" then Allow
    else if raw.text == "confirm" then Confirm
    else Deny
  }

  datatype Selection = Inherit | Chosen(profile: Profile, modes: map<Capability, PolicyMode>)

  function PolicyKey(tokenId: Option<string>): Key {
    match tokenId case None => DefaultPolicy case Some(t) => TokenPolicy(t)
  }

  function ModeKey(c: Capability, tokenId: Option<string>): Key {
    match tokenId case None => DefaultMode(c) case Some(t) => TokenMode(c, t)
  }

  /** `_parse_selection`. */
  function ParseSelection(config: ProviderConfig, tokenId: Option<string>, allowInherit: bool): Selection {
    var raw := PolicyValue(config, PolicyKey(tokenId));
    var closed := Chosen(SafeQueries, map[]);
    if raw.Missing? then if allowInherit then Inherit else closed
    else if allowInherit && raw == Text(INHERIT_POLICY) then Inherit
    else if raw.NotText? || raw.text == LEGACY_READ_ONLY_POLICY then closed
    else
      var profile := ProfileNamed(raw.text);
      if profile.None? then closed
      else if profile.value != Custom then Chosen(profile.value, map[])
      else Chosen(Custom, map c: Capability | true :: ParseMode(PolicyValue(config, ModeKey(c, tokenId))))
  }

  predicate IsSpace(c: char) {
    c == ' ' || '\t' as int <= c as int <= '\r' as int
  }

  function StripLeft(s: string): string {
    if s != [] && IsSpace(s[0]) then StripLeft(s[1..]) else s
  }

  function StripRight(s: string): string {
    if s != [] && IsSpace(s[|s| - 1]) then StripRight(s[..|s| - 1]) else s
  }

  function Strip(s: string): string {
    StripRight(StripLeft(s))
  }

  /** `manual_token_ids`, as the set the compiler uses. */
  function ManualTokenIds(config: ProviderConfig): set<string> {
    set item | item in config.manual && Strip(item) != "" :: Strip(item)
  }

  /** An immutable resolver: an override without a snapshot inherits the default. */
  datatype PolicyResolver = PolicyResolver(default: Snapshot, overrides: map<string, Option<Snapshot>>)

  function SelectionSnapshot(s: Selection): Option<Snapshot> {
    match s case Inherit => None case Chosen(profile, modes) => Some(PolicySnapshot(profile, modes))
  }

  function Override(config: ProviderConfig, tokenId: string): Option<Snapshot> {
    SelectionSnapshot(ParseSelection(config, Some(tokenId), true))
  }

  function DefaultSnapshot(config: ProviderConfig): Snapshot {
    var s := ParseSelection(config, None, false);
    PolicySnapshot(s.profile, s.modes)
  }

  /** `build_policy_resolver`. */
  function BuildPolicyResolver(config: ProviderConfig, active: set<string>): PolicyResolver {
    PolicyResolver(DefaultSnapshot(config),
                   map id | id in ManualTokenIds(config) + (active - {""}) :: Override(config, id))
  }

  /** `PolicyResolver.resolve`. */
  function Resolve(r: PolicyResolver, tokenId: Option<string>): Snapshot {
    if tokenId.Some? && tokenId.value in r.overrides && r.overrides[tokenId.value].Some?
    then r.overrides[tokenId.value].value
    else r.default
  }

  /** Compiling the configuration for one token and nothing else. */
  function FromScratch(config: ProviderConfig, tokenId: Option<string>): Snapshot {
    Resolve(BuildPolicyResolver(config, if tokenId.Some? then {tokenId.value} else {}), tokenId)
  }

  /** A token's own policy when it has an ID and does not inherit, and the default otherwise. */
  lemma FromScratchIs(config: ProviderConfig, tokenId: Option<string>)
    ensures FromScratch(config, tokenId)
         == if tokenId.Some? && tokenId.value != "" && Override(config, tokenId.value).Some?
            then Override(config, tokenId.value).value
            else DefaultSnapshot(config)
  {}

  /** A resolver compiled for other tokens too answers like one compiled from scratch, exactly when it
      knows the token or the token's own policy would be the default anyway. */
  lemma ResolverAnswersFromScratch(config: ProviderConfig, active: set<string>, tokenId: Option<string>)
    ensures Resolve(BuildPolicyResolver(config, active), tokenId) == FromScratch(config, tokenId)
       <==> || tokenId.None? || tokenId.value == ""
            || tokenId.value in active || tokenId.value in ManualTokenIds(config)
            || Override(config, tokenId.value) in {None, Some(DefaultSnapshot(config))}
  {
    FromScratchIs(config, tokenId);
  }

  /** What a value must say, to the letter, to grant a mode other than deny. */
  predicate Grants(config: ProviderConfig, tokenId: Option<string>, c: Capability) {
    var raw := PolicyValue(config, PolicyKey(tokenId));
    raw.Text? &&
    match raw.text {
      case "Home control" => FamilyOf(c) in {Control, Edit, Delete}
      case "Interactive admin" => true
      case "Trusted" => true
      case "Custom" => PolicyValue(config, ModeKey(c, tokenId)) in {Text("allow"), Text("confirm")}
      case _ => false
    }
  }

  /** Fail closed: a capability beyond plain queries is granted only when the token's own policy, or
      the default it inherits, spells out a profile that grants it. Every other value, missing,
      malformed, legacy or misspelled, leaves it denied. */
  lemma OnlyExactTextGrants(config: ProviderConfig, tokenId: Option<string>, c: Capability)
    requires FamilyOf(c) != Query
    ensures FromScratch(config, tokenId).Mode(c) != Deny <==>
              if tokenId.Some? && tokenId.value != "" && Override(config, tokenId.value).Some?
              then Grants(config, tokenId, c)
              else Grants(config, None, c)
  {
    FromScratchIs(config, tokenId);
    if tokenId.Some? && Override(config, tokenId.value).Some? {
      SelectionGrants(config, tokenId, true, c);
    }
    SelectionGrants(config, None, false, c);
  }

  lemma SelectionGrants(config: ProviderConfig, tokenId: Option<string>, allowInherit: bool, c: Capability)
    requires FamilyOf(c) != Query && !ParseSelection(config, tokenId, allowInherit).Inherit?
    ensures var s := ParseSelection(config, tokenId, allowInherit);
      ProfileMode(s.profile, s.modes, c) != Deny <==> Grants(config, tokenId, c)
  {}
}
