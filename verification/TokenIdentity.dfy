/** Bearer identities in a bounded least-recently-used registry, and the policy resolver that is
    recompiled whenever the registry or the policy configuration changes. */
module TokenIdentity {
  import opened Wrappers
  import opened Policy
  import opened PolicyConfig

  datatype Identity = Identity(userId: string, tokenId: Option<string>)

  /** One binding. The digest of a bearer is taken as injective, so the bearer stands for it. */
  datatype Entry = Entry(bearer: string, identity: Identity)

  // ---------------------------------------------------------------- an ordered dictionary

  function Position(es: seq<Entry>, bearer: string): (r: Option<nat>)
    ensures r.Some? ==> r.value < |es| && es[r.value].bearer == bearer
    ensures r.None? ==> forall e | e in es :: e.bearer != bearer
  {
    if es == [] then None
    else if es[0].bearer == bearer then Some(0)
    else
      var later := Position(es[1..], bearer);
      if later.None? then None else Some(later.value + 1)
  }

  function Find(es: seq<Entry>, bearer: string): Option<Identity> {
    var p := Position(es, bearer);
    if p.None? then None else Some(es[p.value].identity)
  }

  function Remove(es: seq<Entry>, bearer: string): seq<Entry> {
    var p := Position(es, bearer);
    if p.None? then es else es[..p.value] + es[p.value + 1..]
  }

  /** The last `capacity` entries. */
  function Newest(es: seq<Entry>, capacity: nat): seq<Entry> {
    if |es| > capacity then es[|es| - capacity..] else es
  }

  function Bound(es: seq<Entry>, capacity: nat, bearer: string, identity: Identity): seq<Entry> {
    Newest(Remove(es, bearer) + [Entry(bearer, identity)], capacity)
  }

  function Refreshed(es: seq<Entry>, bearer: string): seq<Entry> {
    var found := Find(es, bearer);
    if found.None? then es else Remove(es, bearer) + [Entry(bearer, found.value)]
  }

  function TokenIdsOf(es: seq<Entry>): set<string> {
    set e | e in es && e.identity.tokenId.Some? :: e.identity.tokenId.value
  }

  ghost predicate Distinct(es: seq<Entry>) {
    forall i, j | 0 <= i < j < |es| :: es[i].bearer != es[j].bearer
  }

  lemma PositionIs(es: seq<Entry>, i: nat)
    requires Distinct(es) && i < |es|
    ensures Position(es, es[i].bearer) == Some(i)
  {
    assert es[i] in es;
  }

  // ---------------------------------------------------------------- the registry

  class TokenIdentityRegistry {
    const capacity: nat
    var entries: seq<Entry>

    ghost predicate Valid()
      reads this
    {
      capacity >= 1 && |entries| <= capacity && Distinct(entries)
    }

    constructor (capacity: nat)
      requires capacity >= 1
      ensures Valid() && this.capacity == capacity && entries == []
    {
      this.capacity := capacity;
      entries := [];
    }

    /** `bind`; true when the change callback is due. */
    method Bind(bearer: string, identity: Identity) returns (notify: bool)
      requires Valid()
      modifies this`entries
      ensures Valid()
      ensures entries == Bound(old(entries), capacity, bearer, identity)
      ensures notify <==> (Find(old(entries), bearer) != Some(identity)
                           || |Remove(old(entries), bearer)| == capacity)
    {
      var changed := Find(entries, bearer) != Some(identity);
      ghost var was := entries;
      RemoveKeeps(entries, bearer);
      entries := Remove(entries, bearer) + [Entry(bearer, identity)];
      ghost var all := entries;
      var evicted := false;
      while |entries| > capacity
        invariant |entries| <= |all| && entries == all[|all| - |entries|..]
        invariant evicted <==> |entries| < |all|
        invariant |entries| >= capacity || |entries| == |all|
      {
        entries := entries[1..];
        evicted := true;
      }
      assert entries == Newest(all, capacity);
      DistinctUsed(was, capacity, Use.Bind(bearer, identity));
      notify := changed || evicted;
    }

    /** `discard`; true when the change callback is due. */
    method Discard(bearer: string) returns (notify: bool)
      requires Valid()
      modifies this`entries
      ensures Valid()
      ensures entries == Remove(old(entries), bearer)
      ensures notify <==> Find(old(entries), bearer).Some?
    {
      RemoveKeeps(entries, bearer);
      notify := Position(entries, bearer).Some?;
      entries := Remove(entries, bearer);
    }

    /** `lookup`. */
    method Lookup(bearer: string) returns (identity: Option<Identity>)
      requires Valid()
      modifies this`entries
      ensures Valid()
      ensures identity == Find(old(entries), bearer)
      ensures entries == Refreshed(old(entries), bearer)
    {
      RemoveKeeps(entries, bearer);
      identity := Find(entries, bearer);
      if identity.Some? {
        entries := Remove(entries, bearer) + [Entry(bearer, identity.value)];
      }
    }

    /** `token_ids`. */
    function TokenIds(): set<string>
      reads this
    {
      TokenIdsOf(entries)
    }
  }

  lemma RemoveKeeps(es: seq<Entry>, bearer: string)
    requires Distinct(es)
    ensures Distinct(Remove(es, bearer))
    ensures forall e :: e in Remove(es, bearer) <==> e in es && e.bearer != bearer
    ensures |Remove(es, bearer)| == if Position(es, bearer).Some? then |es| - 1 else |es|
  {
    var p := Position(es, bearer);
    if p.Some? {
      var rest := Remove(es, bearer);
      forall e | e in es && e.bearer != bearer ensures e in rest {
        var i :| 0 <= i < |es| && es[i] == e;
        assert rest[if i < p.value then i else i - 1] == e;
      }
    }
  }

  // ---------------------------------------------------------------- recency over whole runs

  datatype Use =
    | Bind(bearer: string, identity: Identity)
    | Lookup(bearer: string)
    | Discard(bearer: string)

  function Used(es: seq<Entry>, capacity: nat, use: Use): seq<Entry> {
    match use
    case Bind(bearer, identity) => Bound(es, capacity, bearer, identity)
    case Lookup(bearer) => Refreshed(es, bearer)
    case Discard(bearer) => Remove(es, bearer)
  }

  function Replay(es: seq<Entry>, capacity: nat, uses: seq<Use>): seq<Entry>
    decreases |uses|
  {
    if uses == [] then es
    else Used(Replay(es, capacity, uses[..|uses| - 1]), capacity, uses[|uses| - 1])
  }

  /** When a bearer was last bound or looked up, counting from one; zero for never. */
  function LastUse(uses: seq<Use>, bearer: string): nat
    decreases |uses|
  {
    if uses == [] then 0
    else if !uses[|uses| - 1].Discard? && uses[|uses| - 1].bearer == bearer then |uses|
    else LastUse(uses[..|uses| - 1], bearer)
  }

  lemma {:induction false} LastUseBound(uses: seq<Use>, bearer: string)
    ensures LastUse(uses, bearer) <= |uses|
  {
    if uses != [] {
      LastUseBound(uses[..|uses| - 1], bearer);
    }
  }

  /** What a bearer was last bound to. */
  function LastBinding(uses: seq<Use>, bearer: string): Option<Identity>
    decreases |uses|
  {
    if uses == [] then None
    else if uses[|uses| - 1].Bind? && uses[|uses| - 1].bearer == bearer then Some(uses[|uses| - 1].identity)
    else LastBinding(uses[..|uses| - 1], bearer)
  }

  /** The registry is bounded, holds each bearer once with what it was last bound to, and is ordered
      by when its bearers were last used. */
  ghost predicate Recent(es: seq<Entry>, capacity: nat, uses: seq<Use>) {
    && |es| <= capacity && Distinct(es)
    && (forall i, j | 0 <= i < j < |es| :: LastUse(uses, es[i].bearer) < LastUse(uses, es[j].bearer))
    && (forall i | 0 <= i < |es| :: LastBinding(uses, es[i].bearer) == Some(es[i].identity))
  }

  /** Appending the entry just used to others keeps the order. */
  lemma AppendKeepsRecent(es: seq<Entry>, capacity: nat, uses: seq<Use>, use: Use, e: Entry)
    requires Recent(es, capacity, uses) && forall x | x in es :: x.bearer != use.bearer
    requires !use.Discard? && e.bearer == use.bearer && |es| < capacity
    requires if use.Bind? then e.identity == use.identity else LastBinding(uses, e.bearer) == Some(e.identity)
    ensures Recent(es + [e], capacity, uses + [use])
  {
    var more := uses + [use];
    assert more[..|more| - 1] == uses;
    forall i | 0 <= i < |es|
      ensures es[i].bearer != use.bearer && LastUse(more, es[i].bearer) == LastUse(uses, es[i].bearer) <= |uses|
      ensures LastBinding(more, es[i].bearer) == LastBinding(uses, es[i].bearer)
    {
      assert es[i] in es;
      LastUseBound(uses, es[i].bearer);
    }
    assert LastUse(more, e.bearer) == |more|;
  }

  lemma DropKeepsRecent(es: seq<Entry>, capacity: nat, uses: seq<Use>, p: nat)
    requires Recent(es, capacity, uses) && p < |es|
    ensures Recent(es[..p] + es[p + 1..], capacity, uses)
  {}

  lemma RemoveKeepsRecent(es: seq<Entry>, capacity: nat, uses: seq<Use>, bearer: string)
    requires Recent(es, capacity, uses)
    ensures Recent(Remove(es, bearer), capacity, uses)
  {
    var p := Position(es, bearer);
    if p.Some? {
      DropKeepsRecent(es, capacity, uses, p.value);
    }
  }

  /** Binding in a full registry evicts one entry, the first; otherwise none. */
  lemma BoundIs(es: seq<Entry>, capacity: nat, bearer: string, identity: Identity)
    requires Distinct(es) && 1 <= |es| <= capacity
    ensures var rest := Remove(es, bearer);
      Bound(es, capacity, bearer, identity)
        == (if |rest| == capacity then es[1..] else rest) + [Entry(bearer, identity)]
  {
    RemoveKeeps(es, bearer);
  }

  lemma UsedKeepsRecent(es: seq<Entry>, capacity: nat, uses: seq<Use>, use: Use)
    requires capacity >= 1 && Recent(es, capacity, uses)
    ensures Recent(Used(es, capacity, use), capacity, uses + [use])
  {
    var rest := Remove(es, use.bearer);
    RemoveKeeps(es, use.bearer);
    RemoveKeepsRecent(es, capacity, uses, use.bearer);
    match use {
      case Bind(bearer, identity) =>
        if |rest| == capacity {
          DropKeepsRecent(es, capacity, uses, 0);
          assert es[..0] + es[1..] == es[1..];
          BoundIs(es, capacity, bearer, identity);
          AppendKeepsRecent(es[1..], capacity, uses, use, Entry(bearer, identity));
        } else {
          AppendKeepsRecent(rest, capacity, uses, use, Entry(bearer, identity));
        }
      case Lookup(bearer) =>
        var p := Position(es, bearer);
        if p.Some? {
          AppendKeepsRecent(rest, capacity, uses, use, es[p.value]);
        } else {
          OtherUseKeepsRecent(es, capacity, uses, use);
        }
      case Discard(bearer) =>
        OtherUseKeepsRecent(rest, capacity, uses, use);
    }
  }

  lemma OtherUseKeepsRecent(es: seq<Entry>, capacity: nat, uses: seq<Use>, use: Use)
    requires Recent(es, capacity, uses) && forall x | x in es :: x.bearer != use.bearer
    ensures Recent(es, capacity, uses + [use])
  {
    var more := uses + [use];
    assert more[..|more| - 1] == uses;
    forall i | 0 <= i < |es|
      ensures LastUse(more, es[i].bearer) == LastUse(uses, es[i].bearer)
      ensures LastBinding(more, es[i].bearer) == LastBinding(uses, es[i].bearer)
    {
      assert es[i] in es;
    }
  }

  lemma RunStepKeepsRecent(capacity: nat, uses: seq<Use>, use: Use)
    requires capacity >= 1 && Recent(Replay([], capacity, uses), capacity, uses)
    ensures Recent(Replay([], capacity, uses + [use]), capacity, uses + [use])
  {
    var before := Replay([], capacity, uses);
    UsedKeepsRecent(before, capacity, uses, use);
    assert (uses + [use])[..|uses|] == uses;
    assert Replay([], capacity, uses + [use]) == Used(before, capacity, use);
  }

  /** Every run from an empty registry. */
  lemma {:induction false} EveryRunIsRecent(capacity: nat, uses: seq<Use>)
    requires capacity >= 1
    ensures Recent(Replay([], capacity, uses), capacity, uses)
    decreases |uses|
  {
    if uses != [] {
      var k := |uses| - 1;
      EveryRunIsRecent(capacity, uses[..k]);
      RunStepKeepsRecent(capacity, uses[..k], uses[k]);
      assert uses[..k] + [uses[k]] == uses;
    }
  }

  /** What another bearer's use drops: the first entry, when it binds a new bearer in a full registry. */
  lemma EvictsFirst(es: seq<Entry>, capacity: nat, use: Use, i: nat)
    requires Distinct(es) && |es| <= capacity && i < |es| && es[i].bearer != use.bearer
    ensures es[i] !in Used(es, capacity, use) <==>
              use.Bind? && Position(es, use.bearer).None? && |es| == capacity && i == 0
  {
    RemoveKeeps(es, use.bearer);
    assert es[i] in es;
    if use.Bind? {
      BoundIs(es, capacity, use.bearer, use.identity);
      if i > 0 {
        assert es[1..][i - 1] == es[i];
      }
    }
  }

  lemma FirstIsLeastRecent(es: seq<Entry>, capacity: nat, uses: seq<Use>, i: nat)
    requires Recent(es, capacity, uses) && i < |es|
    ensures i == 0 <==> forall x | x in es && x != es[i] :: LastUse(uses, es[i].bearer) < LastUse(uses, x.bearer)
  {
    if i > 0 {
      assert es[0] in es && es[0] != es[i];
    } else {
      forall x | x in es && x != es[0] ensures LastUse(uses, es[0].bearer) < LastUse(uses, x.bearer) {
        var j :| 0 <= j < |es| && es[j] == x;
      }
    }
  }

  /** An entry is evicted only by binding a new bearer in a full registry, only one is, and it is the
      one that was least recently bound or looked up. */
  lemma EvictsLeastRecentlyUsed(capacity: nat, uses: seq<Use>, use: Use, e: Entry)
    requires capacity >= 1
    requires e in Replay([], capacity, uses) && e.bearer != use.bearer
    ensures var es := Replay([], capacity, uses);
      e !in Used(es, capacity, use) <==>
        && use.Bind? && Position(es, use.bearer).None? && |es| == capacity
        && forall x | x in es && x != e :: LastUse(uses, e.bearer) < LastUse(uses, x.bearer)
  {
    var es := Replay([], capacity, uses);
    EveryRunIsRecent(capacity, uses);
    var i :| 0 <= i < |es| && es[i] == e;
    EvictsFirst(es, capacity, use, i);
    FirstIsLeastRecent(es, capacity, uses, i);
  }

  // ---------------------------------------------------------------- how long a binding lasts

  /** The other bearers that some uses name. */
  function Others(uses: seq<Use>, bearer: string): set<string> {
    set u | u in uses && u.bearer != bearer :: u.bearer
  }

  function Bearers(es: seq<Entry>): set<string> {
    set e | e in es :: e.bearer
  }

  lemma {:induction false} BearersCount(es: seq<Entry>)
    requires Distinct(es)
    ensures |Bearers(es)| == |es|
  {
    if es != [] {
      BearersCount(es[1..]);
      assert Bearers(es) == {es[0].bearer} + Bearers(es[1..]);
      assert es[0].bearer !in Bearers(es[1..]);
    }
  }

  /** A bearer is bound, and whatever stands behind it was used since. */
  ghost predicate Held(es: seq<Entry>, bearer: string, others: set<string>) {
    && Distinct(es)
    && Position(es, bearer).Some?
    && forall i | Position(es, bearer).value < i < |es| :: es[i].bearer in others
  }

  lemma SubsetCount(small: set<string>, large: set<string>)
    requires small <= large
    ensures |small| <= |large|
  {
    if small != {} {
      var x :| x in small;
      SubsetCount(small - {x}, large - {x});
    }
  }

  lemma DistinctUsed(es: seq<Entry>, capacity: nat, use: Use)
    requires capacity >= 1 && Distinct(es) && |es| <= capacity
    ensures Distinct(Used(es, capacity, use)) && |Used(es, capacity, use)| <= capacity
  {
    RemoveKeeps(es, use.bearer);
  }

  /** A bearer at a known place of a registry. */
  lemma HeldAt(es: seq<Entry>, bearer: string, others: set<string>, i: nat)
    requires Distinct(es) && i < |es| && es[i].bearer == bearer
    requires forall k | i < k < |es| :: es[k].bearer in others
    ensures Held(es, bearer, others)
  {
    PositionIs(es, i);
  }

  /** Dropping place q moves what stands at p, and what stands behind it. */
  lemma DropMoves(es: seq<Entry>, p: nat, q: nat, others: set<string>) returns (at: nat)
    requires p < |es| && q < |es| && p != q
    requires forall k | p < k < |es| :: es[k].bearer in others
    ensures var rest := es[..q] + es[q + 1..];
      at < |rest| && rest[at] == es[p] && forall k | at < k < |rest| :: rest[k].bearer in others
  {
    at := if q < p then p - 1 else p;
  }

  lemma RemoveHolds(es: seq<Entry>, bearer: string, other: string, others: set<string>)
    requires Held(es, bearer, others) && other != bearer
    ensures Held(Remove(es, other), bearer, others)
  {
    RemoveKeeps(es, other);
    var q := Position(es, other);
    if q.Some? {
      var at := DropMoves(es, Position(es, bearer).value, q.value, others);
      HeldAt(Remove(es, other), bearer, others, at);
    }
  }

  lemma AppendHolds(es: seq<Entry>, bearer: string, e: Entry, others: set<string>)
    requires Held(es, bearer, others) && e.bearer in others && forall x | x in es :: x.bearer != e.bearer
    ensures Held(es + [e], bearer, others)
  {
    forall i | 0 <= i < |es| ensures es[i].bearer != e.bearer {
      assert es[i] in es;
    }
    HeldAt(es + [e], bearer, others, Position(es, bearer).value);
  }

  /** Only entries that were used since stand behind a held one, so in a full registry it is not first
      while fewer other bearers than fit have come up. */
  lemma FullIsNotFirst(es: seq<Entry>, bearer: string, other: string, others: set<string>)
    requires Held(es, bearer, others) && other in others && |others| < |es|
    requires forall x | x in es :: x.bearer != other
    ensures Position(es, bearer).value > 0
  {
    var behind := es[Position(es, bearer).value + 1..];
    BearersCount(behind);
    forall x | x in Bearers(behind) ensures x in others - {other} {
      var e :| e in behind && e.bearer == x;
      assert e in es;
    }
    SubsetCount(Bearers(behind), others - {other});
  }

  lemma DropFirstHolds(es: seq<Entry>, bearer: string, others: set<string>)
    requires Held(es, bearer, others) && Position(es, bearer).value > 0
    ensures Held(es[1..], bearer, others)
  {
    HeldAt(es[1..], bearer, others, Position(es, bearer).value - 1);
  }

  lemma UseOfAnotherHolds(es: seq<Entry>, capacity: nat, bearer: string, use: Use, others: set<string>)
    requires capacity >= 1 && |es| <= capacity && Held(es, bearer, others)
    requires use.bearer != bearer && use.bearer in others && |others| < capacity
    ensures Held(Used(es, capacity, use), bearer, others)
  {
    var rest := Remove(es, use.bearer);
    RemoveKeeps(es, use.bearer);
    RemoveHolds(es, bearer, use.bearer, others);
    match use {
      case Bind(other, identity) =>
        BoundIs(es, capacity, other, identity);
        if |rest| == capacity {
          FullIsNotFirst(es, bearer, other, others);
          DropFirstHolds(es, bearer, others);
          AppendHolds(es[1..], bearer, Entry(other, identity), others);
        } else {
          AppendHolds(rest, bearer, Entry(other, identity), others);
        }
      case Lookup(other) =>
        var found := Find(es, other);
        if found.Some? {
          AppendHolds(rest, bearer, Entry(other, found.value), others);
        }
      case Discard(_) =>
    }
  }

  lemma OwnUseHolds(es: seq<Entry>, capacity: nat, bearer: string, use: Use, others: set<string>)
    requires capacity >= 1 && |es| <= capacity && Held(es, bearer, others)
    requires use.bearer == bearer && !use.Discard?
    ensures Held(Used(es, capacity, use), bearer, others)
  {
    DistinctUsed(es, capacity, use);
    RemoveKeeps(es, bearer);
    var after := Used(es, capacity, use);
    HeldAt(after, bearer, others, |after| - 1);
  }

  /** A binding that is used lasts: until it is discarded it stays at least as long as fewer than
      `capacity` other bearers come up after its last use. */
  lemma {:induction false} BindingLasts(es: seq<Entry>, capacity: nat, uses: seq<Use>, bearer: string)
    requires capacity >= 1 && |es| <= capacity && Distinct(es)
    requires es != [] && es[|es| - 1].bearer == bearer
    requires Discard(bearer) !in uses && |Others(uses, bearer)| < capacity
    ensures Find(Replay(es, capacity, uses), bearer).Some?
  {
    BindingHeld(es, capacity, uses, bearer, Others(uses, bearer));
  }

  lemma {:induction false} BindingHeld(es: seq<Entry>, capacity: nat, uses: seq<Use>, bearer: string,
                                       others: set<string>)
    requires capacity >= 1 && |es| <= capacity && Distinct(es)
    requires es != [] && es[|es| - 1].bearer == bearer
    requires Discard(bearer) !in uses && Others(uses, bearer) <= others && |others| < capacity
    ensures Held(Replay(es, capacity, uses), bearer, others) && |Replay(es, capacity, uses)| <= capacity
    decreases |uses|
  {
    if uses == [] {
      HeldAt(es, bearer, others, |es| - 1);
    } else {
      var shorter, use := uses[..|uses| - 1], uses[|uses| - 1];
      assert use in uses;
      assert Others(shorter, bearer) <= Others(uses, bearer);
      BindingHeld(es, capacity, shorter, bearer, others);
      var before := Replay(es, capacity, shorter);
      DistinctUsed(before, capacity, use);
      if use.bearer == bearer {
        OwnUseHolds(before, capacity, bearer, use, others);
      } else {
        assert use.bearer in Others(uses, bearer);
        UseOfAnotherHolds(before, capacity, bearer, use, others);
      }
    }
  }

  // ---------------------------------------------------------------- the runtime

  const POLICY_KEYS: set<string> := {"policy_default", "policy_manual_token_ids", "policy_token_suffixes"}

  predicate IsPolicyKey(key: string) {
    key in POLICY_KEYS || "policy_mode_" <= key || "policy_token_" <= key
  }

  datatype Event =
    | Registry(use: Use)
    | ConfigChange(config: ProviderConfig, changed: set<string>)

  datatype State = State(config: ProviderConfig, entries: seq<Entry>, policies: PolicyResolver)

  predicate PolicyOnly(changed: set<string>) {
    forall key | key in changed :: IsPolicyKey(key)
  }

  /** Does a use change the registry so that its callback runs? */
  predicate Notifies(es: seq<Entry>, capacity: nat, use: Use) {
    match use
    case Bind(bearer, identity) => Find(es, bearer) != Some(identity) || |Remove(es, bearer)| == capacity
    case Lookup(_) => false
    case Discard(bearer) => Find(es, bearer).Some?
  }

  function Recompiled(s: State): State {
    s.(policies := BuildPolicyResolver(s.config, TokenIdsOf(s.entries)))
  }

  function Step(s: State, capacity: nat, e: Event): State {
    match e
    case Registry(use) =>
      var t := s.(entries := Used(s.entries, capacity, use));
      if Notifies(s.entries, capacity, use) then Recompiled(t) else t
    case ConfigChange(config, changed) =>
      var t := s.(config := config);
      if PolicyOnly(changed) then Recompiled(t) else t
  }

  function Run(s: State, capacity: nat, events: seq<Event>): State
    decreases |events|
  {
    if events == [] then s
    else Step(Run(s, capacity, events[..|events| - 1]), capacity, events[|events| - 1])
  }

  function Start(config: ProviderConfig): State {
    State(config, [], BuildPolicyResolver(config, {}))
  }

  /** `resolve_request_policy`: no bearer gets the default, an unbound one plain queries. */
  function Answer(s: State, bearer: Option<string>): Snapshot {
    if bearer.None? then Resolve(s.policies, None)
    else
      var identity := Find(s.entries, bearer.value);
      if identity.None? then PolicySnapshot(SafeQueries, map[])
      else Resolve(s.policies, identity.value.tokenId)
  }

  class Runtime {
    var config: ProviderConfig
    var policies: PolicyResolver
    const identities: TokenIdentityRegistry

    ghost predicate Valid()
      reads this, identities
    {
      identities.Valid()
    }

    function Now(): State
      reads this, identities
    {
      State(config, identities.entries, policies)
    }

    constructor (config: ProviderConfig, capacity: nat)
      requires capacity >= 1
      ensures Valid() && fresh(identities) && identities.capacity == capacity && Now() == Start(config)
    {
      this.config := config;
      policies := BuildPolicyResolver(config, {});
      identities := new TokenIdentityRegistry(capacity);
    }

    /** `_refresh_policy_resolver`. */
    method RefreshPolicyResolver()
      modifies this`policies
      ensures Now() == Recompiled(old(Now()))
    {
      policies := BuildPolicyResolver(config, identities.TokenIds());
    }

    method BindToken(bearer: string, identity: Identity)
      requires Valid()
      modifies this`policies, identities
      ensures Valid()
      ensures Now() == Step(old(Now()), identities.capacity, Registry(Bind(bearer, identity)))
    {
      var notify := identities.Bind(bearer, identity);
      if notify {
        RefreshPolicyResolver();
      }
    }

    method DiscardToken(bearer: string)
      requires Valid()
      modifies this`policies, identities
      ensures Valid()
      ensures Now() == Step(old(Now()), identities.capacity, Registry(Discard(bearer)))
    {
      var notify := identities.Discard(bearer);
      if notify {
        RefreshPolicyResolver();
      }
    }

    /** `resolve_request_policy`. */
    method ResolveRequestPolicy(bearer: Option<string>) returns (snapshot: Snapshot)
      requires Valid()
      modifies identities
      ensures Valid()
      ensures snapshot == Answer(old(Now()), bearer)
      ensures Now() == if bearer.None? then old(Now())
                       else Step(old(Now()), identities.capacity, Registry(Lookup(bearer.value)))
    {
      if bearer.None? {
        return Resolve(policies, None);
      }
      var identity := identities.Lookup(bearer.value);
      snapshot := if identity.None? then PolicySnapshot(SafeQueries, map[])
                  else Resolve(policies, identity.value.tokenId);
    }

    /** `apply_config_change`: anything but a policy-only change restarts without compiling. */
    method ApplyConfigChange(newConfig: ProviderConfig, changed: set<string>)
      requires Valid()
      modifies this`config, this`policies
      ensures Valid()
      ensures Now() == Step(old(Now()), identities.capacity, ConfigChange(newConfig, changed))
    {
      config := newConfig;
      if PolicyOnly(changed) {
        RefreshPolicyResolver();
      }
    }
  }

  // ---------------------------------------------------------------- the cached answer is current

  /** The installed resolver is what the current configuration and the bound tokens compile to. */
  ghost predicate Fresh(s: State) {
    s.policies == BuildPolicyResolver(s.config, TokenIdsOf(s.entries))
  }

  /** Uses that run no callback leave the bound token IDs alone. */
  lemma QuietUseKeepsTokenIds(es: seq<Entry>, capacity: nat, use: Use)
    requires Distinct(es) && |es| <= capacity && !Notifies(es, capacity, use)
    ensures TokenIdsOf(Used(es, capacity, use)) == TokenIdsOf(es)
  {
    RemoveKeeps(es, use.bearer);
    var after := Used(es, capacity, use);
    forall e ensures e in after <==> e in es {
      var p := Position(es, use.bearer);
      if p.Some? {
        assert forall x | x in es && x.bearer == use.bearer :: x == es[p.value];
      }
    }
  }

  /** The right answer: what the configuration says for the token the bearer is bound to. */
  function RightAnswer(s: State, bearer: Option<string>): Snapshot {
    if bearer.None? then FromScratch(s.config, None)
    else
      var identity := Find(s.entries, bearer.value);
      if identity.None? then PolicySnapshot(SafeQueries, map[])
      else FromScratch(s.config, identity.value.tokenId)
  }

  /** Does an event compile the resolver again? */
  predicate CompilesAt(s: State, capacity: nat, e: Event) {
    match e
    case Registry(use) => Notifies(s.entries, capacity, use)
    case ConfigChange(_, changed) => PolicyOnly(changed)
  }

  /** The configuration of the last compilation in a run. */
  function CompiledConfig(config: ProviderConfig, capacity: nat, events: seq<Event>): ProviderConfig
    decreases |events|
  {
    if events == [] then config
    else
      var shorter, e := events[..|events| - 1], events[|events| - 1];
      if CompilesAt(Run(Start(config), capacity, shorter), capacity, e)
      then Run(Start(config), capacity, events).config
      else CompiledConfig(config, capacity, shorter)
  }

  lemma StepCompiles(s: State, capacity: nat, e: Event, c: ProviderConfig)
    requires capacity >= 1 && Distinct(s.entries) && |s.entries| <= capacity && Fresh(s.(config := c))
    ensures var t := Step(s, capacity, e);
      Fresh(t.(config := if CompilesAt(s, capacity, e) then t.config else c))
    ensures var t := Step(s, capacity, e);
      Distinct(t.entries) && |t.entries| <= capacity
  {
    if e.Registry? {
      DistinctUsed(s.entries, capacity, e.use);
      if !Notifies(s.entries, capacity, e.use) {
        QuietUseKeepsTokenIds(s.entries, capacity, e.use);
      }
    }
  }

  /** After any run at all, the installed resolver is what the configuration of the last compilation and the
      tokens bound now compile to. */
  lemma {:induction false} RunCompiles(config: ProviderConfig, capacity: nat, events: seq<Event>)
    requires capacity >= 1
    ensures var s := Run(Start(config), capacity, events);
      && Fresh(s.(config := CompiledConfig(config, capacity, events)))
      && Distinct(s.entries) && |s.entries| <= capacity
    decreases |events|
  {
    if events != [] {
      var shorter := events[..|events| - 1];
      RunCompiles(config, capacity, shorter);
      StepCompiles(Run(Start(config), capacity, shorter), capacity, events[|events| - 1],
                   CompiledConfig(config, capacity, shorter));
    }
  }

  lemma FreshAnswer(s: State, bearer: Option<string>)
    requires Fresh(s)
    ensures Answer(s, bearer) == RightAnswer(s, bearer)
  {
    var ids := TokenIdsOf(s.entries);
    if bearer.None? {
      ResolverAnswersFromScratch(s.config, ids, None);
    } else {
      var p := Position(s.entries, bearer.value);
      if p.Some? {
        var e := s.entries[p.value];
        assert e in s.entries;
        ResolverAnswersFromScratch(s.config, ids, e.identity.tokenId);
      }
    }
  }

  /** After every run of binds, lookups, discards and changes of any kind, a bearer is answered what the
      configuration of the last compilation gives its token from scratch. So the answer is right exactly when
      that configuration and the current one agree on the token. */
  lemma AnswersAreOfLastCompilation(config: ProviderConfig, capacity: nat, events: seq<Event>,
                                    bearer: Option<string>)
    requires capacity >= 1
    ensures var s := Run(Start(config), capacity, events);
      var compiled := RightAnswer(s.(config := CompiledConfig(config, capacity, events)), bearer);
      && Answer(s, bearer) == compiled
      && (Answer(s, bearer) == RightAnswer(s, bearer) <==> compiled == RightAnswer(s, bearer))
  {
    RunCompiles(config, capacity, events);
    FreshAnswer(Run(Start(config), capacity, events).(config := CompiledConfig(config, capacity, events)), bearer);
  }

  predicate Recompiles(e: Event) {
    e.ConfigChange? ==> PolicyOnly(e.changed)
  }

  /** Without other changes the last compilation is of the current configuration. */
  lemma {:induction false} PolicyOnlyRunsAreCompiled(config: ProviderConfig, capacity: nat, events: seq<Event>)
    requires forall i | 0 <= i < |events| :: Recompiles(events[i])
    ensures CompiledConfig(config, capacity, events) == Run(Start(config), capacity, events).config
    decreases |events|
  {
    if events != [] {
      PolicyOnlyRunsAreCompiled(config, capacity, events[..|events| - 1]);
    }
  }

  /** In every run of binds, lookups, discards and policy-only changes, what a bearer is answered is
      what compiling the current configuration from scratch for its token gives. */
  lemma AnswersAreCurrent(config: ProviderConfig, capacity: nat, events: seq<Event>, bearer: Option<string>)
    requires capacity >= 1 && forall i | 0 <= i < |events| :: Recompiles(events[i])
    ensures var s := Run(Start(config), capacity, events);
      Answer(s, bearer) == RightAnswer(s, bearer)
  {
    AnswersAreOfLastCompilation(config, capacity, events, bearer);
    PolicyOnlyRunsAreCompiled(config, capacity, events);
    var s := Run(Start(config), capacity, events);
    assert s.(config := s.config) == s;
  }

  lemma TrustedDefault()
    ensures DefaultSnapshot(ProviderConfig(map[DefaultPolicy := Text("Trusted")], [])).Mode(SystemAdmin) == Allow
  {
    assert ProfileNamed("Trusted") == Some(Trusted);
  }

  lemma MissingDefault()
    ensures DefaultSnapshot(ProviderConfig(map[], [])).Mode(SystemAdmin) == Deny
  {}

  /** So a restart can leave a token with a policy that has been withdrawn. */
  lemma RestartCanStayStale(changed: set<string>)
    requires !PolicyOnly(changed)
    ensures var trusted := ProviderConfig(map[DefaultPolicy := Text("Trusted")], []);
      var s := Step(Start(trusted), 1024, ConfigChange(ProviderConfig(map[], []), changed));
      Answer(s, None).Mode(SystemAdmin) == Allow && RightAnswer(s, None).Mode(SystemAdmin) == Deny
  {
    TrustedDefault();
    MissingDefault();
    FromScratchIs(ProviderConfig(map[], []), None);
  }
}
