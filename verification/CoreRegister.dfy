/**
 The core register: a log of setting requests that move through
 `Requested -> Checked -> Applied -> Confirmed | RolledBack`, or to `Rejected`.

 `Submitted` and `Transitioned` say what a call does to the register's state; the class `Register` keeps that
 state in fields which its methods update in place, and is proved to do the same.
 */
module CoreRegisters {
  import opened Basics
  import Text

  datatype Owner = User | Core | Rule

  datatype RiskClass = Ordinary | Money | Rights | Security | Deletion | Release | OwnLevel

  datatype EffectClass = Ordinary | Money | Rights | Security | Deletion | Release | OwnLevel

  datatype Level = Off | Propose | SelfWithReport

  /** A JSON value. */
  datatype Value =
    | Null
    | Bool(flag: bool)
    | Number(literal: string)
    | String(text: string)
    | Array(items: seq<Value>)
    | Object(members: seq<(string, Value)>)

  datatype AreaPolicy = AreaPolicy(scope: string, area: string, level: Level)

  datatype EffectCapability = EffectCapability(key: string, area: string, effectSite: string, class_: EffectClass)

  datatype Setting = Setting(
    key: string,
    scope: string,
    owner: Option<Owner>,
    area: string,
    riskClass: RiskClass,
    effectSite: string)

  /** The read-only tables a register works against. */
  datatype Registry =
    Registry(settings: seq<Setting>, policies: seq<AreaPolicy>, effects: seq<EffectCapability>)

  /** `authority` is absent for a helper. */
  datatype Actor = Actor(id: string, authority: Option<Owner>)

  datatype Request = Request(
    scope: string,
    key: string,
    expectedRevision: nat,
    old_: Value,
    new_: Value,
    reason: string,
    evidence: string)

  datatype State = Requested | Checked | Applied | Confirmed | RolledBack | Rejected {
    predicate Terminal() {
      Confirmed? || RolledBack? || Rejected?
    }
  }

  datatype Rollback = Rollback(effectSite: string, value: Value)

  datatype JournalEntry = JournalEntry(
    id: nat,
    requestId: nat,
    change: Request,
    riskClass: RiskClass,
    rollback: Rollback,
    actor: Actor,
    timestamp: nat,
    state: State,
    schemaVersion: nat)

  datatype Error =
    | Unregistered
    | InvalidRegistry
    | UnknownRequest
    | Forbidden
    | Waiting
    | InvalidTransition
    | StaleRevision
    | RevisionOverflow

  type Key = (string, string)

  function KeyOf(change: Request): Key {
    (change.scope, change.key)
  }

  /** `AreaPolicy::from_user`: the only way to make a policy. */
  function PolicyFromUser(scope: string, area: string, level: Level, user: Actor): Result<AreaPolicy, Error> {
    if user.authority != Some(User) then Failure(Forbidden) else Success(AreaPolicy(scope, area, level))
  }

  /** The one registered setting of a scope and key. */
  function FindSetting(registry: Registry, scope: string, key: string): Result<Setting, Error> {
    var found := Filter((s: Setting) => s.key == key && s.scope == scope, registry.settings);
    if found == [] then
      Failure(Unregistered)
    else if
      || |found| > 1
      || Text.IsBlank(found[0].key)
      || Text.IsBlank(found[0].scope)
      || found[0].owner.None?
      || Text.IsBlank(found[0].area)
      || Text.IsBlank(found[0].effectSite)
    then
      Failure(InvalidRegistry)
    else
      Success(found[0])
  }

  /** A missing or ambiguous policy means `Off`. */
  function LevelOf(registry: Registry, scope: string, area: string): Level {
    var found := Filter((p: AreaPolicy) => p.scope == scope && p.area == area, registry.policies);
    if |found| == 1 then found[0].level else Off
  }

  predicate MaySelfApply(registry: Registry, change: Request, setting: Setting) {
    var found := Filter((e: EffectCapability) => e.key == setting.key, registry.effects);
    && |found| == 1
    && found[0].class_ == EffectClass.Ordinary
    && found[0].area == setting.area
    && found[0].effectSite == setting.effectSite
    && setting.riskClass == RiskClass.Ordinary
    && LevelOf(registry, change.scope, setting.area) == SelfWithReport
  }

  predicate ActsForItself(actor: Actor) {
    actor.authority == Some(Core) || actor.authority == Some(Rule)
  }

  /** The register's own state: `journal` is the log, the other two are caches of it. */
  datatype Log = Log(requests: seq<JournalEntry>, journal: seq<JournalEntry>, revisions: map<Key, nat>)

  const EMPTY: Log := Log([], [], map[])

  function Revision(log: Log, key: Key): nat {
    if key in log.revisions then log.revisions[key] else 0
  }

  predicate Legal(from: State, to: State) {
    || (from == Requested && (to == Checked || to == Rejected))
    || (from == Checked && (to == Applied || to == Rejected))
    || (from == Applied && (to == Confirmed || to == RolledBack))
  }

  predicate SomeEarlierIsOpen(log: Log, id: nat)
    requires id < |log.requests|
  {
    exists i | 0 <= i < id ::
      KeyOf(log.requests[i].change) == KeyOf(log.requests[id].change) && !log.requests[i].state.Terminal()
  }

  function Submitted(registry: Registry, log: Log, change: Request, actor: Actor, timestamp: nat)
    : Result<Log, Error>
  {
    if
      || Text.IsBlank(change.scope)
      || Text.IsBlank(change.key)
      || Text.IsBlank(change.reason)
      || Text.IsBlank(change.evidence)
    then
      Failure(InvalidRegistry)
    else match FindSetting(registry, change.scope, change.key)
      case Failure(error) => Failure(error)
      case Success(setting) =>
        if ActsForItself(actor) && LevelOf(registry, change.scope, setting.area) == Off then
          Failure(Forbidden)
        else
          var entry := JournalEntry(|log.journal| + 1, |log.requests|, change, setting.riskClass,
                                    Rollback(setting.effectSite, change.old_), actor, timestamp, Requested, 1);
          Success(log.(requests := log.requests + [entry], journal := log.journal + [entry]))
  }

  /** The first reason to refuse a transition. */
  function Refusal(registry: Registry, log: Log, id: nat, state: State, actor: Actor): Outcome<Error> {
    if id >= |log.requests| then Fail(UnknownRequest)
    else
      var entry := log.requests[id];
      match FindSetting(registry, entry.change.scope, entry.change.key)
      case Failure(error) => Fail(error)
      case Success(setting) =>
        :- Need(actor.authority.Some? && actor.authority == setting.owner, Forbidden);
        :- Need(ActsForItself(actor) && (state == Checked || state == Applied) ==>
                  MaySelfApply(registry, entry.change, setting), Forbidden);
        :- Need(!SomeEarlierIsOpen(log, id), Waiting);
        :- Need(Legal(entry.state, state), InvalidTransition);
        var revision := Revision(log, KeyOf(entry.change));
        :- Need(state == Applied ==> entry.change.expectedRevision == revision, StaleRevision);
        Need(state == Applied || state == RolledBack ==> revision < U64_MAX, RevisionOverflow)
  }

  function Transitioned(registry: Registry, log: Log, id: nat, state: State, actor: Actor, timestamp: nat)
    : Result<Log, Error>
  {
    match Refusal(registry, log, id, state, actor)
    case Fail(error) => Failure(error)
    case Pass =>
      var entry := log.requests[id].(id := |log.journal| + 1, actor := actor, timestamp := timestamp, state := state);
      var key := KeyOf(entry.change);
      Success(Log(
        log.requests[id := entry],
        log.journal + [entry],
        if state == Applied || state == RolledBack then log.revisions[key := Revision(log, key) + 1]
        else log.revisions))
  }

  /** A refused transition yields its error; any other appends and caches one entry. */
  lemma RefusedOrAppended(registry: Registry, log: Log, id: nat, state: State, actor: Actor, timestamp: nat)
    ensures var refusal := Refusal(registry, log, id, state, actor);
            && (refusal.Fail? ==> Transitioned(registry, log, id, state, actor, timestamp) == Failure(refusal.error))
            && (refusal.Pass? ==>
                  var entry := log.requests[id].(id := |log.journal| + 1, actor := actor, timestamp := timestamp, state := state);
                  var key := KeyOf(entry.change);
                  Transitioned(registry, log, id, state, actor, timestamp) ==
                  Success(Log(log.requests[id := entry], log.journal + [entry],
                              if state == Applied || state == RolledBack then log.revisions[key := Revision(log, key) + 1]
                              else log.revisions)))
  {
    hide FindSetting, MaySelfApply, SomeEarlierIsOpen, ActsForItself, Legal;
  }

  class Register {
    var settings: seq<Setting>
    var policies: seq<AreaPolicy>
    var effects: seq<EffectCapability>
    var requests: seq<JournalEntry>
    var journal: seq<JournalEntry>
    var revisions: map<Key, nat>

    function Tables(): Registry
      reads this
    {
      Registry(settings, policies, effects)
    }

    function Value(): Log
      reads this
    {
      Log(requests, journal, revisions)
    }

    constructor (settings: seq<Setting>, policies: seq<AreaPolicy>, effects: seq<EffectCapability>)
      ensures Tables() == Registry(settings, policies, effects) && Value() == EMPTY
    {
      this.settings, this.policies, this.effects := settings, policies, effects;
      requests, journal, revisions := [], [], map[];
    }

    method Submit(change: Request, actor: Actor, timestamp: nat) returns (r: Result<nat, Error>)
      modifies this`requests, this`journal
      ensures match Submitted(Tables(), old(Value()), change, actor, timestamp)
              case Success(log) => r == Success(|old(requests)|) && Value() == log
              case Failure(error) => r == Failure(error) && Value() == old(Value())
    {
      if
        || Text.IsBlank(change.scope)
        || Text.IsBlank(change.key)
        || Text.IsBlank(change.reason)
        || Text.IsBlank(change.evidence)
      {
        return Failure(InvalidRegistry);
      }
      var found := FindSetting(Tables(), change.scope, change.key);
      if found.Failure? {
        return Failure(found.error);
      }
      var setting := found.value;
      if ActsForItself(actor) && LevelOf(Tables(), change.scope, setting.area) == Off {
        return Failure(Forbidden);
      }
      var entry := JournalEntry(|journal| + 1, |requests|, change, setting.riskClass,
                                Rollback(setting.effectSite, change.old_), actor, timestamp, Requested, 1);
      journal := journal + [entry];
      requests := requests + [entry];
      return Success(entry.requestId);
    }

    method Transition(id: nat, state: State, actor: Actor, timestamp: nat) returns (r: Outcome<Error>)
      modifies this`requests, this`journal, this`revisions
      ensures match Transitioned(Tables(), old(Value()), id, state, actor, timestamp)
              case Success(log) => r.Pass? && Value() == log
              case Failure(error) => r == Fail(error) && Value() == old(Value())
    {
      hide FindSetting, MaySelfApply, SomeEarlierIsOpen, ActsForItself, KeyOf, Legal, Transitioned;
      RefusedOrAppended(Tables(), Value(), id, state, actor, timestamp);
      if id >= |requests| {
        return Fail(UnknownRequest);
      }
      var entry := requests[id];
      var found := FindSetting(Tables(), entry.change.scope, entry.change.key);
      if found.Failure? {
        return Fail(found.error);
      }
      if actor.authority.None? || actor.authority != found.value.owner {
        return Fail(Forbidden);
      }
      if
        && ActsForItself(actor)
        && (state == Checked || state == Applied)
        && !MaySelfApply(Tables(), entry.change, found.value)
      {
        return Fail(Forbidden);
      }
      var waiting := EarlierIsOpen(id);
      if waiting {
        return Fail(Waiting);
      }
      if !Legal(entry.state, state) {
        return Fail(InvalidTransition);
      }
      var key := KeyOf(entry.change);
      var revision := Revision(Value(), key);
      if state == Applied && entry.change.expectedRevision != revision {
        return Fail(StaleRevision);
      }
      if state == Applied || state == RolledBack {
        if revision >= U64_MAX {
          return Fail(RevisionOverflow);
        }
        revisions := revisions[key := revision + 1];
      }
      assert Refusal(Tables(), old(Value()), id, state, actor).Pass?;
      hide Refusal;
      entry := entry.(id := |journal| + 1, actor := actor, timestamp := timestamp, state := state);
      requests := requests[id := entry];
      journal := journal + [entry];
      return Pass;
    }

    /** The scan over the earlier requests. */
    method EarlierIsOpen(id: nat) returns (open: bool)
      requires id < |requests|
      ensures open == SomeEarlierIsOpen(Value(), id)
    {
      for i := 0 to id
        invariant forall k | 0 <= k < i ::
                    KeyOf(requests[k].change) == KeyOf(requests[id].change) ==> requests[k].state.Terminal()
      {
        if KeyOf(requests[i].change) == KeyOf(requests[id].change) && !requests[i].state.Terminal() {
          return true;
        }
      }
      return false;
    }
  }
}
