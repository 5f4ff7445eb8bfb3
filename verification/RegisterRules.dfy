/**
 The rules of the register in terms of its tables and requests: what counts as registered, when a request is logged,
 when a transition is accepted, and what stood behind every change a core or a rule made by itself.
 */
module RegisterRules {
  import opened Basics
  import opened CoreRegisters
  import opened RegisterRuns
  import Text

  // ---- The tables ----

  predicate SaysSomething(s: string) {
    exists i | 0 <= i < |s| :: !Text.IsWhitespace(s[i])
  }

  /** `setting` is the only one registered for its scope and key, is complete, and has an owner. */
  ghost predicate IsRegistered(registry: Registry, scope: string, key: string, setting: Setting) {
    && OnlySettingAt(registry.settings, scope, key, setting)
    && SaysSomething(key) && SaysSomething(scope) && SaysSomething(setting.area) && SaysSomething(setting.effectSite)
    && setting.owner.Some?
  }

  ghost predicate OnlySettingAt(settings: seq<Setting>, scope: string, key: string, setting: Setting) {
    && setting.scope == scope && setting.key == key
    && exists i | 0 <= i < |settings| ::
         settings[i] == setting
         && forall j | 0 <= j < |settings| && j != i :: settings[j].scope != scope || settings[j].key != key
  }

  /** The only policy for the scope and area grants this level. */
  ghost predicate OnlyPolicyGrants(policies: seq<AreaPolicy>, scope: string, area: string, level: Level) {
    exists i | 0 <= i < |policies| ::
      policies[i] == AreaPolicy(scope, area, level)
      && forall j | 0 <= j < |policies| && j != i :: policies[j].scope != scope || policies[j].area != area
  }

  /** The only effect of the key is an ordinary one, at the setting's own area and site. */
  ghost predicate OnlyEffectIsOrdinary(effects: seq<EffectCapability>, setting: Setting) {
    exists i | 0 <= i < |effects| ::
      effects[i] == EffectCapability(setting.key, setting.area, setting.effectSite, EffectClass.Ordinary)
      && forall j | 0 <= j < |effects| && j != i :: effects[j].key != setting.key
  }

  /** A core or a rule may check and apply by itself: policy, effect and risk all allow it. */
  ghost predicate MaySelfApplyUnder(registry: Registry, scope: string, setting: Setting) {
    && OnlyPolicyGrants(registry.policies, scope, setting.area, SelfWithReport)
    && OnlyEffectIsOrdinary(registry.effects, setting)
    && setting.riskClass == RiskClass.Ordinary
  }

  lemma {:induction false} FilterNone<T>(p: T -> bool, s: seq<T>)
    ensures Filter(p, s) == [] <==> forall i | 0 <= i < |s| :: !p(s[i])
  {
    if s != [] {
      FilterNone(p, s[..|s| - 1]);
    }
  }

  ghost predicate OnlyAt<T>(p: T -> bool, s: seq<T>, i: int) {
    0 <= i < |s| && p(s[i]) && forall j | 0 <= j < |s| && j != i :: !p(s[j])
  }

  /** Filtering leaves one element exactly if one passes. */
  lemma {:induction false} FilterOne<T>(p: T -> bool, s: seq<T>)
    ensures |Filter(p, s)| == 1 <==> exists i :: OnlyAt(p, s, i)
    ensures forall i | OnlyAt(p, s, i) :: Filter(p, s) == [s[i]]
  {
    if s != [] {
      var front, last := s[..|s| - 1], |s| - 1;
      FilterOne(p, front);
      FilterNone(p, front);
      if p(s[last]) {
        if Filter(p, front) == [] {
          assert OnlyAt(p, s, last);
        }
        forall i | OnlyAt(p, s, i) ensures i == last {}
      } else {
        forall i | OnlyAt(p, front, i) ensures OnlyAt(p, s, i) {}
        forall i | OnlyAt(p, s, i) ensures OnlyAt(p, front, i) {}
      }
    }
  }

  lemma BlankSaysNothing(s: string)
    ensures Text.IsBlank(s) <==> !SaysSomething(s)
  {
    Text.BlankIsAllWhitespace(s);
  }

  /** A setting is found exactly if it is registered. */
  lemma SettingsAreFoundExactly(registry: Registry, scope: string, key: string, setting: Setting)
    ensures FindSetting(registry, scope, key) == Success(setting) <==> IsRegistered(registry, scope, key, setting)
    ensures FindSetting(registry, scope, key) == Failure(Unregistered) <==>
              forall i | 0 <= i < |registry.settings| :: registry.settings[i].scope != scope || registry.settings[i].key != key
  {
    hide Text.IsBlank, SaysSomething;
    var settings := registry.settings;
    var p := (s: Setting) => s.key == key && s.scope == scope;
    FilterOne(p, settings);
    FilterNone(p, settings);
    hide Filter;
    BlankSaysNothing(key);
    BlankSaysNothing(scope);
    BlankSaysNothing(setting.area);
    BlankSaysNothing(setting.effectSite);
    if OnlySettingAt(settings, scope, key, setting) {
      var i :| 0 <= i < |settings| && settings[i] == setting
                    && forall j | 0 <= j < |settings| && j != i :: settings[j].scope != scope || settings[j].key != key;
      assert OnlyAt(p, settings, i);
    }
    if FindSetting(registry, scope, key) == Success(setting) {
      var i :| OnlyAt(p, settings, i);
      assert settings[i] == setting;
    }
  }

  lemma LevelsAreGrantedExactly(registry: Registry, scope: string, area: string, level: Level)
    requires level != Off
    ensures LevelOf(registry, scope, area) == level <==> OnlyPolicyGrants(registry.policies, scope, area, level)
  {
    var policies := registry.policies;
    var p := (p: AreaPolicy) => p.scope == scope && p.area == area;
    FilterOne(p, policies);
    hide Filter;
    if OnlyPolicyGrants(policies, scope, area, level) {
      var i :| 0 <= i < |policies| && policies[i] == AreaPolicy(scope, area, level)
                    && forall j | 0 <= j < |policies| && j != i :: policies[j].scope != scope || policies[j].area != area;
      assert OnlyAt(p, policies, i);
    }
    if LevelOf(registry, scope, area) == level {
      var i :| OnlyAt(p, policies, i);
      assert policies[i] == AreaPolicy(scope, area, level);
    }
  }

  /** Checking and applying by itself is open to a core or a rule exactly under policy, effect and risk together. */
  lemma SelfApplicationIsGatedExactly(registry: Registry, change: Request, setting: Setting)
    ensures MaySelfApply(registry, change, setting) <==> MaySelfApplyUnder(registry, change.scope, setting)
  {
    LevelsAreGrantedExactly(registry, change.scope, setting.area, SelfWithReport);
    hide LevelOf, OnlyPolicyGrants;
    var effects := registry.effects;
    var p := (e: EffectCapability) => e.key == setting.key;
    FilterOne(p, effects);
    hide Filter;
    if OnlyEffectIsOrdinary(effects, setting) {
      var i :| 0 <= i < |effects|
                    && effects[i] == EffectCapability(setting.key, setting.area, setting.effectSite, EffectClass.Ordinary)
                    && forall j | 0 <= j < |effects| && j != i :: effects[j].key != setting.key;
      assert OnlyAt(p, effects, i);
    }
    if MaySelfApply(registry, change, setting) {
      var i :| OnlyAt(p, effects, i);
      assert effects[i] == EffectCapability(setting.key, setting.area, setting.effectSite, EffectClass.Ordinary);
    }
  }

  // ---- Calls ----

  predicate ActsAlone(actor: Actor) {
    actor.authority == Some(Core) || actor.authority == Some(Rule)
  }

  /** The request is complete and names a registered setting. */
  ghost predicate WellFormed(registry: Registry, change: Request, setting: Setting) {
    && SaysSomething(change.scope) && SaysSomething(change.key)
    && SaysSomething(change.reason) && SaysSomething(change.evidence)
    && IsRegistered(registry, change.scope, change.key, setting)
  }

  ghost predicate MaySubmit(registry: Registry, change: Request, setting: Setting, actor: Actor) {
    && WellFormed(registry, change, setting)
    && (ActsAlone(actor) ==>
          || OnlyPolicyGrants(registry.policies, change.scope, setting.area, Propose)
          || OnlyPolicyGrants(registry.policies, change.scope, setting.area, SelfWithReport))
  }

  /**
   A request is logged exactly if it is complete, its setting is registered, and a core or a rule has a policy that is
   not off. The entry carries the setting's risk class, and its site with the old value as the rollback.
   */
  lemma RequestsAreLoggedExactlyWhen(registry: Registry, log: Log, change: Request, actor: Actor, timestamp: nat)
    ensures Submitted(registry, log, change, actor, timestamp).Success? <==>
              exists setting :: MaySubmit(registry, change, setting, actor)
    ensures forall setting | MaySubmit(registry, change, setting, actor) ::
              var entry := JournalEntry(|log.journal| + 1, |log.requests|, change, setting.riskClass,
                                        Rollback(setting.effectSite, change.old_), actor, timestamp, Requested, 1);
              Submitted(registry, log, change, actor, timestamp) ==
              Success(Log(log.requests + [entry], log.journal + [entry], log.revisions))
  {
    hide Text.IsBlank, SaysSomething, IsRegistered, FindSetting, LevelOf, OnlyPolicyGrants;
    BlankSaysNothing(change.scope);
    BlankSaysNothing(change.key);
    BlankSaysNothing(change.reason);
    BlankSaysNothing(change.evidence);
    forall setting
      ensures FindSetting(registry, change.scope, change.key) == Success(setting) <==>
                IsRegistered(registry, change.scope, change.key, setting)
      ensures LevelOf(registry, change.scope, setting.area) != Off <==>
                || OnlyPolicyGrants(registry.policies, change.scope, setting.area, Propose)
                || OnlyPolicyGrants(registry.policies, change.scope, setting.area, SelfWithReport)
    {
      SettingsAreFoundExactly(registry, change.scope, change.key, setting);
      LevelsAreGrantedExactly(registry, change.scope, setting.area, Propose);
      LevelsAreGrantedExactly(registry, change.scope, setting.area, SelfWithReport);
    }
    var found := FindSetting(registry, change.scope, change.key);
    if found.Success? {
      assert IsRegistered(registry, change.scope, change.key, found.value);
      assert Submitted(registry, log, change, actor, timestamp).Success? ==> MaySubmit(registry, change, found.value, actor);
    }
  }

  /** The actor owns the setting and, if it is a core or a rule that checks or applies, may do so by itself. */
  ghost predicate IsAllowed(registry: Registry, change: Request, setting: Setting, state: State, actor: Actor) {
    && actor.authority.Some? && actor.authority == setting.owner
    && (ActsAlone(actor) && (state == Checked || state == Applied) ==>
          MaySelfApplyUnder(registry, change.scope, setting))
  }

  ghost predicate ItsTurn(log: Log, id: nat)
    requires id < |log.requests|
  {
    forall i | 0 <= i < id
               && log.requests[i].change.scope == log.requests[id].change.scope
               && log.requests[i].change.key == log.requests[id].change.key ::
      var state := log.requests[i].state;
      state == Confirmed || state == RolledBack || state == Rejected
  }

  predicate MovesOn(from: State, to: State) {
    match from
    case Requested => to == Checked || to == Rejected
    case Checked => to == Applied || to == Rejected
    case Applied => to == Confirmed || to == RolledBack
    case _ => false
  }

  ghost predicate RevisionAllows(log: Log, id: nat, state: State)
    requires id < |log.requests|
  {
    var change := log.requests[id].change;
    var key := (change.scope, change.key);
    var revision := if key in log.revisions then log.revisions[key] else 0;
    && (state == Applied ==> change.expectedRevision == revision)
    && (state == Applied || state == RolledBack ==> revision < 0xFFFF_FFFF_FFFF_FFFF)
  }

  /** What a transition of a request with a registered setting answers: the first obstacle in this order. */
  ghost function Obstacle(registry: Registry, log: Log, id: nat, setting: Setting, state: State, actor: Actor): Option<Error>
    requires id < |log.requests|
  {
    var change := log.requests[id].change;
    var key := (change.scope, change.key);
    if !IsAllowed(registry, change, setting, state, actor) then Some(Forbidden)
    else if !ItsTurn(log, id) then Some(Waiting)
    else if !MovesOn(log.requests[id].state, state) then Some(InvalidTransition)
    else if RevisionAllows(log, id, state) then None
    else if state == Applied && change.expectedRevision != (if key in log.revisions then log.revisions[key] else 0)
    then Some(StaleRevision)
    else Some(RevisionOverflow)
  }

  /**
   A transition is accepted exactly if the request exists, its setting is registered, the actor is allowed, it is the
   request's turn, the move is one of the six, and the revision is the expected one below the cap.
   */
  lemma TransitionsAreAcceptedExactlyWhen(registry: Registry, log: Log, id: nat, state: State, actor: Actor, timestamp: nat)
    ensures Transitioned(registry, log, id, state, actor, timestamp).Success? <==>
              && id < |log.requests|
              && exists setting ::
                   && IsRegistered(registry, log.requests[id].change.scope, log.requests[id].change.key, setting)
                   && IsAllowed(registry, log.requests[id].change, setting, state, actor)
                   && ItsTurn(log, id) && MovesOn(log.requests[id].state, state) && RevisionAllows(log, id, state)
  {
    if id < |log.requests| {
      var change := log.requests[id].change;
      forall setting ensures FindSetting(registry, change.scope, change.key) == Success(setting) <==>
                               IsRegistered(registry, change.scope, change.key, setting) {
        SettingsAreFoundExactly(registry, change.scope, change.key, setting);
      }
      var found := FindSetting(registry, change.scope, change.key);
      if found.Success? {
        RefusalsNameTheObstacle(registry, log, id, found.value, state, actor);
      }
      hide FindSetting, IsRegistered, IsAllowed, ItsTurn, MovesOn, RevisionAllows, SomeEarlierIsOpen, MaySelfApply, Revision;
    }
  }

  /** With a registered setting, each refusal is the first obstacle; `Forbidden` in particular exactly if not allowed. */
  lemma RefusalsNameTheObstacle(registry: Registry, log: Log, id: nat, setting: Setting, state: State, actor: Actor)
    requires id < |log.requests|
    requires IsRegistered(registry, log.requests[id].change.scope, log.requests[id].change.key, setting)
    ensures var obstacle := Obstacle(registry, log, id, setting, state, actor);
            Refusal(registry, log, id, state, actor) == if obstacle.Some? then Fail(obstacle.value) else Pass
    ensures Refusal(registry, log, id, state, actor) == Fail(Forbidden) <==>
              !IsAllowed(registry, log.requests[id].change, setting, state, actor)
  {
    var change := log.requests[id].change;
    SettingsAreFoundExactly(registry, change.scope, change.key, setting);
    SelfApplicationIsGatedExactly(registry, change, setting);
    EarlierRequestsAreOver(log, id);
    hide FindSetting, IsRegistered, MaySelfApply, MaySelfApplyUnder, SomeEarlierIsOpen, ItsTurn;
  }

  lemma EarlierRequestsAreOver(log: Log, id: nat)
    requires id < |log.requests|
    ensures ItsTurn(log, id) <==> !SomeEarlierIsOpen(log, id)
  {}

  // ---- Runs ----

  /** Whatever a core or a rule checked or applied was its own setting, under policy, effect and risk. */
  lemma SelfAppliedChangesWereAllowed(run: Run, registry: Registry, k: nat, n: nat) returns (setting: Setting)
    requires FixedRegistry(run, registry) && k < |run.logs| && n < |run.logs[k].journal|
    requires run.logs[k].journal[n].state == Checked || run.logs[k].journal[n].state == Applied
    requires ActsAlone(run.logs[k].journal[n].actor)
    ensures var entry := run.logs[k].journal[n];
            && IsRegistered(registry, entry.change.scope, entry.change.key, setting)
            && entry.actor.authority == setting.owner
            && MaySelfApplyUnder(registry, entry.change.scope, setting)
  {
    RunsStayAuthorized(run, registry, k);
    var entry := run.logs[k].journal[n];
    assert EntryIsAuthorized(registry, entry);
    setting := FindSetting(registry, entry.change.scope, entry.change.key).value;
    SettingsAreFoundExactly(registry, entry.change.scope, entry.change.key, setting);
    SelfApplicationIsGatedExactly(registry, entry.change, setting);
  }

  /** The entry carries what its setting says: risk, site, and the old value to go back to. */
  ghost predicate CarriesItsSetting(registry: Registry, entry: JournalEntry) {
    exists setting ::
      && WellFormed(registry, entry.change, setting)
      && entry.riskClass == setting.riskClass
      && entry.rollback == Rollback(setting.effectSite, entry.change.old_)
  }

  ghost predicate WasMaySubmit(registry: Registry, entry: JournalEntry) {
    exists setting :: MaySubmit(registry, entry.change, setting, entry.actor)
  }

  ghost predicate WellSubmitted(registry: Registry, log: Log) {
    && (forall i | 0 <= i < |log.requests| :: CarriesItsSetting(registry, log.requests[i]))
    && (forall n | 0 <= n < |log.journal| :: CarriesItsSetting(registry, log.journal[n]))
    && (forall n | 0 <= n < |log.journal| && log.journal[n].state == Requested :: WasMaySubmit(registry, log.journal[n]))
  }

  lemma SubmissionsStayWell(registry: Registry, log: Log, change: Request, actor: Actor, timestamp: nat)
    requires WellSubmitted(registry, log) && Submitted(registry, log, change, actor, timestamp).Success?
    ensures WellSubmitted(registry, Submitted(registry, log, change, actor, timestamp).value)
  {
    RequestsAreLoggedExactlyWhen(registry, log, change, actor, timestamp);
    hide Submitted, IsRegistered, SaysSomething, OnlyPolicyGrants;
    var setting :| MaySubmit(registry, change, setting, actor);
    var entry := JournalEntry(|log.journal| + 1, |log.requests|, change, setting.riskClass,
                              Rollback(setting.effectSite, change.old_), actor, timestamp, Requested, 1);
    assert CarriesItsSetting(registry, entry) && WasMaySubmit(registry, entry);
    hide CarriesItsSetting, WasMaySubmit, MaySubmit;
  }

  lemma TransitionsStayWell(registry: Registry, log: Log, id: nat, state: State, actor: Actor, timestamp: nat)
    requires WellSubmitted(registry, log) && Transitioned(registry, log, id, state, actor, timestamp).Success?
    ensures WellSubmitted(registry, Transitioned(registry, log, id, state, actor, timestamp).value)
  {
    hide FindSetting, MaySelfApply, SomeEarlierIsOpen, WellFormed, WasMaySubmit;
    RefusedOrAppended(registry, log, id, state, actor, timestamp);
    assert CarriesItsSetting(registry, log.requests[id]);
    var entry := log.requests[id].(id := |log.journal| + 1, actor := actor, timestamp := timestamp, state := state);
    assert CarriesItsSetting(registry, entry);
    assert state != Requested;
    hide Transitioned, CarriesItsSetting, Refusal;
  }

  lemma NothingIsWellSubmitted(registry: Registry, log: Log)
    requires log.requests == [] && log.journal == []
    ensures WellSubmitted(registry, log)
  {
    hide CarriesItsSetting, WasMaySubmit;
  }

  /**
   Over any run under a fixed registry: every entry carries the risk class and the rollback of its setting, and every
   request logged for a core or a rule had a policy that is not off.
   */
  lemma {:induction false} RunsAreWellSubmitted(run: Run, registry: Registry, k: nat)
    requires FixedRegistry(run, registry) && k < |run.logs|
    ensures WellSubmitted(registry, run.logs[k])
  {
    hide WellSubmitted, Submitted, Transitioned;
    if k == 0 {
      NothingIsWellSubmitted(registry, run.logs[0]);
    } else {
      RunsAreWellSubmitted(run, registry, k - 1);
      var log, call := run.logs[k - 1], run.calls[k - 1];
      assert run.logs[k] == Next(registry, log, call);
      if Perform(registry, log, call).Success? {
        match call {
          case SubmitCall(change, actor, timestamp) => SubmissionsStayWell(registry, log, change, actor, timestamp);
          case TransitionCall(id, state, actor, timestamp) =>
            TransitionsStayWell(registry, log, id, state, actor, timestamp);
        }
      }
    }
  }
}
