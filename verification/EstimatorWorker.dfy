/**
 The background estimator: a worker thread and its one owner, sharing two capacity-one channels, a
 completion slot, a configuration and a stop flag. Every lock, channel and flag operation is one
 atomic step, and steps of the two threads interleave in any order.
 */
module EstimatorWorker {
  import opened Prelude

  datatype Config = Config(zoneId: string, zoneSource: string, remoteRegion: string)

  datatype Zone = Zone(id: string, source: string, factors: Option<string>)

  datatype Outcome = Outcome(estimated: nat, unknownModel: nat, missingZone: nat, missingUsage: nat, errors: nat)
  {
    function Plus(o: Outcome): Outcome {
      Outcome(estimated + o.estimated, unknownModel + o.unknownModel, missingZone + o.missingZone,
              missingUsage + o.missingUsage, errors + o.errors)
    }

    function Processed(): nat { estimated + unknownModel + missingZone + missingUsage + errors }
  }

  const NO_OUTCOME := Outcome(0, 0, 0, 0, 0)

  datatype Completion = Completion(sessions: set<string>, zone: Option<Zone>, outcome: Outcome, pending: nat,
                                   error: Option<string>)

  const NO_COMPLETION := Completion({}, None, NO_OUTCOME, 0, None)

  datatype Health = Health(state: string, pending: nat, processed: nat, failures: nat, lastError: Option<string>)

  datatype Try<T> = Good(value: T) | Bad(message: string)

  /** What the outside world answers during one pass: the zone's factors, the pending query, the estimation. */
  datatype Answers = Answers(factors: Try<Option<string>>, sessions: Try<seq<string>>, outcome: Try<Outcome>,
                             stillPending: Option<nat>)

  // ---- one pass -------------------------------------------------------------------------------------------

  /** The error a pass reports: a failed query hides a failed zone lookup, and either prevents estimation. */
  function PassError(config: Config, resolved: Option<string>, a: Answers): Option<string> {
    if a.sessions.Bad? then Some("pending query: " + a.sessions.message)
    else if resolved != Some(config.zoneId) && a.factors.Bad? then Some("zone factors: " + a.factors.message)
    else if a.sessions.value != [] && a.outcome.Bad? then Some("estimation: " + a.outcome.message)
    else None
  }

  function PassUpdate(config: Config, resolved: Option<string>, a: Answers): Completion {
    var unresolved := resolved != Some(config.zoneId);
    Completion(
      if a.sessions.Good? then set s | s in a.sessions.value else {},
      if unresolved
      then Some(Zone(config.zoneId, config.zoneSource, if a.factors.Good? then a.factors.value else None)) else None,
      if PassError(config, resolved, a) == None && a.sessions.value != [] then a.outcome.value else NO_OUTCOME,
      if a.stillPending.Some? then a.stillPending.value else 0,
      PassError(config, resolved, a))
  }

  /** The zone remembered as resolved: the new one as soon as its factors have been fetched. */
  function PassResolves(config: Config, resolved: Option<string>, a: Answers): Option<string> {
    if resolved != Some(config.zoneId) && a.factors.Good? then Some(config.zoneId) else resolved
  }

  /**
   What a pass reports. It is free of errors exactly when the query, any zone lookup it needed and any estimation
   it attempted all succeeded; a failed query hides a failed lookup, and either prevents estimation.
   */
  lemma PassReports(config: Config, resolved: Option<string>, a: Answers)
    ensures var u, looksUp := PassUpdate(config, resolved, a), resolved != Some(config.zoneId);
            && (u.error == None <==>
                  a.sessions.Good? && (looksUp ==> a.factors.Good?) && (a.sessions.value != [] ==> a.outcome.Good?))
            && (a.sessions.Bad? ==> u.error == Some("pending query: " + a.sessions.message) && u.sessions == {})
            && (a.sessions.Good? && looksUp && a.factors.Bad? ==>
                  u.error == Some("zone factors: " + a.factors.message))
            && (a.sessions.Good? ==> forall s :: s in u.sessions <==> s in a.sessions.value)
            && u.outcome == (if u.error == None && a.sessions.value != [] then a.outcome.value
                             else Outcome(0, 0, 0, 0, 0))
            && (u.zone.Some? <==> looksUp)
            && (looksUp ==> u.zone.value.id == config.zoneId && u.zone.value.source == config.zoneSource
                            && u.zone.value.factors == if a.factors.Good? then a.factors.value else None)
            && u.pending == if a.stillPending == None then 0 else a.stillPending.value
  {
  }

  /** A zone counts as resolved once its factors have arrived and not before, so a lookup that failed is made
      again by the next pass. */
  lemma ZoneRetried(config: Config, resolved: Option<string>, a: Answers, next: Answers)
    ensures var after := PassResolves(config, resolved, a);
            && (after == Some(config.zoneId) <==> resolved == Some(config.zoneId) || a.factors.Good?)
            && (after != Some(config.zoneId) ==> after == resolved)
            && (PassUpdate(config, after, next).zone.Some? <==> resolved != Some(config.zoneId) && a.factors.Bad?)
  {
  }

  /** The pass in its own order: zone, query, estimation, count. */
  method EstimatePass(config: Config, resolved: Option<string>, a: Answers)
    returns (update: Completion, nowResolved: Option<string>)
    ensures update == PassUpdate(config, resolved, a) && nowResolved == PassResolves(config, resolved, a)
  {
    nowResolved := resolved;
    var sessions: set<string>, zone: Option<Zone>, outcome, error: Option<string> := {}, None, NO_OUTCOME, None;
    if resolved != Some(config.zoneId) {
      var found := Zone(config.zoneId, config.zoneSource, None);
      match a.factors {
        case Good(factors) => found := found.(factors := factors);
        case Bad(message) => error := Some("zone factors: " + message);
      }
      if error == None {
        nowResolved := Some(config.zoneId);
      }
      zone := Some(found);
    }
    var events: seq<string> := [];
    match a.sessions {
      case Good(found) => events := found;
      case Bad(message) => error := Some("pending query: " + message);
    }
    sessions := set s | s in events;
    if error == None && events != [] {
      match a.outcome {
        case Good(counted) => outcome := counted;
        case Bad(message) => error := Some("estimation: " + message);
      }
    }
    update := Completion(sessions, zone, outcome, if a.stillPending.Some? then a.stillPending.value else 0, error);
  }

  // ---- merging ----------------------------------------------------------------------------------------------

  /** What an unread completion becomes when another update lands on it. */
  function Merged(slot: Completion, update: Completion): Completion {
    Completion(slot.sessions + update.sessions,
               if update.zone.Some? then update.zone else slot.zone,
               slot.outcome.Plus(update.outcome),
               update.pending,
               if update.error.Some? then update.error else slot.error)
  }

  ghost function MergedAll(updates: seq<Completion>): Completion {
    if updates == [] then NO_COMPLETION else Merged(MergedAll(updates[..|updates| - 1]), updates[|updates| - 1])
  }

  ghost function Total(updates: seq<Completion>): Outcome {
    if updates == [] then NO_OUTCOME else Total(updates[..|updates| - 1]).Plus(updates[|updates| - 1].outcome)
  }

  ghost function Failures(updates: seq<Completion>): nat {
    if updates == [] then 0 else Failures(updates[..|updates| - 1])
                                      + if updates[|updates| - 1].error.Some? then 1 else 0
  }

  /** Coalescing loses nothing: counters add up, sessions are the union, the newest error and zone win. */
  lemma {:induction false} MergedAllMeaning(updates: seq<Completion>)
    ensures MergedAll(updates).outcome == Total(updates)
    ensures forall s :: s in MergedAll(updates).sessions <==> exists i :: 0 <= i < |updates| && s in updates[i].sessions
    ensures updates != [] ==> MergedAll(updates).pending == updates[|updates| - 1].pending
    ensures MergedAll(updates).error.Some? <==> exists i :: 0 <= i < |updates| && updates[i].error.Some?
    ensures MergedAll(updates).zone.Some? <==> exists i :: 0 <= i < |updates| && updates[i].zone.Some?
  {
    if updates != [] {
      var n := |updates| - 1;
      MergedAllMeaning(updates[..n]);
      assert forall i :: 0 <= i < n ==> updates[..n][i] == updates[i];
    }
  }

  /** The newest error wins, and so does the newest zone. */
  lemma {:induction false} NewestWins(updates: seq<Completion>, i: nat)
    requires i < |updates|
    ensures updates[i].error.Some? && (forall j :: i < j < |updates| ==> updates[j].error == None) ==>
              MergedAll(updates).error == updates[i].error
    ensures updates[i].zone.Some? && (forall j :: i < j < |updates| ==> updates[j].zone == None) ==>
              MergedAll(updates).zone == updates[i].zone
  {
    var n := |updates| - 1;
    if i < n {
      NewestWins(updates[..n], i);
      assert forall j :: i < j < n ==> updates[..n][j] == updates[j];
    }
  }

  function EstimatedOf(): Completion -> real { (u: Completion) => u.outcome.estimated as real }

  function UnknownModelOf(): Completion -> real { (u: Completion) => u.outcome.unknownModel as real }

  function MissingZoneOf(): Completion -> real { (u: Completion) => u.outcome.missingZone as real }

  function MissingUsageOf(): Completion -> real { (u: Completion) => u.outcome.missingUsage as real }

  function ErrorsOf(): Completion -> real { (u: Completion) => u.outcome.errors as real }

  /** Each of the five counters adds up on its own. */
  lemma {:induction false} CountersAddUp(updates: seq<Completion>)
    ensures Total(updates).estimated as real == SumOver(updates, EstimatedOf())
    ensures Total(updates).unknownModel as real == SumOver(updates, UnknownModelOf())
    ensures Total(updates).missingZone as real == SumOver(updates, MissingZoneOf())
    ensures Total(updates).missingUsage as real == SumOver(updates, MissingUsageOf())
    ensures Total(updates).errors as real == SumOver(updates, ErrorsOf())
  {
    if updates != [] {
      CountersAddUp(updates[..|updates| - 1]);
    }
  }

  // ---- the two threads ------------------------------------------------------------------------------------------

  /** Where the worker is: each name is the step it takes next. */
  datatype WorkerPc =
    | ReceiveWake | CheckStop | ReadConfig | BeginPass(config: Config) | DoPass(config: Config)
    | Merge(update: Completion) | UpdateHealth(update: Completion) | SendCompletion(update: Completion)
    | CheckRewake(update: Completion) | SendRewake | Stopping | Stopped

  /** Where the owner is, inside `request`, `take_completion` or `drop`. */
  datatype OwnerPc = Idle | SendWake | TakeSlot | DropWake | Joining | Gone

  datatype State = State(
    wake: bool, done: bool, stop: bool, config: Option<Config>, slot: Completion, health: Health,
    resolved: Option<string>, worker: WorkerPc, owner: OwnerPc,
    // What has happened, for stating what holds:
    updates: seq<Completion>,          // every update merged, in order
    unread: seq<Completion>,           // those merged since the slot was last emptied
    taken: seq<seq<Completion>>,       // the updates behind each completion handed to the owner
    returned: seq<Completion>,         // the completions handed to the owner
    requests: nat,                     // how many times the configuration was set
    seen: nat)                         // how many of those settings the worker has read

  const INITIAL := State(false, false, false, None, NO_COMPLETION, Health("idle", 0, 0, 0, None), None,
                         ReceiveWake, Idle, [], [], [], [], 0, 0)

  datatype Action = WorkerStep(a: Answers) | Request(config: Config) | TryTake | Drop | OwnerStep

  predicate Enabled(s: State, action: Action) {
    match action
    case WorkerStep(a) => (s.worker.ReceiveWake? ==> s.wake) && !s.worker.Stopped?
    case Request(_) => s.owner.Idle?
    case TryTake => s.owner.Idle?
    case Drop => s.owner.Idle?
    case OwnerStep =>
      s.owner.SendWake? || s.owner.TakeSlot? || s.owner.DropWake? || (s.owner.Joining? && s.worker.Stopped?)
  }

  function HealthAfter(h: Health, update: Completion): Health {
    var counted := h.(pending := update.pending, processed := h.processed + update.outcome.Processed());
    if update.error.Some? then counted.(state := "degraded", failures := h.failures + 1, lastError := update.error)
    else counted.(state := "idle", lastError := None)
  }

  function WorkerNext(s: State, a: Answers): State
    requires Enabled(s, WorkerStep(a))
  {
    match s.worker
    case ReceiveWake => s.(wake := false, worker := CheckStop)
    case CheckStop => s.(worker := if s.stop then Stopping else ReadConfig)
    case ReadConfig =>
      s.(worker := if s.config.Some? then BeginPass(s.config.value) else ReceiveWake, seen := s.requests)
    case BeginPass(config) => s.(health := s.health.(state := "estimating"), worker := DoPass(config))
    case DoPass(config) =>
      s.(resolved := PassResolves(config, s.resolved, a), worker := Merge(PassUpdate(config, s.resolved, a)))
    case Merge(u) =>
      s.(slot := Merged(s.slot, u), updates := s.updates + [u], unread := s.unread + [u], worker := UpdateHealth(u))
    case UpdateHealth(u) => s.(health := HealthAfter(s.health, u), worker := SendCompletion(u))
    case SendCompletion(u) => s.(done := true, worker := CheckRewake(u))
    case CheckRewake(u) => s.(worker := if u.error.None? && u.pending > 0 && !s.stop then SendRewake else ReceiveWake)
    case SendRewake => s.(wake := true, worker := ReceiveWake)
    case Stopping => s.(health := s.health.(state := "stopped"), worker := Stopped)
  }

  function OwnerNext(s: State): State
    requires Enabled(s, OwnerStep)
  {
    match s.owner
    case SendWake => s.(wake := true, owner := Idle)
    case TakeSlot =>
      s.(slot := NO_COMPLETION, returned := s.returned + [s.slot], taken := s.taken + [s.unread],
         unread := [], owner := Idle)
    case DropWake => s.(wake := true, owner := Joining)
    case Joining => s.(owner := Gone)
  }

  function Next(s: State, action: Action): State
    requires Enabled(s, action)
  {
    match action
    case WorkerStep(a) => WorkerNext(s, a)
    case Request(config) => s.(config := Some(config), requests := s.requests + 1, owner := SendWake)
    case TryTake => if s.done then s.(done := false, owner := TakeSlot) else s
    case Drop => s.(stop := true, owner := DropWake)
    case OwnerStep => OwnerNext(s)
  }

  // ---- what always holds ------------------------------------------------------------------------------------------

  ghost function Joined(parts: seq<seq<Completion>>): seq<Completion> {
    if parts == [] then [] else Joined(parts[..|parts| - 1]) + parts[|parts| - 1]
  }

  /** Every update merged has been handed over in exactly one completion, in order, or is still in the slot. */
  ghost predicate Delivered(s: State) {
    && s.slot == MergedAll(s.unread)
    && s.updates == Joined(s.taken) + s.unread
    && |s.returned| == |s.taken| && forall i :: 0 <= i < |s.taken| ==> s.returned[i] == MergedAll(s.taken[i])
  }

  /** An unread update is announced: by a token, by a worker about to send one, or by an owner about to look. */
  predicate Announced(s: State) {
    s.unread != [] ==> s.done || s.worker.UpdateHealth? || s.worker.SendCompletion? || s.owner.TakeSlot?
  }

  /** A setting the worker has not read will be: a wake token is there or about to be, or the worker is awake. */
  predicate Heard(s: State) {
    && s.seen <= s.requests
    && (s.seen < s.requests ==>
          || s.wake || s.owner.SendWake?
          || s.worker.CheckStop? || s.worker.ReadConfig? || s.worker.Stopping? || s.worker.Stopped?)
  }

  /** The last pass left something to do and the worker will not stop. */
  predicate MoreToDo(s: State) {
    s.updates != [] && s.updates[|s.updates| - 1].error.None? && s.updates[|s.updates| - 1].pending > 0 && !s.stop
  }

  /** The update the worker is still reporting is the last one merged. */
  predicate Reporting(s: State) {
    (s.worker.UpdateHealth? || s.worker.SendCompletion? || s.worker.CheckRewake?) ==>
      s.updates != [] && s.updates[|s.updates| - 1] == s.worker.update
  }

  /** A worker waiting without a token has finished, and knows of nothing it could do. */
  predicate Rested(s: State) {
    && (s.worker.ReceiveWake? && !s.wake ==> !MoreToDo(s))
    && (s.updates != [] ==> s.requests > 0)
  }

  /** Wake tokens are only sent after a configuration, or a stop, is there to be found. */
  predicate Configured(s: State) {
    && (s.config.Some? <==> s.requests > 0) && (s.owner.SendWake? ==> s.config.Some?)
    && (s.wake || s.worker.CheckStop? ==> s.config.Some? || s.stop)
    && (!s.worker.ReceiveWake? && !s.worker.CheckStop? && !s.worker.Stopping? && !s.worker.Stopped? ==> s.config.Some?)
  }

  predicate StopHeard(s: State) {
    && (s.stop <==> s.owner.DropWake? || s.owner.Joining? || s.owner.Gone?)
    && (s.worker.Stopping? || s.worker.Stopped? ==> s.stop)
    && (s.owner.Joining? || s.owner.Gone? ==> s.wake || s.worker.CheckStop? || s.worker.Stopping? || s.worker.Stopped?)
    && (s.owner.Gone? ==> s.worker.Stopped?)
  }

  /** Health counts every update once. */
  ghost predicate Counted(s: State) {
    var late := if s.worker.UpdateHealth? then s.worker.update else NO_COMPLETION;
    && s.health.processed + late.outcome.Processed() == Total(s.updates).Processed()
    && s.health.failures + (if late.error.Some? then 1 else 0) == Failures(s.updates)
  }

  ghost predicate Inv(s: State) {
    && Delivered(s) && Announced(s) && Heard(s) && Reporting(s) && Rested(s)
    && Configured(s) && StopHeard(s) && Counted(s)
  }

  lemma InitialInv()
    ensures Inv(INITIAL)
  {
    assert Joined([]) == [];
  }

  lemma MergeOne(updates: seq<Completion>, u: Completion)
    ensures MergedAll(updates + [u]) == Merged(MergedAll(updates), u)
    ensures Total(updates + [u]) == Total(updates).Plus(u.outcome)
    ensures Failures(updates + [u]) == Failures(updates) + if u.error.Some? then 1 else 0
  {
    assert (updates + [u])[..|updates|] == updates;
  }

  lemma JoinOne(parts: seq<seq<Completion>>, part: seq<Completion>)
    ensures Joined(parts + [part]) == Joined(parts) + part
  {
    assert (parts + [part])[..|parts|] == parts;
  }

  lemma DeliveredStep(s: State, action: Action)
    requires Delivered(s) && Enabled(s, action)
    ensures Delivered(Next(s, action))
  {
    hide WorkerNext, OwnerNext, MergedAll, Joined;
    if action.WorkerStep? {
      DeliveredWorker(s, action.a);
    } else if action.OwnerStep? {
      DeliveredOwner(s);
    }
  }

  lemma DeliveredWorker(s: State, a: Answers)
    requires Delivered(s) && Enabled(s, WorkerStep(a))
    ensures Delivered(WorkerNext(s, a))
  {
    hide Merged, MergedAll, Joined, PassUpdate, PassResolves, HealthAfter;
    if s.worker.Merge? {
      MergeOne(s.unread, s.worker.update);
      assert s.updates + [s.worker.update] == Joined(s.taken) + (s.unread + [s.worker.update]);
    }
  }

  lemma DeliveredOwner(s: State)
    requires Delivered(s) && Enabled(s, OwnerStep)
    ensures Delivered(OwnerNext(s))
  {
    hide MergedAll, Joined;
    if s.owner.TakeSlot? {
      JoinOne(s.taken, s.unread);
      EmptySlot();
    }
  }

  lemma EmptySlot()
    ensures MergedAll([]) == NO_COMPLETION
  {
  }

  lemma CountedStep(s: State, action: Action)
    requires Counted(s) && Enabled(s, action)
    ensures Counted(Next(s, action))
  {
    hide Merged, PassUpdate, PassResolves, Total, Failures, HealthAfter, OwnerNext, Outcome.Processed;
    if action.WorkerStep? {
      CountedWorker(s, action.a);
    } else if action.OwnerStep? {
      assert OwnerNext(s).health == s.health && OwnerNext(s).updates == s.updates
             && OwnerNext(s).worker == s.worker by {
        OwnerTouches(s);
      }
    }
  }

  lemma OwnerTouches(s: State)
    requires Enabled(s, OwnerStep)
    ensures var s' := OwnerNext(s); s'.health == s.health && s'.updates == s.updates && s'.worker == s.worker
  {
  }

  lemma CountedWorker(s: State, a: Answers)
    requires Counted(s) && Enabled(s, WorkerStep(a))
    ensures Counted(WorkerNext(s, a))
  {
    hide Merged, PassUpdate, PassResolves, Total, Failures, HealthAfter, Outcome.Processed;
    if s.worker.Merge? {
      var u := s.worker.update;
      MergeOne(s.updates, u);
      PlusProcessed(Total(s.updates), u.outcome);
      NothingProcessed();
    } else if s.worker.UpdateHealth? {
      CountsOne(s.health, s.worker.update);
      NothingProcessed();
    } else {
      assert WorkerNext(s, a).health.processed == s.health.processed
             && WorkerNext(s, a).health.failures == s.health.failures;
    }
  }

  lemma NothingProcessed()
    ensures NO_COMPLETION.outcome.Processed() == 0
  {
  }

  lemma PlusProcessed(a: Outcome, b: Outcome)
    ensures a.Plus(b).Processed() == a.Processed() + b.Processed()
  {
  }

  lemma CountsOne(h: Health, u: Completion)
    ensures HealthAfter(h, u).processed == h.processed + u.outcome.Processed()
    ensures HealthAfter(h, u).failures == h.failures + if u.error.Some? then 1 else 0
  {
  }

  lemma AnnouncedStep(s: State, action: Action)
    requires Announced(s) && Enabled(s, action)
    ensures Announced(Next(s, action))
  {
    hide Merged, PassUpdate, PassResolves, HealthAfter;
  }

  lemma HeardStep(s: State, action: Action)
    requires Heard(s) && Enabled(s, action)
    ensures Heard(Next(s, action))
  {
    hide WorkerNext, OwnerNext;
    if action.WorkerStep? {
      HeardWorker(s, action.a);
    } else if action.OwnerStep? {
      HeardOwner(s);
    }
  }

  lemma HeardWorker(s: State, a: Answers)
    requires Heard(s) && Enabled(s, WorkerStep(a))
    ensures Heard(WorkerNext(s, a))
  {
    hide Merged, PassUpdate, PassResolves, HealthAfter;
  }

  lemma HeardOwner(s: State)
    requires Heard(s) && Enabled(s, OwnerStep)
    ensures Heard(OwnerNext(s))
  {
  }

  lemma ReportingStep(s: State, action: Action)
    requires Reporting(s) && Enabled(s, action)
    ensures Reporting(Next(s, action))
  {
    hide WorkerNext, OwnerNext;
    if action.WorkerStep? {
      ReportingWorker(s, action.a);
    } else if action.OwnerStep? {
      ReportingOwner(s);
    }
  }

  lemma ReportingWorker(s: State, a: Answers)
    requires Reporting(s) && Enabled(s, WorkerStep(a))
    ensures Reporting(WorkerNext(s, a))
  {
    hide Merged, PassUpdate, PassResolves, HealthAfter;
  }

  lemma ReportingOwner(s: State)
    requires Reporting(s) && Enabled(s, OwnerStep)
    ensures Reporting(OwnerNext(s))
  {
  }

  lemma RestedStep(s: State, action: Action)
    requires Rested(s) && Reporting(s) && Configured(s) && StopHeard(s) && Enabled(s, action)
    ensures Rested(Next(s, action))
  {
    hide WorkerNext, OwnerNext;
    if action.WorkerStep? {
      RestedWorker(s, action.a);
    } else if action.OwnerStep? {
      RestedOwner(s);
    }
  }

  lemma RestedWorker(s: State, a: Answers)
    requires Rested(s) && Reporting(s) && Configured(s) && StopHeard(s) && Enabled(s, WorkerStep(a))
    ensures Rested(WorkerNext(s, a))
  {
    hide Merged, PassUpdate, PassResolves, HealthAfter;
  }

  lemma RestedOwner(s: State)
    requires Rested(s) && Reporting(s) && Configured(s) && StopHeard(s) && Enabled(s, OwnerStep)
    ensures Rested(OwnerNext(s))
  {
  }

  lemma ConfiguredStep(s: State, action: Action)
    requires Configured(s) && StopHeard(s) && Enabled(s, action)
    ensures Configured(Next(s, action))
  {
    hide WorkerNext, OwnerNext;
    if action.WorkerStep? {
      ConfiguredWorker(s, action.a);
    } else if action.OwnerStep? {
      ConfiguredOwner(s);
    }
  }

  lemma ConfiguredWorker(s: State, a: Answers)
    requires Configured(s) && StopHeard(s) && Enabled(s, WorkerStep(a))
    ensures Configured(WorkerNext(s, a))
  {
    hide Merged, PassUpdate, PassResolves, HealthAfter;
  }

  lemma ConfiguredOwner(s: State)
    requires Configured(s) && StopHeard(s) && Enabled(s, OwnerStep)
    ensures Configured(OwnerNext(s))
  {
  }

  lemma StopHeardStep(s: State, action: Action)
    requires StopHeard(s) && Enabled(s, action)
    ensures StopHeard(Next(s, action))
  {
    hide WorkerNext, OwnerNext;
    if action.WorkerStep? {
      StopHeardWorker(s, action.a);
    } else if action.OwnerStep? {
      StopHeardOwner(s);
    }
  }

  lemma StopHeardWorker(s: State, a: Answers)
    requires StopHeard(s) && Enabled(s, WorkerStep(a))
    ensures StopHeard(WorkerNext(s, a))
  {
    hide Merged, PassUpdate, PassResolves, HealthAfter;
  }

  lemma StopHeardOwner(s: State)
    requires StopHeard(s) && Enabled(s, OwnerStep)
    ensures StopHeard(OwnerNext(s))
  {
  }

  lemma InvStep(s: State, action: Action)
    requires Inv(s) && Enabled(s, action)
    ensures Inv(Next(s, action))
  {
    hide Delivered, Counted, Announced, Heard, Reporting, Rested, Configured, StopHeard, Next, Enabled;
    DeliveredStep(s, action);
    CountedStep(s, action);
    AnnouncedStep(s, action);
    HeardStep(s, action);
    ReportingStep(s, action);
    RestedStep(s, action);
    ConfiguredStep(s, action);
    StopHeardStep(s, action);
  }

  /** The state a schedule leads to from `s`, if each of its steps can be taken in turn. */
  ghost function From(s: State, actions: seq<Action>): Option<State> {
    if actions == [] then Some(s)
    else
      var n := |actions| - 1;
      match From(s, actions[..n])
      case None => None
      case Some(before) => if Enabled(before, actions[n]) then Some(Next(before, actions[n])) else None
  }

  ghost function Run(actions: seq<Action>): Option<State> { From(INITIAL, actions) }

  /** Schedules start idle and may go on with any step that is enabled. */
  lemma RunGoesOn(actions: seq<Action>, action: Action)
    ensures Run([]) == Some(INITIAL)
    ensures Run(actions).Some? && Enabled(Run(actions).value, action) ==>
              Run(actions + [action]) == Some(Next(Run(actions).value, action))
  {
    assert (actions + [action])[..|actions|] == actions;
    hide Next, Enabled;
  }

  lemma {:induction false} AlwaysInv(actions: seq<Action>)
    requires Run(actions).Some?
    ensures Inv(Run(actions).value)
  {
    hide Inv, Next, Enabled;
    if actions == [] {
      InitialInv();
    } else {
      var n := |actions| - 1;
      AlwaysInv(actions[..n]);
      InvStep(Run(actions[..n]).value, actions[n]);
    }
  }

  // ---- the main results ------------------------------------------------------------------------------------------

  /** Outcomes merged are outcomes taken plus outcomes still in the slot, after every schedule. */
  lemma OutcomesConserved(actions: seq<Action>)
    requires Run(actions).Some?
    ensures var s := Run(actions).value;
            && Total(s.updates) == Total(s.returned).Plus(s.slot.outcome)
            && s.health.processed + (if s.worker.UpdateHealth? then s.worker.update.outcome.Processed() else 0)
               == Total(s.returned).Processed() + s.slot.outcome.Processed()
  {
    AlwaysInv(actions);
    var s := Run(actions).value;
    TotalJoined(s.taken, s.unread);
    MergedAllMeaning(s.unread);
    TotalReturned(s.taken, s.returned);
  }

  lemma {:induction false} TotalAppend(a: seq<Completion>, b: seq<Completion>)
    ensures Total(a + b) == Total(a).Plus(Total(b))
  {
    if b == [] {
      assert a + b == a;
    } else {
      hide Outcome.Plus, MergedAll, Failures, Merged;
      var n := |b| - 1;
      TotalAppend(a, b[..n]);
      assert a + b == a + b[..n] + [b[n]];
      MergeOne(a + b[..n], b[n]);
      PlusAssociates(Total(a), Total(b[..n]), b[n].outcome);
    }
  }

  lemma PlusAssociates(a: Outcome, b: Outcome, c: Outcome)
    ensures a.Plus(b).Plus(c) == a.Plus(b.Plus(c))
  {
  }

  lemma {:induction false} TotalJoined(parts: seq<seq<Completion>>, rest: seq<Completion>)
    ensures Total(Joined(parts) + rest) == PartTotal(parts).Plus(Total(rest))
  {
    TotalAppend(Joined(parts), rest);
    if parts != [] {
      TotalJoined(parts[..|parts| - 1], parts[|parts| - 1]);
    }
  }

  ghost function PartTotal(parts: seq<seq<Completion>>): Outcome {
    if parts == [] then NO_OUTCOME else PartTotal(parts[..|parts| - 1]).Plus(Total(parts[|parts| - 1]))
  }

  lemma {:induction false} TotalReturned(taken: seq<seq<Completion>>, returned: seq<Completion>)
    requires |returned| == |taken| && forall i :: 0 <= i < |taken| ==> returned[i] == MergedAll(taken[i])
    ensures Total(returned) == PartTotal(taken)
  {
    if taken != [] {
      var n := |taken| - 1;
      TotalReturned(taken[..n], returned[..n]);
      MergedAllMeaning(taken[n]);
    }
  }

  /** Each update reaches the owner exactly once: the completions taken, then the slot, in the order merged. */
  lemma UpdatesDeliveredOnce(actions: seq<Action>)
    requires Run(actions).Some?
    ensures var s := Run(actions).value;
            && s.updates == Joined(s.taken) + s.unread && s.slot == MergedAll(s.unread)
            && |s.returned| == |s.taken| && forall i :: 0 <= i < |s.taken| ==> s.returned[i] == MergedAll(s.taken[i])
  {
    hide Run, MergedAll, Joined;
    AlwaysInv(actions);
  }

  /** While the worker is blocked and the owner is between calls, one `take_completion` returns all that is unread. */
  lemma QuietSlotIsTakeable(actions: seq<Action>)
    requires Run(actions).Some?
    requires var s := Run(actions).value; s.worker.ReceiveWake? && s.owner.Idle? && s.unread != []
    ensures var s := Run(actions).value;
            var taking := Next(s, TryTake);
            && Enabled(taking, OwnerStep)
            && Next(taking, OwnerStep).returned == s.returned + [MergedAll(s.unread)]
            && Next(taking, OwnerStep).unread == []
  {
    hide Run, MergedAll, Joined;
    AlwaysInv(actions);
  }

  /** No update waits unannounced, whatever both threads are doing. */
  lemma UnreadIsAnnounced(actions: seq<Action>)
    requires Run(actions).Some? && Run(actions).value.unread != []
    ensures var s := Run(actions).value;
            s.done || s.worker.UpdateHealth? || s.worker.SendCompletion? || s.owner.TakeSlot?
  {
    hide Run, MergedAll, Joined;
    AlwaysInv(actions);
  }

  /**
   A worker that blocks has read the latest configuration, and either none was ever set or its last pass
   failed, left nothing pending, or ended under a stop. The branch for a missing configuration never runs.
   */
  lemma BlockedMeansFinished(actions: seq<Action>)
    requires Run(actions).Some?
    ensures var s := Run(actions).value;
            && (s.worker.ReadConfig? ==> s.config.Some?)
            && (s.worker.ReceiveWake? && !s.wake && !s.owner.SendWake? ==>
                  && s.seen == s.requests
                  && (s.stop || s.updates == [] ||
                      s.updates[|s.updates| - 1].error.Some? || s.updates[|s.updates| - 1].pending == 0))
  {
    hide Run, MergedAll, Joined;
    AlwaysInv(actions);
  }

  /** The worker only wakes itself when its last pass succeeded and left something pending. */
  predicate RewakesForMore(s: State) {
    s.worker.SendRewake? ==>
      s.updates != [] && s.updates[|s.updates| - 1].error == None && s.updates[|s.updates| - 1].pending > 0
  }

  lemma RewakesOnlyForMore(actions: seq<Action>)
    requires Run(actions).Some?
    ensures RewakesForMore(Run(actions).value)
  {
    if actions != [] {
      var n := |actions| - 1;
      RewakesOnlyForMore(actions[..n]);
      AlwaysInv(actions[..n]);
      hide Run, Delivered, Counted, Announced, Heard, Rested, Configured, StopHeard;
      RewakeStep(Run(actions[..n]).value, actions[n]);
    }
  }

  lemma RewakeStep(s: State, action: Action)
    requires RewakesForMore(s) && Reporting(s) && Enabled(s, action)
    ensures RewakesForMore(Next(s, action))
  {
    hide WorkerNext, OwnerNext;
    if action.WorkerStep? {
      RewakeWorker(s, action.a);
    } else if action.OwnerStep? {
      RewakeOwner(s);
    }
  }

  lemma RewakeWorker(s: State, a: Answers)
    requires RewakesForMore(s) && Reporting(s) && Enabled(s, WorkerStep(a))
    ensures RewakesForMore(WorkerNext(s, a))
  {
    hide Merged, PassUpdate, PassResolves, HealthAfter;
  }

  lemma RewakeOwner(s: State)
    requires RewakesForMore(s) && Enabled(s, OwnerStep)
    ensures RewakesForMore(OwnerNext(s))
  {
  }

  /** The settings a schedule asks for, in order. */
  ghost function Requested(actions: seq<Action>): seq<Config> {
    if actions == [] then []
    else
      var a := actions[|actions| - 1];
      Requested(actions[..|actions| - 1]) + if a.Request? then [a.config] else []
  }

  /** The latest setting is the one configured, and a pass runs under the setting the worker read last. */
  predicate Follows(s: State, settings: seq<Config>) {
    && s.requests == |settings| && s.seen <= |settings|
    && s.config == (if settings == [] then None else Some(settings[|settings| - 1]))
    && (s.worker.BeginPass? || s.worker.DoPass? ==> s.seen > 0 && s.worker.config == settings[s.seen - 1])
  }

  lemma FollowsStep(s: State, action: Action, settings: seq<Config>)
    requires Follows(s, settings) && Enabled(s, action)
    ensures Follows(Next(s, action), if action.Request? then settings + [action.config] else settings)
  {
    hide WorkerNext, OwnerNext;
    if action.WorkerStep? {
      FollowsWorker(s, action.a, settings);
    } else if action.OwnerStep? {
      FollowsOwner(s, settings);
    }
  }

  lemma FollowsWorker(s: State, a: Answers, settings: seq<Config>)
    requires Follows(s, settings) && Enabled(s, WorkerStep(a))
    ensures Follows(WorkerNext(s, a), settings)
  {
    hide Merged, PassUpdate, PassResolves, HealthAfter;
  }

  lemma FollowsOwner(s: State, settings: seq<Config>)
    requires Follows(s, settings) && Enabled(s, OwnerStep)
    ensures Follows(OwnerNext(s), settings)
  {
  }

  lemma {:induction false} SettingsAreRead(actions: seq<Action>)
    requires Run(actions).Some?
    ensures Follows(Run(actions).value, Requested(actions))
  {
    hide Next, Enabled, Follows;
    if actions == [] {
      assert Follows(INITIAL, []) by { NoSettings(); }
    } else {
      var n := |actions| - 1;
      SettingsAreRead(actions[..n]);
      FollowsStep(Run(actions[..n]).value, actions[n], Requested(actions[..n]));
      assert Requested(actions[..n]) + [] == Requested(actions[..n]);
    }
  }

  lemma NoSettings()
    ensures Follows(INITIAL, [])
  {
  }

  /** Between a pass reported and the next begun, health shows the last update merged. */
  predicate HealthShows(s: State) {
    s.updates != [] && !s.worker.DoPass? && !s.worker.Merge? && !s.worker.UpdateHealth? && !s.worker.Stopped? ==>
      var last := s.updates[|s.updates| - 1];
      && s.health.pending == last.pending && s.health.lastError == last.error
      && s.health.state == if last.error.Some? then "degraded" else "idle"
  }

  lemma HealthShowsWorker(s: State, a: Answers)
    requires HealthShows(s) && Reporting(s) && Enabled(s, WorkerStep(a))
    ensures HealthShows(WorkerNext(s, a))
  {
    hide Merged, PassUpdate, PassResolves;
  }

  lemma {:induction false} HealthTellsLast(actions: seq<Action>)
    requires Run(actions).Some?
    ensures HealthShows(Run(actions).value)
  {
    hide WorkerNext, OwnerNext, HealthShows, Delivered, Counted, Announced, Heard, Rested, Configured, StopHeard,
         Reporting;
    if actions == [] {
      NoHealthYet();
    } else {
      var n := |actions| - 1;
      HealthTellsLast(actions[..n]);
      AlwaysInv(actions[..n]);
      var s := Run(actions[..n]).value;
      if actions[n].WorkerStep? {
        HealthShowsWorker(s, actions[n].a);
      } else {
        OthersLeaveHealth(s, actions[n]);
      }
    }
  }

  lemma NoHealthYet()
    ensures HealthShows(INITIAL)
  {
  }

  lemma OthersLeaveHealth(s: State, action: Action)
    requires HealthShows(s) && Enabled(s, action) && !action.WorkerStep?
    ensures HealthShows(Next(s, action))
  {
  }

  /** A request is never lost: until the worker reads the setting, a token or a running step leads it there. */
  lemma RequestsAreHeard(actions: seq<Action>)
    requires Run(actions).Some? && !Run(actions).value.stop
    requires var s := Run(actions).value; s.seen < s.requests
    ensures var s := Run(actions).value; s.wake || s.owner.SendWake? || s.worker.CheckStop? || s.worker.ReadConfig?
  {
    hide Run, MergedAll, Joined;
    AlwaysInv(actions);
  }

  // ---- dropping the worker -------------------------------------------------------------------------------------

  /** How many steps can still follow a stop. */
  function StepsLeft(s: State): nat {
    (match s.worker
     case ReadConfig => 11 case BeginPass(_) => 10 case DoPass(_) => 9 case Merge(_) => 8 case UpdateHealth(_) => 7
     case SendCompletion(_) => 6 case CheckRewake(_) => 5 case SendRewake => 4 case ReceiveWake => 3 case CheckStop => 2
     case Stopping => 1 case Stopped => 0) +
    match s.owner case DropWake => 2 case Joining => 1 case _ => 0
  }

  lemma StopCountsDown(s: State, action: Action)
    requires StopHeard(s) && s.stop && Enabled(s, action)
    ensures StepsLeft(Next(s, action)) < StepsLeft(s) && Next(s, action).stop
  {
    hide Merged, PassUpdate, PassResolves, HealthAfter;
  }

  /** After a stop, someone can always move until the join has returned. */
  lemma StopNeverSticks(s: State, a: Answers)
    requires StopHeard(s) && s.stop && !s.owner.Gone?
    ensures Enabled(s, OwnerStep) || Enabled(s, WorkerStep(a))
  {
  }

  /** Once dropped, no schedule runs for more than 13 steps, and none can stop short of the join returning. */
  lemma {:induction false} DropReturns(actions: seq<Action>, more: seq<Action>, a: Answers)
    requires Run(actions).Some? && Run(actions).value.stop && From(Run(actions).value, more).Some?
    ensures var s := From(Run(actions).value, more).value;
            && StopHeard(s) && s.stop
            && |more| + StepsLeft(s) <= StepsLeft(Run(actions).value) <= 13
            && ((s.owner.Gone? && s.worker.Stopped?) || Enabled(s, OwnerStep) || Enabled(s, WorkerStep(a)))
  {
    hide Run, Next, Enabled, MergedAll, Joined;
    var s := Run(actions).value;
    if more == [] {
      AlwaysInv(actions);
    } else {
      var n := |more| - 1;
      DropReturns(actions, more[..n], a);
      var before := From(s, more[..n]).value;
      StopCountsDown(before, more[n]);
      StopHeardStep(before, more[n]);
    }
    var end := From(s, more).value;
    if !end.owner.Gone? {
      StopNeverSticks(end, a);
    }
  }
}
