/** Run ownership in a CommunityList: publish, update and one-shot loads that may settle long after a
    stop or a newer run. Each step is one stretch of code between two awaits. */
module CommunityLists {
  import opened Options

  type Record = string
  type Cid = string

  datatype ListState = Stopped | Publishing | Updating

  // a run of publish() or update(), named by its stop signal
  datatype RunPhase = Signing | Adding | Waiting | Loading | Finishing

  // a load, named by its own signal; `owner` is the update run it belongs to, if any
  datatype Load = Load(cid: Cid, owner: Option<nat>)

  datatype Model = Model(
    state: ListState, isMember: bool, cid: Option<Cid>, record: Option<Record>,
    controller: Option<nat>, aborted: set<nat>, next: nat, runs: map<nat, RunPhase>,
    loader: Option<nat>, abortedLoads: set<nat>, nextLoad: nat, loads: map<nat, Load>)

  // what an awaited operation came to
  datatype Outcome = Failed | Got(record: Record)

  datatype Event =
    | PublishCalled
    | PublishSigned(run: nat, ok: bool)
    | PublishAdded(run: nat, outcome: Outcome)
    | UpdateCalled
    | UpdateTicks(run: nat)
    | LoadCalled
    | LoadSettles(load: nat, outcome: Outcome)
    | UpdateFinishes(run: nat)
    | StopCalled

  function Unpublished(): Model { Model(Stopped, false, None, None, None, {}, 0, map[], None, {}, 0, map[]) }

  function WithCid(cid: Cid): Model { Unpublished().(cid := Some(cid)) }

  // ----- steps

  predicate IsPublishPhase(p: RunPhase) { p.Signing? || p.Adding? }

  function StartRun(m: Model, state: ListState, phase: RunPhase): Model
  {
    m.(state := state, isMember := m.isMember || state.Updating?, controller := Some(m.next), next := m.next + 1,
       runs := m.runs[m.next := phase])
  }

  function EndRun(m: Model, run: nat): Model { m.(runs := m.runs - {run}) }

  /** `stop()`: the current run, the loads that listen to it, and the current load. */
  function Stop(m: Model): Model
  {
    m.(isMember := false, state := Stopped,
       aborted := m.aborted + (if m.controller.Some? then {m.controller.value} else {}),
       abortedLoads := m.abortedLoads
                       + (set l | l in m.loads && m.controller.Some? && m.loads[l].owner == m.controller)
                       + (if m.loader.Some? then {m.loader.value} else {}))
  }

  /** The `finally` of publish: only the run that still owns the controller resets the state. */
  function EndPublish(m: Model, run: nat): Model
  {
    EndRun(if m.controller == Some(run) then m.(state := Stopped) else m, run)
  }

  function Adopt(m: Model, record: Record, cid: Cid): Model { m.(record := Some(record), cid := Some(cid)) }

  function StartLoad(m: Model, cid: Cid, owner: Option<nat>): Model
  {
    m.(loader := Some(m.nextLoad), nextLoad := m.nextLoad + 1, loads := m.loads[m.nextLoad := Load(cid, owner)])
  }

  function TickUpdate(m: Model, run: nat): Model
    requires run in m.runs
  {
    if run in m.aborted then EndRun(m, run)
    else if m.record.Some? || m.cid.None? then m.(runs := m.runs[run := Finishing])
    else StartLoad(m, m.cid.value, Some(run)).(runs := m.runs[run := Loading])
  }

  /** A load's record is taken only while its own signal stands; the owner then moves on. */
  function SettleLoad(m: Model, load: nat, outcome: Outcome): Model
    requires load in m.loads
  {
    var l := m.loads[load];
    var taken := if outcome.Got? && load !in m.abortedLoads then Adopt(m, outcome.record, l.cid) else m;
    taken.(loads := m.loads - {load},
           loader := if m.loader == Some(load) then None else m.loader,
           runs := if l.owner.Some? && l.owner.value in m.runs then m.runs[l.owner.value := Finishing] else m.runs)
  }

  function FinishUpdate(m: Model, run: nat): Model
  {
    EndRun(if run in m.aborted then m else Stop(m), run)
  }

  predicate IsIn(m: Model, run: nat, phase: RunPhase) { run in m.runs && m.runs[run] == phase }

  /** `cidOf` is content addressing; loads are verified against the cid they asked for. */
  function Step(cidOf: Record -> Cid, m: Model, e: Event): Model
  {
    match e
    case PublishCalled => if m.state.Stopped? then StartRun(m, Publishing, Signing) else m
    case PublishSigned(run, ok) =>
      if !IsIn(m, run, Signing) then m
      else if ok && run !in m.aborted then m.(runs := m.runs[run := Adding])
      else EndPublish(m, run)
    case PublishAdded(run, outcome) =>
      if !IsIn(m, run, Adding) then m
      else if outcome.Got? && run !in m.aborted then EndPublish(Adopt(m, outcome.record, cidOf(outcome.record)), run)
      else EndPublish(m, run)
    case UpdateCalled => if m.state.Stopped? && m.cid.Some? then StartRun(m, Updating, Waiting) else m
    case UpdateTicks(run) => if IsIn(m, run, Waiting) then TickUpdate(m, run) else m
    case LoadCalled => if m.record.None? && m.cid.Some? then StartLoad(m, m.cid.value, None) else m
    case LoadSettles(load, outcome) =>
      if load in m.loads && (outcome.Got? ==> cidOf(outcome.record) == m.loads[load].cid)
      then SettleLoad(m, load, outcome) else m
    case UpdateFinishes(run) => if IsIn(m, run, Finishing) then FinishUpdate(m, run) else m
    case StopCalled => Stop(m)
  }

  function Run(cidOf: Record -> Cid, start: Model, es: seq<Event>): Model
  {
    if es == [] then start else Step(cidOf, Run(cidOf, start, es[..|es| - 1]), es[|es| - 1])
  }

  // ----- ownership

  function StateOf(p: RunPhase): ListState { if IsPublishPhase(p) then Publishing else Updating }

  predicate IsFresh(m: Model)
  {
    && (forall r :: r in m.runs ==> r < m.next) && (forall r :: r in m.aborted ==> r < m.next)
    && (m.controller.Some? ==> m.controller.value < m.next)
    && (forall l :: l in m.loads ==> l < m.nextLoad) && (forall l :: l in m.abortedLoads ==> l < m.nextLoad)
    && (m.loader.Some? ==> m.loader.value < m.nextLoad)
    && forall l :: l in m.loads && m.loads[l].owner.Some? ==> m.loads[l].owner.value < m.next
  }

  /** A run that was not aborted is the current one and the state is its own; a state other than stopped
      always has such a run; and the updating set has the list exactly while it is updating. */
  predicate IsOwned(m: Model)
  {
    && (forall r :: r in m.runs && r !in m.aborted ==> m.controller == Some(r) && m.state == StateOf(m.runs[r]))
    && (!m.state.Stopped? ==>
          m.controller.Some? && m.controller.value in m.runs && m.controller.value !in m.aborted)
    && (m.isMember <==> m.state.Updating?)
  }

  /** A load that belongs to a run is its only one, keeps it waiting, and is aborted exactly when it is. */
  predicate LoadsFollowRuns(m: Model)
  {
    && (forall l :: l in m.loads && m.loads[l].owner.Some? ==>
                      && IsIn(m, m.loads[l].owner.value, Loading)
                      && (m.loads[l].owner.value in m.aborted <==> l in m.abortedLoads))
    && forall k, l :: k in m.loads && l in m.loads && m.loads[k].owner.Some? && m.loads[k].owner == m.loads[l].owner ==>
                        k == l
  }

  predicate RecordHasItsCid(cidOf: Record -> Cid, m: Model) { m.record.Some? ==> m.cid == Some(cidOf(m.record.value)) }

  predicate IsSound(cidOf: Record -> Cid, m: Model)
  {
    IsFresh(m) && IsOwned(m) && LoadsFollowRuns(m) && RecordHasItsCid(cidOf, m)
  }

  lemma StartRunIsSound(cidOf: Record -> Cid, m: Model, state: ListState, phase: RunPhase)
    requires IsSound(cidOf, m) && m.state.Stopped? && state == StateOf(phase)
    ensures IsSound(cidOf, StartRun(m, state, phase))
  {
  }

  lemma StopIsSound(cidOf: Record -> Cid, m: Model)
    requires IsSound(cidOf, m)
    ensures IsSound(cidOf, Stop(m)) && forall r :: r in m.runs ==> r in Stop(m).aborted
  {
  }

  /** Ending a run is fine once the state is not its own any more. */
  lemma EndRunIsSound(cidOf: Record -> Cid, m: Model, run: nat)
    requires IsFresh(m) && LoadsFollowRuns(m) && RecordHasItsCid(cidOf, m)
    requires run in m.runs && !m.runs[run].Loading?
    requires forall r :: r in m.runs && r !in m.aborted && r != run ==>
                           m.controller == Some(r) && m.state == StateOf(m.runs[r])
    requires !m.state.Stopped? ==>
               && m.controller.Some? && m.controller != Some(run)
               && m.controller.value in m.runs && m.controller.value !in m.aborted
    requires m.isMember <==> m.state.Updating?
    ensures IsSound(cidOf, EndRun(m, run))
  {
  }

  lemma EndPublishIsSound(cidOf: Record -> Cid, m: Model, run: nat)
    requires IsSound(cidOf, m) && run in m.runs && IsPublishPhase(m.runs[run])
    ensures IsSound(cidOf, EndPublish(m, run))
    ensures run in m.aborted ==> EndPublish(m, run).state == m.state
  {
  }

  lemma StartLoadIsSound(cidOf: Record -> Cid, m: Model, run: nat, cid: Cid)
    requires IsSound(cidOf, m) && IsIn(m, run, Waiting) && run !in m.aborted
    ensures IsSound(cidOf, StartLoad(m, cid, Some(run)).(runs := m.runs[run := Loading]))
  {
  }

  lemma TickIsSound(cidOf: Record -> Cid, m: Model, run: nat)
    requires IsSound(cidOf, m) && IsIn(m, run, Waiting)
    ensures IsSound(cidOf, TickUpdate(m, run))
  {
    if run in m.aborted {
      EndRunIsSound(cidOf, m, run);
    } else if m.record.None? && m.cid.Some? {
      StartLoadIsSound(cidOf, m, run, m.cid.value);
    }
  }

  lemma SettleLoadIsSound(cidOf: Record -> Cid, m: Model, load: nat, outcome: Outcome)
    requires IsSound(cidOf, m) && load in m.loads
    requires outcome.Got? ==> cidOf(outcome.record) == m.loads[load].cid
    ensures IsSound(cidOf, SettleLoad(m, load, outcome))
  {
  }

  lemma FinishIsSound(cidOf: Record -> Cid, m: Model, run: nat)
    requires IsSound(cidOf, m) && IsIn(m, run, Finishing)
    ensures IsSound(cidOf, FinishUpdate(m, run))
  {
  }

  lemma AddedIsSound(cidOf: Record -> Cid, m: Model, run: nat, outcome: Outcome)
    requires IsSound(cidOf, m) && IsIn(m, run, Adding)
    ensures IsSound(cidOf, Step(cidOf, m, PublishAdded(run, outcome)))
  {
    EndPublishIsSound(cidOf, m, run);
    if outcome.Got? { EndPublishIsSound(cidOf, Adopt(m, outcome.record, cidOf(outcome.record)), run); }
  }

  lemma SignedIsSound(cidOf: Record -> Cid, m: Model, run: nat, ok: bool)
    requires IsSound(cidOf, m) && IsIn(m, run, Signing)
    ensures IsSound(cidOf, Step(cidOf, m, PublishSigned(run, ok)))
  {
    EndPublishIsSound(cidOf, m, run);
  }

  lemma LoadCalledIsSound(cidOf: Record -> Cid, m: Model)
    requires IsSound(cidOf, m)
    ensures IsSound(cidOf, Step(cidOf, m, LoadCalled))
  {
  }

  lemma StepIsSound(cidOf: Record -> Cid, m: Model, e: Event)
    requires IsSound(cidOf, m)
    ensures IsSound(cidOf, Step(cidOf, m, e))
  {
    match e {
      case PublishCalled => if m.state.Stopped? { StartRunIsSound(cidOf, m, Publishing, Signing); }
      case PublishSigned(run, ok) => if IsIn(m, run, Signing) { SignedIsSound(cidOf, m, run, ok); }
      case PublishAdded(run, outcome) => if IsIn(m, run, Adding) { AddedIsSound(cidOf, m, run, outcome); }
      case UpdateCalled => if m.state.Stopped? { StartRunIsSound(cidOf, m, Updating, Waiting); }
      case UpdateTicks(run) => if IsIn(m, run, Waiting) { TickIsSound(cidOf, m, run); }
      case LoadCalled => LoadCalledIsSound(cidOf, m);
      case LoadSettles(load, outcome) =>
        if load in m.loads && (outcome.Got? ==> cidOf(outcome.record) == m.loads[load].cid) {
          SettleLoadIsSound(cidOf, m, load, outcome);
        }
      case UpdateFinishes(run) => if IsIn(m, run, Finishing) { FinishIsSound(cidOf, m, run); }
      case StopCalled => StopIsSound(cidOf, m);
    }
  }

  lemma {:induction false} RunIsSound(cidOf: Record -> Cid, start: Model, es: seq<Event>)
    requires IsSound(cidOf, start)
    ensures IsSound(cidOf, Run(cidOf, start, es))
  {
    if es != [] {
      RunIsSound(cidOf, start, es[..|es| - 1]);
      StepIsSound(cidOf, Run(cidOf, start, es[..|es| - 1]), es[|es| - 1]);
    }
  }

  lemma StartsAreSound(cidOf: Record -> Cid, cid: Cid)
    ensures IsSound(cidOf, Unpublished()) && IsSound(cidOf, WithCid(cid))
  {
  }

  /** In every interleaving at most one run is live, the state is its state, the updating set has the list
      exactly while it is updating, and a held record is the one its cid names. */
  lemma OwnershipHolds(cidOf: Record -> Cid, cid: Cid, fromCid: bool, es: seq<Event>, a: nat, b: nat)
    ensures var m := Run(cidOf, if fromCid then WithCid(cid) else Unpublished(), es);
            && (a in m.runs && a !in m.aborted && b in m.runs && b !in m.aborted ==> a == b)
            && (a in m.runs && a !in m.aborted ==> m.state == StateOf(m.runs[a]))
            && (m.isMember <==> m.state.Updating?)
            && (m.record.Some? ==> m.cid == Some(cidOf(m.record.value)))
  {
    StartsAreSound(cidOf, cid);
    RunIsSound(cidOf, if fromCid then WithCid(cid) else Unpublished(), es);
  }

  /** The step belongs to a run or a load whose signal was aborted. */
  predicate IsLate(m: Model, e: Event)
  {
    match e
    case PublishSigned(run, _) => run in m.aborted
    case PublishAdded(run, _) => run in m.aborted
    case UpdateTicks(run) => run in m.aborted
    case UpdateFinishes(run) => run in m.aborted
    case LoadSettles(load, _) => load in m.abortedLoads
    case _ => false
  }

  /** What a late step must leave alone: the state, the cid, the record, the newer run and its controller. */
  predicate IsUndisturbed(m: Model, after: Model)
  {
    && after.state == m.state && after.isMember == m.isMember && after.cid == m.cid && after.record == m.record
    && after.controller == m.controller && after.aborted == m.aborted && after.abortedLoads == m.abortedLoads
    && forall r :: r in m.runs && r !in m.aborted ==> r in after.runs && after.runs[r] == m.runs[r]
  }

  lemma LateStepIsHarmless(cidOf: Record -> Cid, m: Model, e: Event)
    requires IsSound(cidOf, m) && IsLate(m, e)
    ensures IsUndisturbed(m, Step(cidOf, m, e))
  {
  }

  /** A run or load whose signal was aborted never changes the list or disturbs a newer run, in any
      interleaving. */
  lemma AbortedRunsAreInert(cidOf: Record -> Cid, cid: Cid, fromCid: bool, es: seq<Event>, e: Event)
    ensures var m := Run(cidOf, if fromCid then WithCid(cid) else Unpublished(), es);
            IsLate(m, e) ==> IsUndisturbed(m, Step(cidOf, m, e))
  {
    var m := Run(cidOf, if fromCid then WithCid(cid) else Unpublished(), es);
    StartsAreSound(cidOf, cid);
    RunIsSound(cidOf, if fromCid then WithCid(cid) else Unpublished(), es);
    if IsLate(m, e) { LateStepIsHarmless(cidOf, m, e); }
  }

  // ----- after a stop

  /** Something that was under way settles; nobody calls the list. */
  predicate IsSettlement(e: Event)
  {
    e.PublishSigned? || e.PublishAdded? || e.UpdateTicks? || e.LoadSettles? || e.UpdateFinishes?
  }

  predicate IsUnchanged(m: Model, after: Model)
  {
    after.state == m.state && after.isMember == m.isMember && after.cid == m.cid && after.record == m.record
  }

  predicate IsQuiet(m: Model) { m.state.Stopped? && !m.isMember && forall r :: r in m.runs ==> r in m.aborted }

  /** A load whose signal stands could still bring a record the list does not have. */
  predicate CanDeliver(cidOf: Record -> Cid, m: Model, l: nat, record: Record)
  {
    l in m.loads && l !in m.abortedLoads && cidOf(record) == m.loads[l].cid && m.record != Some(record)
  }

  /** A one-shot load that was not aborted and lost its place as the current load to a later one, so that no
      stop can reach it. */
  predicate IsDisplaced(m: Model, l: nat)
  {
    l in m.loads && l !in m.abortedLoads && m.loads[l].owner.None? && m.loader != Some(l)
  }

  lemma OnlyDisplacedOutliveStop(cidOf: Record -> Cid, m: Model, l: nat)
    requires IsSound(cidOf, m) && l in m.loads
    ensures l !in Stop(m).abortedLoads <==> IsDisplaced(m, l)
  {
  }

  lemma QuietStep(cidOf: Record -> Cid, m: Model, e: Event)
    requires IsSound(cidOf, m) && IsQuiet(m) && IsSettlement(e)
    requires forall l, record :: !CanDeliver(cidOf, m, l, record)
    ensures var t := Step(cidOf, m, e);
            && IsUnchanged(m, t) && IsQuiet(t)
            && forall l, record :: !CanDeliver(cidOf, t, l, record)
  {
    var t := Step(cidOf, m, e);
    if e.LoadSettles? && e.load in m.loads && e.outcome.Got? {
      assert !CanDeliver(cidOf, m, e.load, e.outcome.record);
    }
    assert IsUnchanged(m, t) && t.abortedLoads == m.abortedLoads;
    forall l, record
      ensures !CanDeliver(cidOf, t, l, record)
    {
      assert !CanDeliver(cidOf, m, l, record);
    }
  }

  lemma {:induction false} QuietRun(cidOf: Record -> Cid, m: Model, es: seq<Event>)
    requires IsSound(cidOf, m) && IsQuiet(m) && forall e :: e in es ==> IsSettlement(e)
    requires forall l, record :: !CanDeliver(cidOf, m, l, record)
    ensures var t := Run(cidOf, m, es);
            && IsSound(cidOf, t) && IsUnchanged(m, t) && IsQuiet(t)
            && forall l, record :: !CanDeliver(cidOf, t, l, record)
  {
    if es != [] {
      var before := es[..|es| - 1];
      QuietRun(cidOf, m, before);
      QuietStep(cidOf, Run(cidOf, m, before), es[|es| - 1]);
      StepIsSound(cidOf, Run(cidOf, m, before), es[|es| - 1]);
    }
  }

  ghost predicate StaysStopped(cidOf: Record -> Cid, m: Model)
  {
    forall es :: (forall e :: e in es ==> IsSettlement(e)) ==> IsUnchanged(Stop(m), Run(cidOf, Stop(m), es))
  }

  ghost predicate StopMissesLoad(cidOf: Record -> Cid, m: Model)
  {
    exists l, record :: IsDisplaced(m, l) && cidOf(record) == m.loads[l].cid && m.record != Some(record)
  }

  lemma MissedLoadDelivers(cidOf: Record -> Cid, m: Model, l: nat, record: Record)
    requires IsSound(cidOf, m)
    requires IsDisplaced(m, l) && cidOf(record) == m.loads[l].cid && m.record != Some(record)
    ensures !StaysStopped(cidOf, m)
  {
    OnlyDisplacedOutliveStop(cidOf, m, l);
    var es := [LoadSettles(l, Got(record))];
    assert es[..0] == [];
    assert Run(cidOf, Stop(m), es) == SettleLoad(Stop(m), l, Got(record));
    assert !IsUnchanged(Stop(m), Run(cidOf, Stop(m), es));
  }

  /** A stop is final until the next call, whatever settles afterwards and in whatever order, if and only if
      it does not miss a load: a displaced one-shot load that may bring a record the list does not hold. */
  lemma StopIsFinalUnlessLoadMissed(cidOf: Record -> Cid, m: Model)
    requires IsSound(cidOf, m)
    ensures StaysStopped(cidOf, m) <==> !StopMissesLoad(cidOf, m)
  {
    if StopMissesLoad(cidOf, m) {
      var l, record :| IsDisplaced(m, l) && cidOf(record) == m.loads[l].cid && m.record != Some(record);
      MissedLoadDelivers(cidOf, m, l, record);
    } else {
      StopIsSound(cidOf, m);
      forall l, record
        ensures !CanDeliver(cidOf, Stop(m), l, record)
      {
        if l in m.loads { OnlyDisplacedOutliveStop(cidOf, m, l); }
      }
      forall es: seq<Event> | forall e :: e in es ==> IsSettlement(e)
        ensures IsUnchanged(Stop(m), Run(cidOf, Stop(m), es))
      {
        QuietRun(cidOf, Stop(m), es);
      }
    }
  }

  // ----- one-shot loads as they are used

  /** A one-shot load starts on a list with nothing under way, and nothing else is started until it settles. */
  predicate IsOrderly(m: Model, e: Event)
  {
    match e
    case LoadCalled => m.runs == map[] && m.loads == map[]
    case PublishCalled => forall l :: l in m.loads ==> m.loads[l].owner.Some?
    case UpdateCalled => forall l :: l in m.loads ==> m.loads[l].owner.Some?
    case _ => true
  }

  ghost predicate IsOrderlyRun(cidOf: Record -> Cid, start: Model, es: seq<Event>)
  {
    forall i :: 0 <= i < |es| ==> IsOrderly(Run(cidOf, start, es[..i]), es[i])
  }

  /** An outstanding one-shot load is all there is, and it is the current load. */
  predicate OneShotIsAlone(m: Model)
  {
    forall l :: l in m.loads && m.loads[l].owner.None? ==>
                  m.runs == map[] && m.loader == Some(l) && forall k :: k in m.loads ==> k == l
  }

  lemma OrderlyStepKeepsAlone(cidOf: Record -> Cid, m: Model, e: Event)
    requires OneShotIsAlone(m) && IsOrderly(m, e)
    ensures OneShotIsAlone(Step(cidOf, m, e))
  {
  }

  lemma {:induction false} OrderlyRunKeepsAlone(cidOf: Record -> Cid, start: Model, es: seq<Event>)
    requires OneShotIsAlone(start) && IsOrderlyRun(cidOf, start, es)
    ensures OneShotIsAlone(Run(cidOf, start, es))
  {
    if es != [] {
      var before := es[..|es| - 1];
      assert forall i :: 0 <= i < |before| ==> es[..i] == before[..i] && es[i] == before[i];
      OrderlyRunKeepsAlone(cidOf, start, before);
      OrderlyStepKeepsAlone(cidOf, Run(cidOf, start, before), es[|es| - 1]);
    }
  }

  /** In every such run every stop is final, wherever it comes. */
  lemma OrderlyStopsAreFinal(cidOf: Record -> Cid, cid: Cid, fromCid: bool, es: seq<Event>)
    requires IsOrderlyRun(cidOf, if fromCid then WithCid(cid) else Unpublished(), es)
    ensures StaysStopped(cidOf, Run(cidOf, if fromCid then WithCid(cid) else Unpublished(), es))
  {
    var start := if fromCid then WithCid(cid) else Unpublished();
    StartsAreSound(cidOf, cid);
    RunIsSound(cidOf, start, es);
    OrderlyRunKeepsAlone(cidOf, start, es);
    StopIsFinalUnlessLoadMissed(cidOf, Run(cidOf, start, es));
  }

  lemma RunOneMore(cidOf: Record -> Cid, m: Model, es: seq<Event>, e: Event)
    ensures Run(cidOf, m, es + [e]) == Step(cidOf, Run(cidOf, m, es), e)
  {
    assert (es + [e])[..|es|] == es;
  }

  /** Otherwise an update can displace a one-shot load, and a stop then aborts the update's load only. */
  lemma StopCanMissLoad(cidOf: Record -> Cid, record: Record)
    ensures var m := Run(cidOf, WithCid(cidOf(record)), [LoadCalled] + [UpdateCalled] + [UpdateTicks(0)]);
            StopMissesLoad(cidOf, m) && Step(cidOf, Stop(m), LoadSettles(0, Got(record))).record == Some(record)
  {
    var start := WithCid(cidOf(record));
    var loading := StartLoad(start, cidOf(record), None);
    var updating := StartRun(loading, Updating, Waiting);
    var m := TickUpdate(updating, 0);
    assert [] + [LoadCalled] == [LoadCalled];
    RunOneMore(cidOf, start, [], LoadCalled);
    RunOneMore(cidOf, start, [LoadCalled], UpdateCalled);
    RunOneMore(cidOf, start, [LoadCalled] + [UpdateCalled], UpdateTicks(0));
    assert IsDisplaced(m, 0) && cidOf(record) == m.loads[0].cid && m.record != Some(record);
  }
}
