/** The CommunityList object: its fields, and its methods as the stretches between their awaits. Every method
    performs its step and keeps run ownership, and any sequence of calls is a run of the model. */
module CommunityListObject {
  import opened Options
  import opened CommunityLists

  // the abort controllers and retry operations of the runs and loads started so far
  datatype Signals = Signals(
    controller: Option<nat>, aborted: set<nat>, next: nat, loader: Option<nat>, abortedLoads: set<nat>, nextLoad: nat)

  class CommunityList {
    const cidOf: Record -> Cid
    var state: ListState
    var isUpdatingMember: bool
    var cid: Option<Cid>
    var communityList: Option<Record>
    var signals: Signals
    var runs: map<nat, RunPhase>
    var loads: map<nat, Load>

    ghost function View(): Model
      reads this
    {
      Model(state, isUpdatingMember, cid, communityList,
            signals.controller, signals.aborted, signals.next, runs,
            signals.loader, signals.abortedLoads, signals.nextLoad, loads)
    }

    /** One live run at most, and it owns the state; loads follow their runs; the record has its cid. */
    ghost predicate Valid()
      reads this
    {
      IsSound(cidOf, View())
    }

    /** What a caller of the list can see. */
    ghost function Visible(): (ListState, bool, Option<Cid>, Option<Record>)
      reads this
    {
      (state, isUpdatingMember, cid, communityList)
    }

    constructor (cidOf: Record -> Cid, cid: Option<Cid>)
      ensures Valid() && this.cidOf == cidOf
      ensures View() == (if cid.Some? then WithCid(cid.value) else Unpublished())
    {
      this.cidOf, this.cid := cidOf, cid;
      state, isUpdatingMember, communityList := Stopped, false, None;
      signals := Signals(None, {}, 0, None, {}, 0);
      runs, loads := map[], map[];
      new;
      StartsAreSound(cidOf, if cid.Some? then cid.value else "");
    }

    /** publish() up to signing; a list that is already publishing or updating refuses. */
    method Publish() returns (started: bool)
      requires Valid()
      modifies this
      ensures Valid() && View() == Step(cidOf, old(View()), PublishCalled)
      ensures started <==> old(state) == Stopped
      ensures started ==> state == Publishing && signals.controller == Some(old(signals).next)
      ensures runs == if started then old(runs)[old(signals).next := Signing] else old(runs)
      ensures cid == old(cid) && communityList == old(communityList)
    {
      StepIsSound(cidOf, View(), PublishCalled);
      if state == Publishing { return false; }
      if state == Updating { return false; }
      state := Publishing;
      runs := runs[signals.next := Signing];
      signals := signals.(controller := Some(signals.next), next := signals.next + 1);
      started := true;
    }

    /** The `finally` of publish. An aborted run leaves the state to whoever owns it now; a live one stops. */
    method ResetIfOwner(run: nat)
      requires Valid() && run in runs && IsPublishPhase(runs[run])
      modifies this`state, this`runs
      ensures Valid() && View() == EndPublish(old(View()), run)
      ensures run !in runs && forall r :: r in old(runs) && r != run ==> r in runs && runs[r] == old(runs)[r]
      ensures state == if run in signals.aborted then old(state) else Stopped
    {
      EndPublishIsSound(cidOf, View(), run);
      if signals.controller == Some(run) { state := Stopped; }
      runs := runs - {run};
    }

    /** Goes on to adding exactly when signed and not aborted; no record changes either way. */
    method AfterSigning(run: nat, ok: bool)
      requires Valid() && IsIn(View(), run, Signing)
      modifies this
      ensures Valid() && View() == Step(cidOf, old(View()), PublishSigned(run, ok))
      ensures run in runs <==> ok && run !in signals.aborted
      ensures runs == if run in runs then old(runs)[run := Adding] else old(runs) - {run}
      ensures run in runs || run in signals.aborted ==> Visible() == old(Visible())
      ensures run !in runs && run !in signals.aborted ==> state == Stopped
      ensures cid == old(cid) && communityList == old(communityList)
    {
      StepIsSound(cidOf, View(), PublishSigned(run, ok));
      if ok && run !in signals.aborted {
        runs := runs[run := Adding];
      } else {
        ResetIfOwner(run);
      }
    }

    /** An aborted run changes nothing a caller can see; a live one stops the list, with the new record and
        the record's own cid when the add succeeded. */
    method AfterAdding(run: nat, outcome: Outcome)
      requires Valid() && IsIn(View(), run, Adding)
      modifies this
      ensures Valid() && View() == Step(cidOf, old(View()), PublishAdded(run, outcome))
      ensures runs == old(runs) - {run}
      ensures run in signals.aborted ==> Visible() == old(Visible())
      ensures run !in signals.aborted ==>
                && state == Stopped
                && (outcome.Got? ==> communityList == Some(outcome.record) && cid == Some(cidOf(outcome.record)))
                && (outcome.Failed? ==> communityList == old(communityList) && cid == old(cid))
    {
      StepIsSound(cidOf, View(), PublishAdded(run, outcome));
      if outcome.Got? && run !in signals.aborted {
        communityList, cid := Some(outcome.record), Some(cidOf(outcome.record));
      }
      ResetIfOwner(run);
    }

    method Update() returns (started: bool)
      requires Valid()
      modifies this
      ensures Valid() && View() == Step(cidOf, old(View()), UpdateCalled)
      ensures started <==> old(state) == Stopped && old(cid).Some?
      ensures started ==> state == Updating && isUpdatingMember && signals.controller == Some(old(signals).next)
      ensures runs == if started then old(runs)[old(signals).next := Waiting] else old(runs)
      ensures cid == old(cid) && communityList == old(communityList)
    {
      StepIsSound(cidOf, View(), UpdateCalled);
      if state == Updating || state == Publishing || cid.None? { return false; }
      state := Updating;
      runs := runs[signals.next := Waiting];
      signals := signals.(controller := Some(signals.next), next := signals.next + 1);
      isUpdatingMember := true;
      started := true;
    }

    /** `_runUpdateLoop` after its first macrotask: an aborted run ends, a live one waits for a load of the
        cid the list has now, or has nothing to load. */
    method RunUpdateLoop(run: nat)
      requires Valid() && IsIn(View(), run, Waiting)
      modifies this
      ensures Valid() && View() == Step(cidOf, old(View()), UpdateTicks(run))
      ensures Visible() == old(Visible())
      ensures run in signals.aborted <==> run !in runs
      ensures run in runs ==> runs[run] == if communityList.None? && cid.Some? then Loading else Finishing
      ensures run in runs && runs[run].Loading? ==>
                && signals.loader.Some? && signals.loader.value in loads && signals.loader.value !in old(loads)
                && loads[signals.loader.value] == Load(cid.value, Some(run))
    {
      StepIsSound(cidOf, View(), UpdateTicks(run));
      if run in signals.aborted {
        runs := runs - {run};
        return;
      }
      if communityList.Some? || cid.None? {
        runs := runs[run := Finishing];
      } else {
        loads := loads[signals.nextLoad := Load(cid.value, Some(run))];
        signals := signals.(loader := Some(signals.nextLoad), nextLoad := signals.nextLoad + 1);
        runs := runs[run := Loading];
      }
    }

    /** A one-shot load starts exactly when there is a cid and no record yet, and becomes the current load. */
    method LoadOnce() returns (started: bool)
      requires Valid()
      modifies this`signals, this`loads
      ensures Valid() && View() == Step(cidOf, old(View()), LoadCalled)
      ensures started <==> communityList.None? && cid.Some?
      ensures started ==> loads == old(loads)[old(signals).nextLoad := Load(cid.value, None)]
      ensures started ==> signals.loader == Some(old(signals).nextLoad)
      ensures !started ==> View() == old(View())
    {
      StepIsSound(cidOf, View(), LoadCalled);
      started := communityList.None? && cid.Some?;
      if started {
        loads := loads[signals.nextLoad := Load(cid.value, None)];
        signals := signals.(loader := Some(signals.nextLoad), nextLoad := signals.nextLoad + 1);
      }
    }

    method TakeLoad(load: nat, outcome: Outcome)
      requires load in loads
      modifies this
      ensures View() == SettleLoad(old(View()), load, outcome)
    {
      var l := loads[load];
      if outcome.Got? && load !in signals.abortedLoads {
        communityList, cid := Some(outcome.record), Some(l.cid);
      }
      if signals.loader == Some(load) { signals := signals.(loader := None); }
      loads := loads - {load};
      if l.owner.Some? && l.owner.value in runs { runs := runs[l.owner.value := Finishing]; }
    }

    /** An aborted or failed load changes nothing a caller can see; any other brings its record and the cid
        it was asked for. The load is gone, and its owner goes on to finish. */
    method AfterLoad(load: nat, outcome: Outcome)
      requires Valid() && load in loads && (outcome.Got? ==> cidOf(outcome.record) == loads[load].cid)
      modifies this
      ensures Valid() && View() == Step(cidOf, old(View()), LoadSettles(load, outcome))
      ensures state == old(state) && isUpdatingMember == old(isUpdatingMember) && loads == old(loads) - {load}
      ensures signals == if old(signals).loader == Some(load) then old(signals).(loader := None) else old(signals)
      ensures load in signals.abortedLoads || outcome.Failed? ==> Visible() == old(Visible())
      ensures load !in signals.abortedLoads && outcome.Got? ==>
                communityList == Some(outcome.record) && cid == Some(cidOf(outcome.record))
      ensures old(loads)[load].owner.Some? ==> IsIn(View(), old(loads)[load].owner.value, Finishing)
    {
      SettleLoadIsSound(cidOf, View(), load, outcome);
      TakeLoad(load, outcome);
    }

    /** The end of `_runUpdateLoop`, reached with a verdict or with an error: an aborted run just ends, a live
        one stops the list. */
    method FinishUpdateLoop(run: nat)
      requires Valid() && IsIn(View(), run, Finishing)
      modifies this
      ensures Valid() && View() == Step(cidOf, old(View()), UpdateFinishes(run))
      ensures runs == old(runs) - {run}
      ensures run in old(signals).aborted ==> Visible() == old(Visible()) && signals == old(signals)
      ensures run !in old(signals).aborted ==>
                state == Stopped && !isUpdatingMember && forall r :: r in runs ==> r in signals.aborted
    {
      StepIsSound(cidOf, View(), UpdateFinishes(run));
      if run !in signals.aborted { StopRuns(); }
      runs := runs - {run};
    }

    /** `stop()`: afterwards no run is live, and no load is except a displaced one-shot load. */
    method StopRuns()
      requires Valid()
      modifies this`isUpdatingMember, this`signals, this`state
      ensures Valid() && View() == Stop(old(View()))
      ensures state == Stopped && !isUpdatingMember && forall r :: r in runs ==> r in signals.aborted
      ensures forall l :: l in loads ==> (l !in signals.abortedLoads <==> IsDisplaced(old(View()), l))
    {
      StopIsSound(cidOf, View());
      forall l | l in loads
        ensures l !in Stop(View()).abortedLoads <==> IsDisplaced(View(), l)
      {
        OnlyDisplacedOutliveStop(cidOf, View(), l);
      }
      isUpdatingMember := false;
      var listening := set l | l in loads && signals.controller.Some? && loads[l].owner == signals.controller;
      var current := if signals.controller.Some? then {signals.controller.value} else {};
      var loading := if signals.loader.Some? then {signals.loader.value} else {};
      var abortedLoads := signals.abortedLoads + listening + loading;
      signals := signals.(aborted := signals.aborted + current, abortedLoads := abortedLoads);
      if state == Stopped { return; }
      state := Stopped;
    }

    /** One event, handled by the method it belongs to when that can run. */
    method Handle(e: Event)
      requires Valid()
      modifies this
      ensures Valid() && View() == Step(cidOf, old(View()), e)
    {
      match e {
        case PublishCalled => var _ := Publish();
        case PublishSigned(run, ok) => if run in runs && runs[run].Signing? { AfterSigning(run, ok); }
        case PublishAdded(run, outcome) => if run in runs && runs[run].Adding? { AfterAdding(run, outcome); }
        case UpdateCalled => var _ := Update();
        case UpdateTicks(run) => if run in runs && runs[run].Waiting? { RunUpdateLoop(run); }
        case LoadCalled => var _ := LoadOnce();
        case LoadSettles(load, outcome) =>
          if load in loads && (outcome.Got? ==> cidOf(outcome.record) == loads[load].cid) { AfterLoad(load, outcome); }
        case UpdateFinishes(run) => if run in runs && runs[run].Finishing? { FinishUpdateLoop(run); }
        case StopCalled => StopRuns();
      }
    }
  }

  /** Whatever is called and settles, in whatever order, the object goes through the run of the model with
      those events, so every theorem about runs is a theorem about it. */
  method Drive(list: CommunityList, es: seq<Event>)
    requires list.Valid()
    modifies list
    ensures list.Valid() && list.View() == Run(list.cidOf, old(list.View()), es)
  {
    for i := 0 to |es|
      invariant list.Valid() && list.View() == Run(list.cidOf, old(list.View()), es[..i])
    {
      assert es[..i + 1][..i] == es[..i];
      list.Handle(es[i]);
    }
    assert es[..|es|] == es;
  }

  /** After a stop that misses no load, nothing that settles later changes what a caller can see. */
  method StopThenSettle(list: CommunityList, es: seq<Event>)
    requires list.Valid() && !StopMissesLoad(list.cidOf, list.View()) && forall e :: e in es ==> IsSettlement(e)
    modifies list
    ensures list.Valid() && list.Visible() == (Stopped, false, old(list.cid), old(list.communityList))
  {
    StopIsFinalUnlessLoadMissed(list.cidOf, list.View());
    list.StopRuns();
    Drive(list, es);
  }
}
