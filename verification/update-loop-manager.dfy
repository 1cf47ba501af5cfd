/** The update loop's state where the program keeps it: fields changed in place by the methods that run
    between two awaits. Every method performs its step of the loop and keeps everything proved about it,
    and any sequence of calls is a run of the loop. */
module CommunityClients {
  import opened Names
  import opened IpnsChain
  import opened Options
  import opened UpdateLoop

  class CommunityClientsManager {
    var community: Community
    var updating: bool
    var stopping: bool
    var signals: Signals
    var phase: Phase
    var updateCidsAlreadyLoaded: set<Cid>
    var pendingIpnsArrivalCids: set<Cid>
    var pendingIpnsArrivalHopTargets: set<Key>
    var nextResolveRevalidatesNetwork: bool
    // how many migrations there were; copied into a fetch but never acted on
    var epoch: nat
    ghost var counts: Counts
    ghost var applied: seq<Applied>
    ghost var answer: Option<Answer>

    ghost function View(): State
      reads this
    {
      State(updating, stopping, nextResolveRevalidatesNetwork, phase, community, signals, updateCidsAlreadyLoaded,
            Pending(pendingIpnsArrivalCids, pendingIpnsArrivalHopTargets), counts, epoch, applied, answer)
    }

    /** No lost wakeup, earned cycles, safe epochs, a current verdict. */
    ghost predicate Valid()
      reads this
    {
      IsValid(View())
    }

    constructor (community: Community, loaded: set<Cid>, ghost answer: Option<Answer>)
      requires VerdictIsCurrent(Start(community, loaded, answer))
      ensures Valid() && View() == Start(community, loaded, answer)
      ensures updating && !stopping && this.community == community && updateCidsAlreadyLoaded == loaded
      ensures phase == Fetching(community.publicKey, signals.controller, epoch)
      ensures signals.controller.Some? && !IsAborted(signals, signals.controller)
      ensures pendingIpnsArrivalCids == {} && pendingIpnsArrivalHopTargets == {} && !nextResolveRevalidatesNetwork
    {
      this.community := community;
      updating, stopping := true, false;
      signals := Signals(Some(0), {}, 1);
      phase := Fetching(community.publicKey, Some(0), 0);
      updateCidsAlreadyLoaded := loaded;
      pendingIpnsArrivalCids, pendingIpnsArrivalHopTargets := {}, {};
      nextResolveRevalidatesNetwork := false;
      counts, epoch, applied := Counts(1, 0, 0, 0, 0), 0, [];
      this.answer := answer;
    }

    method RecordNews(value: string)
      modifies this
      ensures View() == OnArrival(old(View()), NewsOf(value))
    {
      if IsIpfsPath(value) {
        var cid := Segment(value);
        if cid in updateCidsAlreadyLoaded || community.updateCid == Some(cid) { return; }
        pendingIpnsArrivalCids := pendingIpnsArrivalCids + {cid};
      } else if IsIpnsPath(value) {
        var hopTarget := Split(value)[2];
        if hopTarget in community.hops { return; }
        pendingIpnsArrivalHopTargets := pendingIpnsArrivalHopTargets + {hopTarget};
      } else {
        return;
      }
      counts := counts.(accepted := counts.accepted + 1);
      if phase.Parked? {
        phase := Parked(phase.signal, if phase.settled.None? then Some(ArrivalEnded) else phase.settled, true);
      }
    }

    /** An arrival with news is recorded and ends the park it finds; once the loop has left, nothing listens. */
    method OnIpnsRecordArrival(value: string)
      requires Valid()
      modifies this
      ensures Valid() && View() == Step(old(View()), Arrives(value))
      ensures if old(phase).Exited? then View() == old(View()) else IsHeard(old(View()), NewsOf(value), View())
    {
      StepIsValid(View(), Arrives(value));
      if phase.Exited? { return; }
      ArrivalIsHeard(View(), value);
      RecordNews(value);
    }

    method DropConsumedCids()
      modifies this`pendingIpnsArrivalCids
      ensures pendingIpnsArrivalCids == LeftOver(old(View())).cids
    {
      var cids := pendingIpnsArrivalCids;
      while cids != {}
        invariant cids <= pendingIpnsArrivalCids <= old(pendingIpnsArrivalCids)
        invariant forall cid :: cid in old(pendingIpnsArrivalCids) - cids ==>
                                  (cid in pendingIpnsArrivalCids <==>
                                   cid !in updateCidsAlreadyLoaded && community.updateCid != Some(cid))
        decreases cids
      {
        var cid :| cid in cids;
        cids := cids - {cid};
        if cid in updateCidsAlreadyLoaded || community.updateCid == Some(cid) {
          pendingIpnsArrivalCids := pendingIpnsArrivalCids - {cid};
        }
      }
    }

    method DropWalkedHops()
      modifies this`pendingIpnsArrivalHopTargets
      ensures pendingIpnsArrivalHopTargets == LeftOver(old(View())).hops
    {
      var hops := pendingIpnsArrivalHopTargets;
      while hops != {}
        invariant hops <= pendingIpnsArrivalHopTargets <= old(pendingIpnsArrivalHopTargets)
        invariant forall hop :: hop in old(pendingIpnsArrivalHopTargets) - hops ==>
                                  (hop in pendingIpnsArrivalHopTargets <==> hop !in community.hops)
        decreases hops
      {
        var hop :| hop in hops;
        hops := hops - {hop};
        if hop in community.hops {
          pendingIpnsArrivalHopTargets := pendingIpnsArrivalHopTargets - {hop};
        }
      }
    }

    /** Drops what the finished cycle consumed; anything left over is the reason for an immediate re-run. */
    method ConsumePendingIpnsArrivals() returns (news: bool)
      modifies this`pendingIpnsArrivalCids, this`pendingIpnsArrivalHopTargets
      ensures news <==> LeftOver(old(View())) != NOTHING_PENDING
      ensures pendingIpnsArrivalCids == {} && pendingIpnsArrivalHopTargets == {}
    {
      DropConsumedCids();
      DropWalkedHops();
      assert Pending(pendingIpnsArrivalCids, pendingIpnsArrivalHopTargets) == LeftOver(old(View()));
      if pendingIpnsArrivalCids == {} && pendingIpnsArrivalHopTargets == {} { return false; }
      pendingIpnsArrivalCids := {};
      pendingIpnsArrivalHopTargets := {};
      return true;
    }

    method ConsumeAndPark()
      requires phase.BeforePark?
      modifies this
      ensures View() == BeginPark(old(View()))
    {
      var news := ConsumePendingIpnsArrivals();
      if news {
        nextResolveRevalidatesNetwork := false;
        phase := LoopTop(ArrivalEnded);
        return;
      }
      if IsAborted(signals, signals.controller) {
        phase := Parked(signals.controller, Some(AbortEnded), false);
        counts := counts.(abortEnds := counts.abortEnds + 1);
      } else {
        phase := Parked(signals.controller, None, false);
      }
    }

    /** `_sleepUntilIpnsArrivalOrTimeoutOrAbort` up to its await. It re-runs at once exactly when the finished
        cycle left some arrival unaccounted for. */
    method BeginSleep()
      requires Valid() && phase.BeforePark?
      modifies this
      ensures Valid() && View() == Step(old(View()), ParkBegins)
      ensures IsParkedOrRerun(old(View()), View())
    {
      StepIsValid(View(), ParkBegins);
      ParksOrReruns(View());
      ConsumeAndPark();
    }

    /** The rest of it, once the sleep has ended. Nothing is left pending whatever ended it, and only a sleep
        that no arrival ended makes the next resolve go to the network. */
    method EndSleep(floorPassed: bool)
      requires Valid() && phase.Parked? && phase.settled.Some?
      modifies this
      ensures Valid() && View() == Step(old(View()), ParkResumes(floorPassed))
      ensures phase == LoopTop(if old(phase).woken then ArrivalEnded else old(phase).settled.value)
      ensures pendingIpnsArrivalCids == {} && pendingIpnsArrivalHopTargets == {}
      ensures nextResolveRevalidatesNetwork <==> floorPassed && !old(phase).woken
      ensures community == old(community) && signals == old(signals)
    {
      StepIsValid(View(), ParkResumes(floorPassed));
      var wokenByArrival := phase.woken;
      if wokenByArrival {
        pendingIpnsArrivalCids := {};
        pendingIpnsArrivalHopTargets := {};
      }
      nextResolveRevalidatesNetwork := !wokenByArrival && floorPassed;
      phase := LoopTop(if wokenByArrival then ArrivalEnded else phase.settled.value);
    }

    method FetchOrLeave()
      requires phase.LoopTop?
      modifies this
      ensures View() == TestLoop(old(View()))
    {
      if updating && !IsAborted(signals, signals.controller) {
        var arrivalRuns := counts.arrivalRuns + if phase.cause.ArrivalEnded? then 1 else 0;
        counts := counts.(cycles := counts.cycles + 1, arrivalRuns := arrivalRuns);
        phase := Fetching(community.publicKey, signals.controller, epoch);
      } else {
        pendingIpnsArrivalCids := {};
        pendingIpnsArrivalHopTargets := {};
        nextResolveRevalidatesNetwork := false;
        signals := signals.(controller := None);
        phase := Exited;
      }
    }

    /** The loop condition, and what follows either way: a fetch exactly while the community is updating and
        its signal stands, holding the key and the signal that are current; or a loop that left nothing behind. */
    method TestLoopCondition()
      requires Valid() && phase.LoopTop?
      modifies this
      ensures Valid() && View() == Step(old(View()), LoopTests)
      ensures phase.Fetching? <==> old(updating) && !IsAborted(old(signals), old(signals).controller)
      ensures phase.Fetching? ==>
                && phase.key == community.publicKey && phase.epoch == epoch
                && phase.signal == signals.controller && phase.signal.Some? && !IsAborted(signals, phase.signal)
      ensures !phase.Fetching? ==>
                && phase.Exited? && signals.controller == None && !nextResolveRevalidatesNetwork
                && pendingIpnsArrivalCids == {} && pendingIpnsArrivalHopTargets == {}
      ensures community == old(community)
    {
      StepIsValid(View(), LoopTests);
      FetchOrLeave();
    }

    /** The safety-net timer ends a sleep that nothing has ended, and only such a one. */
    method OnSleepTimer()
      requires Valid()
      modifies this`phase, this`counts
      ensures Valid() && View() == Step(old(View()), TimerFires)
      ensures phase.Parked? ==> phase.settled.Some?
      ensures phase != old(phase) ==>
                && old(phase).Parked? && phase == old(phase).(settled := Some(TimerEnded))
                && pendingIpnsArrivalCids == {} && pendingIpnsArrivalHopTargets == {}
    {
      StepIsValid(View(), TimerFires);
      if phase.Parked? && phase.settled.None? {
        phase := phase.(settled := Some(TimerEnded));
        counts := counts.(timerEnds := counts.timerEnds + 1);
      }
    }

    /** What a fetch in flight writes before it ends: the cids it loaded and the hops it walked. */
    method RecordFetchProgress(loaded: set<Cid>, hops: seq<Key>)
      requires Valid()
      modifies this`updateCidsAlreadyLoaded, this`community, this`nextResolveRevalidatesNetwork
      ensures Valid() && View() == Step(old(View()), FetchWrites(loaded, hops))
      ensures phase.Fetching? ==>
                && community == old(community).(hops := hops) && updateCidsAlreadyLoaded == loaded
                && !nextResolveRevalidatesNetwork
      ensures !phase.Fetching? ==> View() == old(View())
    {
      StepIsValid(View(), FetchWrites(loaded, hops));
      if phase.Fetching? {
        updateCidsAlreadyLoaded := loaded;
        community := community.(hops := hops);
        nextResolveRevalidatesNetwork := false;
      }
    }

    /** Takes over a record, its identity and its name. A verdict is kept exactly if it still describes them. */
    method InitCommunityIpfsProps(record: Record, cid: Cid)
      modifies this`community
      ensures community == ApplyRecord(old(community), record, cid)
      ensures community.record == Some(record) && community.updateCid == Some(cid) && community.name == record.name
      ensures community.address == old(community).address && community.hops == old(community).hops
      ensures community.publicKey
              == if record.anchor.Some? && record.anchor.value != "" then record.anchor
                 else if |community.hops| > 0 && community.hops[0] != "" then Some(community.hops[0])
                 else Some(record.signer)
      ensures community.nameResolved
              == if && (old(community).publicKey.Some? ==> community.publicKey == old(community).publicKey)
                    && (old(community).name.Some? ==>
                          record.name.Some? && AreEquivalentNames(record.name.value, old(community).name.value))
                 then old(community).nameResolved else None
    {
      var keyBeforeApply, nameBeforeApply := community.publicKey, community.name;
      community := community.(record := Some(record), updateCid := Some(cid));
      if record.anchor.Some? && record.anchor.value != "" {
        community := community.(publicKey := record.anchor);
      } else if community.hops != [] && community.hops[0] != "" {
        community := community.(publicKey := Some(community.hops[0]));
      } else {
        community := community.(publicKey := Some(record.signer));
      }
      community := community.(name := record.name);
      if nameBeforeApply.Some? && (record.name.None? || !AreEquivalentNames(record.name.value, nameBeforeApply.value)) {
        community := community.(nameResolved := None);
      }
      if keyBeforeApply.Some? && community.publicKey != keyBeforeApply {
        community := community.(nameResolved := None);
      }
    }

    method EndFetching(outcome: Outcome)
      requires phase.Fetching?
      modifies this`phase, this`applied, this`community
      ensures View() == EndFetch(old(View()), outcome)
    {
      var isStale := IsAborted(signals, phase.signal) || community.publicKey != phase.key;
      if !isStale && outcome.Found? && UpdatedAt(community.record) < outcome.record.updatedAt {
        applied := applied + [EntryOf(View(), outcome.record.updatedAt)];
        InitCommunityIpfsProps(outcome.record, outcome.cid);
      }
      phase := BeforePark;
    }

    /** `updateOnce` after its fetch: the staleness check, then the freshness check, then the record. */
    method FinishUpdateOnce(outcome: Outcome)
      requires Valid() && phase.Fetching?
      modifies this`phase, this`applied, this`community
      ensures Valid() && View() == Step(old(View()), FetchEnds(outcome))
      ensures IsFinished(old(View()), outcome, View())
    {
      StepIsValid(View(), FetchEnds(outcome));
      FetchEndsFinished(View(), outcome);
      EndFetching(outcome);
    }

    /** Whatever controller there was is aborted now, and a sleep that was listening to it has ended. */
    method AbortStopOperations()
      modifies this`signals, this`phase, this`counts
      ensures View() == Abort(old(View()))
      ensures signals.controller == old(signals).controller && old(signals).aborted <= signals.aborted
      ensures signals.controller.Some? ==> IsAborted(signals, signals.controller)
      ensures signals != old(signals) && phase.Parked? && phase.signal == signals.controller ==> phase.settled.Some?
    {
      if signals.controller.None? || signals.controller.value in signals.aborted { return; }
      if phase.Parked? && phase.settled.None? && phase.signal == signals.controller {
        phase := phase.(settled := Some(AbortEnded));
        counts := counts.(abortEnds := counts.abortEnds + 1);
      }
      signals := signals.(aborted := signals.aborted + {signals.controller.value});
    }

    /** Afterwards there is a controller whose signal stands; a standing one is kept, and no aborted signal
        ever comes back. */
    method CreateStopAbortController()
      requires SignalsAreFresh(signals)
      modifies this`signals
      ensures SignalsAreFresh(signals) && signals.aborted == old(signals).aborted
      ensures signals.controller.Some? && !IsAborted(signals, signals.controller)
      ensures old(signals).controller.Some? && !IsAborted(old(signals), old(signals).controller) ==>
                signals == old(signals)
      ensures signals == CreateController(old(signals))
    {
      CreatedControllerStands(signals);
      if signals.controller.None? || signals.controller.value in signals.aborted {
        signals := signals.(controller := Some(signals.next), next := signals.next + 1);
      }
    }

    /** Clears what the old key left behind. */
    method ForgetOldKey(newPublicKey: Key)
      modifies this`community, this`updateCidsAlreadyLoaded, this`pendingIpnsArrivalCids,
               this`pendingIpnsArrivalHopTargets, this`epoch
      ensures community == ClearForMigration(old(community), newPublicKey) && epoch == old(epoch) + 1
      ensures updateCidsAlreadyLoaded == {} && pendingIpnsArrivalCids == {} && pendingIpnsArrivalHopTargets == {}
    {
      community := community.(record := None, updateCid := None);
      community := community.(publicKey := Some(newPublicKey), hops := [newPublicKey]);
      updateCidsAlreadyLoaded := {};
      community := community.(nameResolved := Some(true));
      pendingIpnsArrivalCids, pendingIpnsArrivalHopTargets := {}, {};
      epoch := epoch + 1;
    }

    /** Aborts the signal in use and sets up another. */
    method ReplaceController()
      requires SignalsAreFresh(signals)
      modifies this`signals, this`phase, this`counts
      ensures View() == Abort(old(View())).(signals := CreateController(AbortController(old(signals))))
      ensures signals.aborted == AbortController(old(signals)).aborted
      ensures signals.controller.Some? && !IsAborted(signals, signals.controller)
    {
      AbortStopOperations();
      CreateStopAbortController();
    }

    method MoveToKey(asked: string, newPublicKey: Key)
      requires SignalsAreFresh(signals)
      modifies this
      ensures View() == Migrate(old(View()), asked, newPublicKey)
      ensures signals.aborted == AbortController(old(signals)).aborted
      ensures signals.controller.Some? && !IsAborted(signals, signals.controller)
    {
      ForgetOldKey(newPublicKey);
      ReplaceController();
      answer := Some(Answer(asked, newPublicKey));
    }

    /** For a name that identifies the community: nothing of the old key is left, no operation started under
        it can apply anything, and the loop has a signal to go on with. */
    method ApplyKeyMigration(asked: string, newPublicKey: Key)
      requires Valid() && Migrates(community, asked, Some(newPublicKey))
      modifies this
      ensures Valid() && View() == Migrate(old(View()), asked, newPublicKey)
      ensures community.publicKey == Some(newPublicKey) && community.hops == [newPublicKey]
      ensures community.record == None && community.updateCid == None && community.nameResolved == Some(true)
      ensures community.name == old(community).name && community.address == old(community).address
      ensures old(signals).controller.Some? ==> IsAborted(signals, old(signals).controller)
      ensures signals.controller.Some? && !IsAborted(signals, signals.controller)
      ensures updateCidsAlreadyLoaded == {} && pendingIpnsArrivalCids == {} && pendingIpnsArrivalHopTargets == {}
    {
      MigrationIsValid(View(), asked, newPublicKey);
      MoveToKey(asked, newPublicKey);
    }

    method TakeNameAnswer(asked: string, resolved: Option<Key>)
      requires Valid()
      modifies this
      ensures View() == AnswerName(old(View()), asked, resolved)
    {
      var identifyingName := if IsStringDomain(community.address) then Some(community.address) else community.name;
      if identifyingName.None? || !AreEquivalentNames(identifyingName.value, asked) { return; }
      if resolved.Some? && resolved.value != "" {
        if resolved == community.publicKey {
          community := community.(nameResolved := Some(true));
          answer := Some(Answer(asked, resolved.value));
        } else if && community.record.Some?
                  && (resolved.value in community.hops || resolved.value == community.record.value.signer) {
          community := community.(nameResolved := Some(false));
        } else {
          ApplyKeyMigration(asked, resolved.value);
        }
      } else if community.name.Some? {
        community := community.(nameResolved := Some(false));
      }
    }

    /** What `_resolveNameInBackground` does with an answer. With a record loaded, only a key from outside the
        community's own chain moves it. */
    method OnNameAnswer(asked: string, resolved: Option<Key>)
      requires Valid()
      modifies this
      ensures Valid() && View() == Step(old(View()), NameAnswers(asked, resolved))
      ensures IsAnswered(old(View()), asked, resolved, View())
    {
      ghost var before := View();
      TakeNameAnswer(asked, resolved);
      assert View() == Step(before, NameAnswers(asked, resolved));
      assert Valid() by { StepIsValid(before, NameAnswers(asked, resolved)); }
      assert IsAnswered(before, asked, resolved, View()) by { OnlyForeignKeysMigrate(before, asked, resolved); }
    }

    /** `stop()` up to its await. */
    method StopUpdating()
      requires Valid()
      modifies this
      ensures Valid() && View() == Step(old(View()), StopBegins)
      ensures old(updating) ==>
                && stopping && !nextResolveRevalidatesNetwork && updateCidsAlreadyLoaded == {}
                && pendingIpnsArrivalCids == {} && pendingIpnsArrivalHopTargets == {}
                && (signals.controller.Some? ==> IsAborted(signals, signals.controller))
                && (signals.controller.Some? && phase.Parked? ==> phase.settled.Some?)
      ensures !old(updating) ==> View() == old(View())
    {
      StepIsValid(View(), StopBegins);
      if !updating { return; }
      AbortStopOperations();
      stopping := true;
      updateCidsAlreadyLoaded := {};
      pendingIpnsArrivalCids, pendingIpnsArrivalHopTargets := {}, {};
      nextResolveRevalidatesNetwork := false;
    }

    /** The rest of it; the next test of the loop condition leaves the loop. */
    method FinishStop()
      requires Valid()
      modifies this`updating, this`stopping
      ensures Valid() && View() == Step(old(View()), StopEnds)
      ensures !stopping && updating == (old(updating) && !old(stopping))
    {
      StepIsValid(View(), StopEnds);
      if stopping { updating, stopping := false, false; }
    }

    /** One event, handled by the method it belongs to when that can run. */
    method Handle(e: Event)
      requires Valid()
      modifies this
      ensures Valid() && View() == Step(old(View()), e)
    {
      match e {
        case Arrives(value) => OnIpnsRecordArrival(value);
        case FetchWrites(loaded, hops) => RecordFetchProgress(loaded, hops);
        case FetchEnds(outcome) => if phase.Fetching? { FinishUpdateOnce(outcome); }
        case ParkBegins => if phase.BeforePark? { BeginSleep(); }
        case TimerFires => OnSleepTimer();
        case ParkResumes(floorPassed) => if phase.Parked? && phase.settled.Some? { EndSleep(floorPassed); }
        case LoopTests => if phase.LoopTop? { TestLoopCondition(); }
        case NameAnswers(asked, resolved) => OnNameAnswer(asked, resolved);
        case StopBegins => StopUpdating();
        case StopEnds => FinishStop();
      }
    }
  }

  /** Whatever events reach the object, in whatever order, it goes through the run of the loop with those
      events, so every theorem about runs is a theorem about it. */
  method Drive(manager: CommunityClientsManager, es: seq<Event>)
    requires manager.Valid()
    modifies manager
    ensures manager.Valid() && manager.View() == Run(old(manager.View()), es)
  {
    for i := 0 to |es|
      invariant manager.Valid() && manager.View() == Run(old(manager.View()), es[..i])
    {
      assert es[..i + 1][..i] == es[..i];
      manager.Handle(es[i]);
    }
    assert es[..|es|] == es;
  }
}
