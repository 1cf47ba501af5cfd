/** The push-driven update loop of one community, as the stretches of code between its awaits:
    pushed arrivals, parking and waking, a fetch in flight, key migration and stop. */
module UpdateLoop {
  import opened Names
  import opened IpnsChain
  import opened Options

  type Cid = string
  type Key = string
  type Signal = nat

  datatype Record = Record(updatedAt: nat, signer: Key, anchor: Option<Key>, name: Option<string>)

  datatype Community = Community(
    address: string, name: Option<string>, nameResolved: Option<bool>,
    publicKey: Option<Key>, hops: seq<Key>, updateCid: Option<Cid>, record: Option<Record>)

  // the stop controller in use and every signal aborted so far
  datatype Signals = Signals(controller: Option<Signal>, aborted: set<Signal>, next: Signal)

  datatype Pending = Pending(cids: set<Cid>, hops: set<Key>)

  // why a park ended
  datatype Cause = TimerEnded | AbortEnded | ArrivalEnded

  datatype Phase =
    | Fetching(key: Option<Key>, signal: Option<Signal>, epoch: nat)        // inside updateOnce
    | BeforePark                                                            // updateOnce returned
    | Parked(signal: Option<Signal>, settled: Option<Cause>, woken: bool)   // awaiting the sleep
    | LoopTop(cause: Cause)                                                 // about to test the loop condition
    | Exited

  datatype Outcome = NothingNew | FetchAborted | CriticalError | Threw | Found(record: Record, cid: Cid)

  /** One applied record: what it was fetched under, and what was current when it was applied. */
  datatype Applied = Applied(
    keyAtStart: Option<Key>, signalAtStart: Option<Signal>, epochAtStart: nat,
    keyAtApply: Option<Key>, signalAtApply: Option<Signal>, epochAtApply: nat, aborted: bool,
    updatedAt: nat)

  // What happened so far; never read by the loop itself.
  datatype Counts = Counts(cycles: nat, timerEnds: nat, abortEnds: nat, arrivalRuns: nat, accepted: nat)

  datatype Answer = Answer(asked: string, key: Key)

  // `epoch` counts the key migrations; `answer` is the last name answer that confirmed or moved the key.
  datatype State = State(
    updating: bool, stopping: bool, revalidates: bool, phase: Phase,
    community: Community, signals: Signals, loaded: set<Cid>, pending: Pending,
    counts: Counts, epoch: nat, applied: seq<Applied>, answer: Option<Answer>)

  datatype Event =
    | Arrives(value: string)
    | FetchWrites(loaded: set<Cid>, hops: seq<Key>)
    | FetchEnds(outcome: Outcome)
    | ParkBegins
    | TimerFires
    | ParkResumes(floorPassed: bool)
    | LoopTests
    | NameAnswers(asked: string, resolved: Option<Key>)
    | StopBegins
    | StopEnds

  // ----- the steps

  const NOTHING_PENDING: Pending := Pending({}, {})

  /** `startUpdatingLoop` up to its first fetch, on an instance in any condition; `answer` is the name answer
      that earlier loops of the instance left behind. */
  function Start(community: Community, loaded: set<Cid>, answer: Option<Answer>): State
  {
    State(true, false, false, Fetching(community.publicKey, Some(0), 0), community, Signals(Some(0), {}, 1),
          loaded, NOTHING_PENDING, Counts(1, 0, 0, 0, 0), 0, [], answer)
  }

  datatype News = CidNews(cid: Cid) | HopNews(target: Key) | NoNews

  function NewsOf(value: string): News
  {
    if IsIpfsPath(value) then CidNews(Segment(value))
    else if IsIpnsPath(value) then HopNews(Split(value)[2])
    else NoNews
  }

  predicate IsConsumedCid(s: State, cid: Cid) { cid in s.loaded || s.community.updateCid == Some(cid) }

  /** The filter on a pushed record: only news is recorded, and recorded news wakes a parked loop. */
  function OnArrival(s: State, news: News): State
  {
    match news
    case CidNews(cid) =>
      if IsConsumedCid(s, cid) then s else Wake(s.(pending := s.pending.(cids := s.pending.cids + {cid})))
    case HopNews(target) =>
      if target in s.community.hops then s else Wake(s.(pending := s.pending.(hops := s.pending.hops + {target})))
    case NoNews => s
  }

  function Wake(s: State): State
  {
    s.(counts := s.counts.(accepted := s.counts.accepted + 1),
       phase := match s.phase
                case Parked(signal, settled, _) =>
                  Parked(signal, if settled.None? then Some(ArrivalEnded) else settled, true)
                case other => other)
  }

  /** Pending arrivals the finished cycle did not account for. */
  function LeftOver(s: State): Pending
  {
    Pending(set cid | cid in s.pending.cids && !IsConsumedCid(s, cid),
            set hop | hop in s.pending.hops && hop !in s.community.hops)
  }

  predicate IsAborted(signals: Signals, signal: Option<Signal>) { signal.Some? && signal.value in signals.aborted }

  function BeginPark(s: State): State
    requires s.phase.BeforePark?
  {
    var signal := s.signals.controller;
    if LeftOver(s) != NOTHING_PENDING then
      s.(pending := NOTHING_PENDING, phase := LoopTop(ArrivalEnded), revalidates := false)
    else if IsAborted(s.signals, signal) then
      s.(pending := NOTHING_PENDING, phase := Parked(signal, Some(AbortEnded), false),
         counts := s.counts.(abortEnds := s.counts.abortEnds + 1))
    else s.(pending := NOTHING_PENDING, phase := Parked(signal, None, false))
  }

  function FireTimer(s: State): State
    requires s.phase.Parked? && s.phase.settled.None?
  {
    s.(phase := s.phase.(settled := Some(TimerEnded)), counts := s.counts.(timerEnds := s.counts.timerEnds + 1))
  }

  function ResumePark(s: State, floorPassed: bool): State
    requires s.phase.Parked? && s.phase.settled.Some?
  {
    s.(pending := if s.phase.woken then NOTHING_PENDING else s.pending,
       phase := LoopTop(if s.phase.woken then ArrivalEnded else s.phase.settled.value),
       revalidates := !s.phase.woken && floorPassed)
  }

  function TestLoop(s: State): State
    requires s.phase.LoopTop?
  {
    if s.updating && !IsAborted(s.signals, s.signals.controller) then
      s.(phase := Fetching(s.community.publicKey, s.signals.controller, s.epoch),
         counts := s.counts.(cycles := s.counts.cycles + 1,
                             arrivalRuns := s.counts.arrivalRuns + if s.phase.cause.ArrivalEnded? then 1 else 0))
    else
      s.(phase := Exited, pending := NOTHING_PENDING, signals := s.signals.(controller := None), revalidates := false)
  }

  function UpdatedAt(record: Option<Record>): nat { match record case None => 0 case Some(r) => r.updatedAt }

  predicate Discards(s: State)
    requires s.phase.Fetching?
  {
    IsAborted(s.signals, s.phase.signal) || s.community.publicKey != s.phase.key
  }

  predicate Applies(s: State, outcome: Outcome)
    requires s.phase.Fetching?
  {
    !Discards(s) && outcome.Found? && UpdatedAt(s.community.record) < outcome.record.updatedAt
  }

  /** The identity a record gives: its signed anchor claim, else the first hop, else the signer. */
  function IdentityOf(r: Record, hops: seq<Key>): Key
  {
    if r.anchor.Some? && r.anchor.value != "" then r.anchor.value
    else if hops != [] && hops[0] != "" then hops[0]
    else r.signer
  }

  predicate IsSameName(a: Option<string>, b: Option<string>)
  {
    a.Some? && b.Some? && AreEquivalentNames(a.value, b.value)
  }

  function ApplyRecord(c: Community, r: Record, cid: Cid): Community
  {
    var key := Some(IdentityOf(r, c.hops));
    var rekeyed := c.publicKey.Some? && c.publicKey != key;
    var renamed := c.name.Some? && !IsSameName(r.name, c.name);
    c.(record := Some(r), updateCid := Some(cid), publicKey := key, name := r.name,
       nameResolved := if rekeyed || renamed then None else c.nameResolved)
  }

  function EntryOf(s: State, updatedAt: nat): Applied
    requires s.phase.Fetching?
  {
    Applied(s.phase.key, s.phase.signal, s.phase.epoch,
            s.community.publicKey, s.signals.controller, s.epoch, IsAborted(s.signals, s.signals.controller), updatedAt)
  }

  function EndFetch(s: State, outcome: Outcome): State
    requires s.phase.Fetching?
  {
    if Applies(s, outcome) then
      s.(phase := BeforePark, community := ApplyRecord(s.community, outcome.record, outcome.cid),
         applied := s.applied + [EntryOf(s, outcome.record.updatedAt)])
    else s.(phase := BeforePark)
  }

  function AbortController(signals: Signals): Signals
  {
    if signals.controller.None? then signals else signals.(aborted := signals.aborted + {signals.controller.value})
  }

  /** Aborting the controller ends the sleep that listens to it. */
  predicate EndsSleep(signals: Signals, phase: Phase)
  {
    && signals.controller.Some? && signals.controller.value !in signals.aborted
    && phase.Parked? && phase.settled.None? && phase.signal == signals.controller
  }

  function Abort(s: State): State
  {
    var ends := EndsSleep(s.signals, s.phase);
    s.(signals := AbortController(s.signals),
       phase := if ends then s.phase.(settled := Some(AbortEnded)) else s.phase,
       counts := if ends then s.counts.(abortEnds := s.counts.abortEnds + 1) else s.counts)
  }

  function CreateController(signals: Signals): Signals
  {
    if signals.controller.Some? && signals.controller.value !in signals.aborted then signals
    else signals.(controller := Some(signals.next), next := signals.next + 1)
  }

  function ClearForMigration(c: Community, key: Key): Community
  {
    c.(record := None, updateCid := None, publicKey := Some(key), hops := [key], nameResolved := Some(true))
  }

  function Migrate(s: State, asked: string, key: Key): State
  {
    var a := Abort(s);
    a.(community := ClearForMigration(s.community, key), loaded := {}, pending := NOTHING_PENDING,
       epoch := s.epoch + 1, signals := CreateController(a.signals), answer := Some(Answer(asked, key)))
  }

  predicate StillIdentifies(c: Community, asked: string)
  {
    IsSameName(if IsStringDomain(c.address) then Some(c.address) else c.name, Some(asked))
  }

  /** A key of the loaded record's own chain other than the identity. */
  predicate IsNonAnchorHop(c: Community, key: Key)
  {
    c.record.Some? && c.publicKey != Some(key) && (key in c.hops || key == c.record.value.signer)
  }

  predicate Migrates(c: Community, asked: string, resolved: Option<Key>)
  {
    && StillIdentifies(c, asked) && resolved.Some? && resolved.value != ""
    && c.publicKey != resolved && !IsNonAnchorHop(c, resolved.value)
  }

  predicate Confirms(c: Community, asked: string, resolved: Option<Key>)
  {
    StillIdentifies(c, asked) && resolved.Some? && resolved.value != "" && c.publicKey == resolved
  }

  function VerdictOn(c: Community, asked: string, resolved: Option<Key>): Option<bool>
  {
    if !StillIdentifies(c, asked) then c.nameResolved
    else if resolved.Some? && resolved.value != "" then Some(c.publicKey == resolved)
    else if c.name.Some? then Some(false)
    else c.nameResolved
  }

  function AnswerName(s: State, asked: string, resolved: Option<Key>): State
  {
    if Migrates(s.community, asked, resolved) then Migrate(s, asked, resolved.value)
    else s.(community := s.community.(nameResolved := VerdictOn(s.community, asked, resolved)),
            answer := if Confirms(s.community, asked, resolved) then Some(Answer(asked, resolved.value)) else s.answer)
  }

  function BeginStop(s: State): State
  {
    Abort(s).(stopping := true, loaded := {}, pending := NOTHING_PENDING, revalidates := false)
  }

  function Step(s: State, e: Event): State
  {
    match e
    case Arrives(value) => if s.phase.Exited? then s else OnArrival(s, NewsOf(value))
    case FetchWrites(loaded, hops) =>
      if s.phase.Fetching? then s.(loaded := loaded, community := s.community.(hops := hops), revalidates := false)
      else s
    case FetchEnds(outcome) => if s.phase.Fetching? then EndFetch(s, outcome) else s
    case ParkBegins => if s.phase.BeforePark? then BeginPark(s) else s
    case TimerFires => if s.phase.Parked? && s.phase.settled.None? then FireTimer(s) else s
    case ParkResumes(floorPassed) => if s.phase.Parked? && s.phase.settled.Some? then ResumePark(s, floorPassed) else s
    case LoopTests => if s.phase.LoopTop? then TestLoop(s) else s
    case NameAnswers(asked, resolved) => AnswerName(s, asked, resolved)
    case StopBegins => if s.updating then BeginStop(s) else s
    case StopEnds => if s.stopping then s.(updating := false, stopping := false) else s
  }

  function Run(s: State, es: seq<Event>): State
  {
    if es == [] then s else Step(Run(s, es[..|es| - 1]), es[|es| - 1])
  }

  // ----- wakeups and cycles

  /** A loop that is really asleep has nothing pending, and a pending arrival has already woken a park. */
  predicate NothingSleepsOnNews(s: State)
  {
    s.phase.Parked? ==>
      && (s.phase.settled.None? ==> !s.phase.woken && s.pending == NOTHING_PENDING)
      && (s.pending != NOTHING_PENDING ==> s.phase.woken)
      && (s.phase.settled == Some(ArrivalEnded) ==> s.phase.woken)
  }

  function One(b: bool): nat { if b then 1 else 0 }

  /** Accepted arrivals that no re-run has used yet, counting a batch that is answered together once. */
  function Unspent(s: State): nat
  {
    match s.phase
    case Parked(_, _, woken) => One(woken)
    case LoopTop(cause) => One(cause.ArrivalEnded?) + One(s.pending != NOTHING_PENDING)
    case Exited => 0
    case _ => One(s.pending != NOTHING_PENDING)
  }

  function OwedByParkEnd(s: State): nat
  {
    match s.phase
    case Parked(_, settled, _) => One(settled == Some(TimerEnded) || settled == Some(AbortEnded))
    case LoopTop(cause) => One(!cause.ArrivalEnded?)
    case _ => 0
  }

  /** Every early re-run has an accepted arrival of its own, and every other cycle a park end. */
  predicate CyclesAreEarned(s: State)
  {
    && s.counts.arrivalRuns + Unspent(s) <= s.counts.accepted
    && s.counts.cycles + OwedByParkEnd(s) <= 1 + s.counts.timerEnds + s.counts.abortEnds + s.counts.arrivalRuns
  }

  predicate LoopIsSound(s: State) { NothingSleepsOnNews(s) && CyclesAreEarned(s) }

  lemma ArrivalIsSound(s: State, news: News)
    requires LoopIsSound(s) && !s.phase.Exited?
    ensures LoopIsSound(OnArrival(s, news))
  {
  }

  lemma BeginParkIsSound(s: State)
    requires LoopIsSound(s) && s.phase.BeforePark?
    ensures LoopIsSound(BeginPark(s))
  {
  }

  lemma AbortIsSound(s: State)
    requires LoopIsSound(s)
    ensures LoopIsSound(Abort(s))
  {
  }

  lemma DroppingPendingIsSound(s: State, t: State)
    requires LoopIsSound(s) && t.phase == s.phase && t.counts == s.counts
    requires t.pending == s.pending || t.pending == NOTHING_PENDING
    ensures LoopIsSound(t)
  {
  }

  lemma ResumeIsSound(s: State, floorPassed: bool)
    requires LoopIsSound(s) && s.phase.Parked? && s.phase.settled.Some?
    ensures LoopIsSound(ResumePark(s, floorPassed))
  {
  }

  lemma TestIsSound(s: State)
    requires LoopIsSound(s) && s.phase.LoopTop?
    ensures LoopIsSound(TestLoop(s))
  {
  }

  lemma EndFetchIsSound(s: State, outcome: Outcome)
    requires LoopIsSound(s) && s.phase.Fetching?
    ensures LoopIsSound(EndFetch(s, outcome))
  {
  }

  lemma StepIsSound(s: State, e: Event)
    requires LoopIsSound(s)
    ensures LoopIsSound(Step(s, e))
  {
    match e {
      case Arrives(value) => if !s.phase.Exited? { ArrivalIsSound(s, NewsOf(value)); }
      case FetchWrites(_, _) => DroppingPendingIsSound(s, Step(s, e));
      case FetchEnds(outcome) => if s.phase.Fetching? { EndFetchIsSound(s, outcome); }
      case ParkBegins => if s.phase.BeforePark? { BeginParkIsSound(s); }
      case TimerFires =>
      case ParkResumes(floorPassed) =>
        if s.phase.Parked? && s.phase.settled.Some? { ResumeIsSound(s, floorPassed); }
      case LoopTests => if s.phase.LoopTop? { TestIsSound(s); }
      case NameAnswers(asked, resolved) =>
        AbortIsSound(s);
        if Migrates(s.community, asked, resolved) {
          DroppingPendingIsSound(Abort(s), Migrate(s, asked, resolved.value));
        } else {
          DroppingPendingIsSound(s, Step(s, e));
        }
      case StopBegins =>
        AbortIsSound(s);
        if s.updating { DroppingPendingIsSound(Abort(s), BeginStop(s)); }
      case StopEnds => DroppingPendingIsSound(s, Step(s, e));
    }
  }

  /** The counts are what their names say: a cycle is a step into a fetch, an arrival run is a cycle that an
      arrival caused, a timer or abort end is a sleep that it ended. */
  predicate AreCounted(s: State, t: State)
  {
    var starts := t.phase.Fetching? && !s.phase.Fetching?;
    && t.counts.cycles == s.counts.cycles + One(starts)
    && t.counts.arrivalRuns == s.counts.arrivalRuns + One(starts && s.phase == LoopTop(ArrivalEnded))
    && t.counts.timerEnds == s.counts.timerEnds + One(EndsAs(s, t, TimerEnded))
    && t.counts.abortEnds == s.counts.abortEnds + One(EndsAs(s, t, AbortEnded))
  }

  lemma AbortIsCounted(s: State, t: State)
    requires t.phase == Abort(s).phase && t.counts == Abort(s).counts
    ensures AreCounted(s, t)
  {
  }

  lemma NothingIsCounted(s: State, t: State)
    requires t.counts == s.counts && (t.phase == s.phase || t.phase.BeforePark?)
    ensures AreCounted(s, t)
  {
  }

  lemma AnswerIsCounted(s: State, asked: string, resolved: Option<Key>)
    ensures var t := AnswerName(s, asked, resolved);
            AreCounted(s, t) && t.counts.accepted == s.counts.accepted
  {
    if Migrates(s.community, asked, resolved) {
      AbortIsCounted(s, Migrate(s, asked, resolved.value));
    } else {
      NothingIsCounted(s, AnswerName(s, asked, resolved));
    }
  }

  lemma ArrivalIsCounted(s: State, news: News)
    ensures AreCounted(s, OnArrival(s, news)) && OnArrival(s, news).counts.accepted <= s.counts.accepted + 1
  {
  }

  lemma ParkingIsCounted(s: State, e: Event)
    requires e.ParkBegins? || e.TimerFires? || e.ParkResumes? || e.LoopTests?
    ensures AreCounted(s, Step(s, e)) && Step(s, e).counts.accepted == s.counts.accepted
  {
  }

  lemma CountsAreHonest(s: State, e: Event)
    ensures AreCounted(s, Step(s, e))
    ensures Step(s, e).counts.accepted <= s.counts.accepted + One(e.Arrives?)
  {
    match e {
      case Arrives(value) => ArrivalIsCounted(s, NewsOf(value));
      case NameAnswers(asked, resolved) => AnswerIsCounted(s, asked, resolved);
      case StopBegins => if s.updating { AbortIsCounted(s, BeginStop(s)); }
      case FetchWrites(_, _) => NothingIsCounted(s, Step(s, e));
      case FetchEnds(outcome) => NothingIsCounted(s, Step(s, e));
      case StopEnds => NothingIsCounted(s, Step(s, e));
      case _ => ParkingIsCounted(s, e);
    }
  }

  predicate EndsAs(s: State, t: State, cause: Cause)
  {
    && t.phase.Parked? && t.phase.settled == Some(cause)
    && (!s.phase.Parked? || s.phase.settled.None?)
  }

  lemma {:induction false} RunIsSound(community: Community, loaded: set<Cid>, answer: Option<Answer>, es: seq<Event>)
    ensures LoopIsSound(Run(Start(community, loaded, answer), es))
  {
    if es != [] {
      RunIsSound(community, loaded, answer, es[..|es| - 1]);
      StepIsSound(Run(Start(community, loaded, answer), es[..|es| - 1]), es[|es| - 1]);
    }
  }

  /** No lost wakeup: in every reachable state, a park that nothing has ended has no pending arrival. */
  lemma NoLostWakeup(community: Community, loaded: set<Cid>, answer: Option<Answer>, es: seq<Event>)
    ensures var s := Run(Start(community, loaded, answer), es);
            s.phase.Parked? && s.phase.settled == None ==> s.pending.cids == {} && s.pending.hops == {}
  {
    RunIsSound(community, loaded, answer, es);
  }

  /** No hot spin: over every run, early re-runs never outnumber accepted arrivals, and all cycles are
      bounded by one plus the parks ended by timer or abort plus the accepted arrivals. */
  lemma NoHotSpin(community: Community, loaded: set<Cid>, answer: Option<Answer>, es: seq<Event>)
    ensures var c := Run(Start(community, loaded, answer), es).counts;
            && c.arrivalRuns <= c.accepted
            && c.cycles <= 1 + c.timerEnds + c.abortEnds + c.accepted
  {
    RunIsSound(community, loaded, answer, es);
  }

  /** News is recorded, and the park it finds is woken and ended, unless it is already known: a cid that was
      loaded or is the current one, a hop that is on the walked chain. Nothing else changes. */
  predicate IsHeard(s: State, news: News, t: State)
  {
    match news
    case CidNews(cid) =>
      if cid in s.loaded || s.community.updateCid == Some(cid) then t == s
      else t.pending == Pending(s.pending.cids + {cid}, s.pending.hops) && IsWoken(s, t)
    case HopNews(target) =>
      if target in s.community.hops then t == s
      else t.pending == Pending(s.pending.cids, s.pending.hops + {target}) && IsWoken(s, t)
    case NoNews => t == s
  }

  predicate IsWoken(s: State, t: State)
  {
    && t == s.(pending := t.pending, phase := t.phase, counts := t.counts)
    && t.counts == s.counts.(accepted := s.counts.accepted + 1)
    && if s.phase.Parked? then t.phase.Parked? && t.phase.woken && t.phase.settled.Some? else t.phase == s.phase
  }

  /** No arrival is lost on its way in: whatever the loop is doing, unless it has left. */
  lemma ArrivalIsHeard(s: State, value: string)
    requires !s.phase.Exited?
    ensures IsHeard(s, NewsOf(value), Step(s, Arrives(value)))
  {
  }

  /** What an arrival says, in the shapes a record value has. */
  lemma NewsOfPaths(name: string, rest: string)
    requires '/' !in name
    ensures NewsOf("/ipfs/" + name) == CidNews(name) && NewsOf("/ipfs/" + name + "/" + rest) == CidNews(name)
    ensures name != "" ==> NewsOf("/ipns/" + name) == HopNews(name)
    ensures name != "" ==> NewsOf("/ipns/" + name + "/" + rest) == HopNews(name)
    ensures NewsOf(name) == NoNews && NewsOf("/ipns/") == NoNews
  {
    IpfsPathShape(name, rest);
    IpnsPathShape(name, rest);
    IpnsPathShape("", "");
    PathKindsAreExclusive("/ipns/" + name);
    PathKindsAreExclusive("/ipns/" + name + "/" + rest);
    PathKindsAreExclusive("/ipns/" + "");
    assert "/ipns/" + "" == "/ipns/";
    NotAPath(name);
  }

  predicate DropsPending(s: State, e: Event)
  {
    match e
    case NameAnswers(asked, resolved) => Migrates(s.community, asked, resolved)
    case StopBegins => true
    case LoopTests => Step(s, e).phase.Exited?
    case _ => false
  }

  predicate IsPending(s: State, news: News)
  {
    match news
    case CidNews(cid) => cid in s.pending.cids
    case HopNews(target) => target in s.pending.hops
    case NoNews => false
  }

  predicate IsConsumed(s: State, news: News)
  {
    match news
    case CidNews(cid) => IsConsumedCid(s, cid)
    case HopNews(target) => target in s.community.hops
    case NoNews => true
  }

  /** The cycle that just ran consumed the news, a new cycle starts at once on its account, or a migration,
      a stop or the end of the loop drops it. */
  predicate IsFate(s: State, e: Event, news: News)
  {
    || ((e.ParkBegins? || e.ParkResumes?) && Step(s, e).phase == LoopTop(ArrivalEnded))
    || (e.ParkBegins? && IsConsumed(s, news))
    || DropsPending(s, e)
  }

  lemma FateInStep(s: State, e: Event, news: News)
    requires NothingSleepsOnNews(s) && IsPending(s, news) && !IsPending(Step(s, e), news)
    ensures IsFate(s, e, news)
  {
    if e.ParkBegins? && s.phase.BeforePark? && LeftOver(s) == NOTHING_PENDING {
      NothingLeftIsConsumed(s, news);
    }
  }

  lemma NothingLeftIsConsumed(s: State, news: News)
    requires IsPending(s, news) && LeftOver(s) == NOTHING_PENDING
    ensures IsConsumed(s, news)
  {
    match news {
      case CidNews(cid) => assert cid !in LeftOver(s).cids;
      case HopNews(target) => assert target !in LeftOver(s).hops;
      case NoNews =>
    }
  }

  lemma FateAtEnd(community: Community, loaded: set<Cid>, answer: Option<Answer>, es: seq<Event>, news: News)
    requires es != [] && IsPending(Run(Start(community, loaded, answer), es[..|es| - 1]), news)
    requires !IsPending(Run(Start(community, loaded, answer), es), news)
    ensures IsFate(Run(Start(community, loaded, answer), es[..|es| - 1]), es[|es| - 1], news)
  {
    RunIsSound(community, loaded, answer, es[..|es| - 1]);
    FateInStep(Run(Start(community, loaded, answer), es[..|es| - 1]), es[|es| - 1], news);
  }

  /** No news is lost: over every run, news that was pending and no longer is met its fate at some step in
      between. */
  lemma {:induction false} FateOfPendingNews(
    community: Community, loaded: set<Cid>, answer: Option<Answer>, es: seq<Event>, i: nat, news: News) returns (k: nat)
    requires i <= |es| && IsPending(Run(Start(community, loaded, answer), es[..i]), news)
    requires !IsPending(Run(Start(community, loaded, answer), es), news)
    ensures i <= k < |es|
    ensures var s := Run(Start(community, loaded, answer), es[..k]);
            IsPending(s, news) && IsFate(s, es[k], news)
    decreases |es|
  {
    assert es[..|es|] == es;
    var before := es[..|es| - 1];
    if IsPending(Run(Start(community, loaded, answer), before), news) {
      k := |es| - 1;
      FateAtEnd(community, loaded, answer, es, news);
    } else {
      assert before[..i] == es[..i];
      k := FateOfPendingNews(community, loaded, answer, before, i, news);
      assert before[..k] == es[..k];
    }
  }

  /** The loop re-runs at once exactly when the finished cycle left some arrival unaccounted for: what the
      cycle's own fetch pushed into the cache does not wake it again. */
  lemma RerunsIffUnconsumed(s: State)
    requires s.phase.BeforePark?
    ensures BeginPark(s).phase == LoopTop(ArrivalEnded) <==> exists news :: IsPending(s, news) && !IsConsumed(s, news)
  {
    var left := LeftOver(s);
    if left.cids != {} {
      var cid :| cid in left.cids;
      assert IsPending(s, CidNews(cid)) && !IsConsumed(s, CidNews(cid));
    } else if left.hops != {} {
      var hop :| hop in left.hops;
      assert IsPending(s, HopNews(hop)) && !IsConsumed(s, HopNews(hop));
    } else {
      forall news | IsPending(s, news)
        ensures IsConsumed(s, news)
      {
        NothingLeftIsConsumed(s, news);
      }
    }
  }

  /** After a cycle: a re-run at once exactly when some pending arrival was not consumed by it, and else a park
      that listens to the controller in use; nothing stays pending. */
  ghost predicate IsParkedOrRerun(s: State, t: State)
  {
    && t == s.(pending := NOTHING_PENDING, phase := t.phase, revalidates := t.revalidates, counts := t.counts)
    && if exists news :: IsPending(s, news) && !IsConsumed(s, news)
       then t.phase == LoopTop(ArrivalEnded) && !t.revalidates
       else && t.revalidates == s.revalidates
            && t.phase.Parked? && t.phase.signal == s.signals.controller && !t.phase.woken
            && t.phase.settled == if IsAborted(s.signals, s.signals.controller) then Some(AbortEnded) else None
  }

  lemma ParksOrReruns(s: State)
    requires s.phase.BeforePark?
    ensures IsParkedOrRerun(s, BeginPark(s))
  {
    RerunsIffUnconsumed(s);
  }

  /** News that the cycle now running, if any, has not consumed. */
  predicate HasNews(s: State)
  {
    || (s.phase.BeforePark? && LeftOver(s) != NOTHING_PENDING)
    || ((s.phase.Parked? || s.phase.LoopTop?) && s.pending != NOTHING_PENDING)
  }

  lemma PendingNewsStartsCycle(s: State, floorPassed: bool)
    requires NothingSleepsOnNews(s) && HasNews(s) && s.updating && !IsAborted(s.signals, s.signals.controller)
    ensures var t := Step(Step(Step(s, ParkBegins), ParkResumes(floorPassed)), LoopTests);
            && t.phase.Fetching?
            && t.counts == s.counts.(cycles := s.counts.cycles + 1, arrivalRuns := t.counts.arrivalRuns)
            && (!s.phase.LoopTop? ==> !t.revalidates && t.counts.arrivalRuns == s.counts.arrivalRuns + 1)
  {
  }

  lemma RunOneMore(s: State, es: seq<Event>, e: Event)
    ensures Run(s, es + [e]) == Step(Run(s, es), e)
  {
    assert (es + [e])[..|es|] == es;
  }

  /** With news pending in any reachable state of a loop that is neither stopped nor aborted, the loop's own
      steps start the next cycle: no timer is involved, and after a park the cycle may use the cached record. */
  lemma NewsNeedsNoTimer(
    community: Community, loaded: set<Cid>, answer: Option<Answer>, es: seq<Event>, floorPassed: bool)
    requires var s := Run(Start(community, loaded, answer), es);
             HasNews(s) && s.updating && !IsAborted(s.signals, s.signals.controller)
    ensures var s := Run(Start(community, loaded, answer), es);
            var more := es + [ParkBegins] + [ParkResumes(floorPassed)] + [LoopTests];
            var t := Run(Start(community, loaded, answer), more);
            && t.phase.Fetching? && t.counts.cycles == s.counts.cycles + 1 && t.counts.timerEnds == s.counts.timerEnds
            && (!s.phase.LoopTop? ==> !t.revalidates)
  {
    var start := Start(community, loaded, answer);
    RunIsSound(community, loaded, answer, es);
    PendingNewsStartsCycle(Run(start, es), floorPassed);
    RunOneMore(start, es, ParkBegins);
    RunOneMore(start, es + [ParkBegins], ParkResumes(floorPassed));
    RunOneMore(start, es + [ParkBegins] + [ParkResumes(floorPassed)], LoopTests);
  }

  // ----- stopping a sleep

  /** A sleep that has not ended listens to the controller in use, and that has not been aborted. */
  predicate SleepListens(s: State)
  {
    s.phase.Parked? && s.phase.settled.None? ==>
      s.phase.signal == s.signals.controller && !IsAborted(s.signals, s.signals.controller)
  }

  lemma AbortKeepsListening(s: State)
    requires SleepListens(s)
    ensures SleepListens(Abort(s)) && (s.signals.controller.Some? && s.phase.Parked? ==> Abort(s).phase.settled.Some?)
  {
  }

  lemma AnswerKeepsListening(s: State, asked: string, resolved: Option<Key>)
    requires SleepListens(s) && FetchIsCurrentOrAborted(s)
    ensures SleepListens(AnswerName(s, asked, resolved))
  {
    AbortKeepsListening(s);
  }

  lemma ArrivalKeepsListening(s: State, news: News)
    requires SleepListens(s)
    ensures SleepListens(OnArrival(s, news))
  {
  }

  lemma StepKeepsListening(s: State, e: Event)
    requires SleepListens(s) && FetchIsCurrentOrAborted(s)
    ensures SleepListens(Step(s, e))
  {
    match e {
      case Arrives(value) => ArrivalKeepsListening(s, NewsOf(value));
      case NameAnswers(asked, resolved) => AnswerKeepsListening(s, asked, resolved);
      case StopBegins => AbortKeepsListening(s);
      case _ =>
    }
  }

  /** No sleep outlives its signal: in every reachable state a sleep whose signal was aborted, by a stop or by
      a migration, has ended. */
  lemma {:induction false} NoSleepOutlivesItsSignal(
    community: Community, loaded: set<Cid>, answer: Option<Answer>, es: seq<Event>)
    ensures SleepListens(Run(Start(community, loaded, answer), es))
  {
    if es != [] {
      NoSleepOutlivesItsSignal(community, loaded, answer, es[..|es| - 1]);
      RunIsSafe(community, loaded, answer, es[..|es| - 1]);
      StepKeepsListening(Run(Start(community, loaded, answer), es[..|es| - 1]), es[|es| - 1]);
    }
  }

  // ----- epochs

  predicate SignalsAreFresh(signals: Signals)
  {
    && (signals.controller.Some? ==> signals.controller.value < signals.next)
    && forall x :: x in signals.aborted ==> x < signals.next
  }

  /** A fetch whose signal still stands was started in this epoch, under the current signal. */
  predicate FetchIsCurrentOrAborted(s: State)
  {
    && (!s.phase.Exited? ==> s.signals.controller.Some?)
    && (s.phase.Fetching? ==>
          && s.phase.signal.Some? && s.phase.signal.value < s.signals.next
          && (!IsAborted(s.signals, s.phase.signal) ==>
                s.phase.signal == s.signals.controller && s.phase.epoch == s.epoch))
  }

  predicate WasCurrent(a: Applied)
  {
    && a.keyAtStart == a.keyAtApply
    && a.signalAtStart == a.signalAtApply && a.signalAtApply.Some? && !a.aborted
    && a.epochAtStart == a.epochAtApply
  }

  /** In order of application: every entry was current, epochs never fall, and updatedAt rises within one. */
  predicate InOrder(applied: seq<Applied>, epoch: nat, updatedAt: nat)
  {
    applied == [] ||
    var last := applied[|applied| - 1];
    && WasCurrent(last) && last.epochAtApply <= epoch
    && (last.epochAtApply == epoch ==> last.updatedAt <= updatedAt)
    && last.updatedAt > 0
    && InOrder(applied[..|applied| - 1], last.epochAtApply, last.updatedAt - 1)
  }

  predicate EpochsAreSafe(s: State)
  {
    && SignalsAreFresh(s.signals) && FetchIsCurrentOrAborted(s)
    && InOrder(s.applied, s.epoch, UpdatedAt(s.community.record))
  }

  lemma ApplyingStaysInOrder(applied: seq<Applied>, entry: Applied, epoch: nat, updatedAt: nat)
    requires InOrder(applied, epoch, updatedAt) && updatedAt < entry.updatedAt
    requires WasCurrent(entry) && entry.epochAtApply == epoch
    ensures InOrder(applied + [entry], epoch, entry.updatedAt)
  {
    assert (applied + [entry])[..|applied|] == applied;
  }

  lemma AppliedEntryIsCurrent(s: State, updatedAt: nat)
    requires s.phase.Fetching? && FetchIsCurrentOrAborted(s) && !Discards(s)
    ensures WasCurrent(EntryOf(s, updatedAt)) && EntryOf(s, updatedAt).epochAtApply == s.epoch
  {
  }

  lemma ApplyIsSafe(s: State, outcome: Outcome)
    requires s.phase.Fetching? && EpochsAreSafe(s) && Applies(s, outcome)
    ensures InOrder(EndFetch(s, outcome).applied, s.epoch, outcome.record.updatedAt)
  {
    AppliedEntryIsCurrent(s, outcome.record.updatedAt);
    var entry := EntryOf(s, outcome.record.updatedAt);
    ApplyingStaysInOrder(s.applied, entry, s.epoch, UpdatedAt(s.community.record));
  }

  lemma EndFetchIsSafe(s: State, outcome: Outcome)
    requires s.phase.Fetching? && EpochsAreSafe(s)
    ensures EpochsAreSafe(EndFetch(s, outcome))
  {
    if Applies(s, outcome) { ApplyIsSafe(s, outcome); }
  }

  lemma AbortIsSafe(s: State)
    requires EpochsAreSafe(s)
    ensures EpochsAreSafe(Abort(s))
    ensures s.signals.controller.Some? ==> IsAborted(Abort(s).signals, s.signals.controller)
  {
  }

  lemma MigrateIsSafe(s: State, asked: string, key: Key)
    requires EpochsAreSafe(s)
    ensures EpochsAreSafe(Migrate(s, asked, key))
  {
  }

  lemma QuietStepIsSafe(s: State, t: State)
    requires EpochsAreSafe(s)
    requires t.signals == s.signals && t.epoch == s.epoch && t.applied == s.applied
    requires t.community.record == s.community.record
    requires t.phase == s.phase || !t.phase.Fetching?
    requires s.phase.Exited? ==> t.phase.Exited?
    ensures EpochsAreSafe(t)
  {
  }

  /** A controller made when one is needed has never been aborted, and a standing one stays. */
  lemma CreatedControllerStands(signals: Signals)
    requires SignalsAreFresh(signals)
    ensures var created := CreateController(signals);
            && SignalsAreFresh(created) && created.aborted == signals.aborted
            && created.controller.Some? && !IsAborted(created, created.controller)
            && (signals.controller.Some? && !IsAborted(signals, signals.controller) ==> created == signals)
  {
  }

  lemma TestLoopIsSafe(s: State)
    requires EpochsAreSafe(s) && s.phase.LoopTop?
    ensures EpochsAreSafe(TestLoop(s))
  {
  }

  lemma AnswerIsSafe(s: State, asked: string, resolved: Option<Key>)
    requires EpochsAreSafe(s)
    ensures EpochsAreSafe(AnswerName(s, asked, resolved))
  {
    if Migrates(s.community, asked, resolved) {
      MigrateIsSafe(s, asked, resolved.value);
    } else {
      QuietStepIsSafe(s, AnswerName(s, asked, resolved));
    }
  }

  lemma BeginStopIsSafe(s: State)
    requires EpochsAreSafe(s)
    ensures EpochsAreSafe(BeginStop(s))
  {
    AbortIsSafe(s);
    QuietStepIsSafe(Abort(s), BeginStop(s));
  }

  lemma ArrivalIsSafe(s: State, news: News)
    requires EpochsAreSafe(s)
    ensures EpochsAreSafe(OnArrival(s, news))
  {
    ArrivalIsQuiet(s, news);
    QuietStepIsSafe(s, OnArrival(s, news));
  }

  /** Parking, waking, the timer, a fetch's own writes and the end of a stop touch nothing that epochs rest on. */
  lemma QuietEventIsSafe(s: State, e: Event)
    requires EpochsAreSafe(s)
    requires e.FetchWrites? || e.ParkBegins? || e.TimerFires? || e.ParkResumes? || e.StopEnds?
    ensures EpochsAreSafe(Step(s, e))
  {
    QuietStepIsSafe(s, Step(s, e));
  }

  lemma StepIsSafe(s: State, e: Event)
    requires EpochsAreSafe(s)
    ensures EpochsAreSafe(Step(s, e))
  {
    match e {
      case Arrives(value) => if !s.phase.Exited? { ArrivalIsSafe(s, NewsOf(value)); }
      case FetchEnds(outcome) => if s.phase.Fetching? { EndFetchIsSafe(s, outcome); }
      case LoopTests => if s.phase.LoopTop? { TestLoopIsSafe(s); }
      case NameAnswers(asked, resolved) => AnswerIsSafe(s, asked, resolved);
      case StopBegins => if s.updating { BeginStopIsSafe(s); }
      case _ => QuietEventIsSafe(s, e);
    }
  }

  lemma ArrivalIsQuiet(s: State, news: News)
    ensures var t := OnArrival(s, news);
            && t.signals == s.signals && t.epoch == s.epoch && t.applied == s.applied
            && t.community == s.community && t.answer == s.answer
            && (t.phase == s.phase || (s.phase.Parked? && t.phase.Parked?))
  {
  }

  lemma {:induction false} RunIsSafe(community: Community, loaded: set<Cid>, answer: Option<Answer>, es: seq<Event>)
    ensures EpochsAreSafe(Run(Start(community, loaded, answer), es))
  {
    if es != [] {
      RunIsSafe(community, loaded, answer, es[..|es| - 1]);
      StepIsSafe(Run(Start(community, loaded, answer), es[..|es| - 1]), es[|es| - 1]);
    }
  }

  lemma {:induction false} OrderMeansCurrentAndRising(applied: seq<Applied>, epoch: nat, updatedAt: nat, i: nat, j: nat)
    requires InOrder(applied, epoch, updatedAt) && i <= j < |applied|
    ensures WasCurrent(applied[i]) && WasCurrent(applied[j])
    ensures applied[j].epochAtApply <= epoch && applied[i].epochAtApply <= applied[j].epochAtApply
    ensures applied[j].epochAtApply == epoch ==> applied[j].updatedAt <= updatedAt
    ensures i < j && applied[i].epochAtApply == applied[j].epochAtApply ==> applied[i].updatedAt < applied[j].updatedAt
    decreases |applied|
  {
    var before, last := applied[..|applied| - 1], applied[|applied| - 1];
    if j < |applied| - 1 {
      OrderMeansCurrentAndRising(before, last.epochAtApply, last.updatedAt - 1, i, j);
    } else if i < j {
      OrderMeansCurrentAndRising(before, last.epochAtApply, last.updatedAt - 1, i, i);
    }
  }

  /** Epoch safety: in every interleaving, every applied record was fetched under the key, the stop signal
      and the epoch still current when it was applied, and updatedAt strictly rises within an epoch. */
  lemma AppliedRecordsAreCurrent(
    community: Community, loaded: set<Cid>, answer: Option<Answer>, es: seq<Event>, i: nat, j: nat)
    requires i <= j < |Run(Start(community, loaded, answer), es).applied|
    ensures var applied := Run(Start(community, loaded, answer), es).applied;
            && WasCurrent(applied[i]) && applied[i].epochAtApply <= applied[j].epochAtApply
            && (i < j && applied[i].epochAtApply == applied[j].epochAtApply ==>
                  applied[i].updatedAt < applied[j].updatedAt)
  {
    RunIsSafe(community, loaded, answer, es);
    var s := Run(Start(community, loaded, answer), es);
    OrderMeansCurrentAndRising(s.applied, s.epoch, UpdatedAt(s.community.record), i, j);
  }

  /** A found record is applied exactly when the fetch is not stale, its key and its signal being the ones it
      started with, and the record is newer than the loaded one; a first record has to have a positive date. */
  predicate IsFinished(s: State, outcome: Outcome, t: State)
    requires s.phase.Fetching?
  {
    && t.phase == BeforePark
    && if && !IsAborted(s.signals, s.phase.signal) && s.community.publicKey == s.phase.key && outcome.Found?
          && (if s.community.record.Some? then s.community.record.value.updatedAt else 0) < outcome.record.updatedAt
       then && t.community.record == Some(outcome.record) && t.community.updateCid == Some(outcome.cid)
            && t == s.(phase := BeforePark, community := t.community, applied := t.applied)
            && t.applied == s.applied + [Applied(s.phase.key, s.phase.signal, s.phase.epoch,
                                                 s.community.publicKey, s.signals.controller, s.epoch,
                                                 IsAborted(s.signals, s.signals.controller), outcome.record.updatedAt)]
       else t == s.(phase := BeforePark)
  }

  lemma FetchEndsFinished(s: State, outcome: Outcome)
    requires s.phase.Fetching?
    ensures IsFinished(s, outcome, Step(s, FetchEnds(outcome)))
  {
  }

  /** Said of the states themselves: whatever step brings a new record, in any reachable state, it is the end of
      a fetch that started under the key, the signal and the epoch that are still current, and the record is newer. */
  lemma RecordsChangeOnlyWhenCurrent(
    community: Community, loaded: set<Cid>, answer: Option<Answer>, es: seq<Event>, e: Event)
    ensures var s := Run(Start(community, loaded, answer), es);
            var t := Step(s, e);
            t.community.record.Some? && t.community.record != s.community.record ==>
              && e.FetchEnds? && s.phase.Fetching? && s.phase.key == s.community.publicKey
              && s.phase.signal == s.signals.controller && !IsAborted(s.signals, s.signals.controller)
              && s.phase.epoch == s.epoch && t.epoch == s.epoch
              && (s.community.record.Some? ==> s.community.record.value.updatedAt < t.community.record.value.updatedAt)
  {
    RunIsSafe(community, loaded, answer, es);
    var s := Run(Start(community, loaded, answer), es);
    RecordComesFromFetch(s, e);
  }

  lemma RecordComesFromFetch(s: State, e: Event)
    requires FetchIsCurrentOrAborted(s)
    ensures var t := Step(s, e);
            t.community.record.Some? && t.community.record != s.community.record ==>
              && e.FetchEnds? && s.phase.Fetching? && s.phase.key == s.community.publicKey
              && s.phase.signal == s.signals.controller && !IsAborted(s.signals, s.signals.controller)
              && s.phase.epoch == s.epoch && t.epoch == s.epoch
              && (s.community.record.Some? ==> s.community.record.value.updatedAt < t.community.record.value.updatedAt)
  {
  }

  /** The name that stands for the community: its address if that is a name, else the name of its record. */
  predicate IsItsName(c: Community, asked: string)
  {
    if '.' in c.address then AreEquivalentNames(c.address, asked)
    else c.name.Some? && AreEquivalentNames(c.name.value, asked)
  }

  /** Exactly a key from outside moves the community: neither its own nor on the loaded record's chain. Any other
      answer to its name only judges, `true` exactly for the key the community has; an answer to another
      name does nothing. */
  predicate IsAnswered(s: State, asked: string, resolved: Option<Key>, t: State)
  {
    var c := s.community;
    if !IsItsName(c, asked) then t == s
    else if resolved.None? || resolved.value == "" then
      t == s.(community := c.(nameResolved := if c.name.Some? then Some(false) else c.nameResolved))
    else if && c.publicKey != resolved
            && (c.record.Some? ==> resolved.value !in c.hops && resolved.value != c.record.value.signer)
    then t.epoch == s.epoch + 1 && t.community.publicKey == resolved
    else t == s.(community := c.(nameResolved := Some(c.publicKey == resolved)), answer := t.answer)
  }

  lemma OnlyForeignKeysMigrate(s: State, asked: string, resolved: Option<Key>)
    ensures IsAnswered(s, asked, resolved, AnswerName(s, asked, resolved))
  {
  }

  // ----- the name verdict

  /** A `true` describes the present: the name that was asked still identifies the community, and the key
      it resolved to is still the community's key. */
  predicate VerdictIsCurrent(s: State)
  {
    s.community.nameResolved == Some(true) ==>
      && s.answer.Some? && s.community.publicKey == Some(s.answer.value.key)
      && StillIdentifies(s.community, s.answer.value.asked)
  }

  lemma ApplyKeepsVerdict(s: State, outcome: Outcome)
    requires s.phase.Fetching? && VerdictIsCurrent(s)
    ensures VerdictIsCurrent(EndFetch(s, outcome))
  {
  }

  lemma QuietStepKeepsVerdict(s: State, t: State)
    requires VerdictIsCurrent(s) && t.answer == s.answer
    requires t.community == s.community.(hops := t.community.hops)
    ensures VerdictIsCurrent(t)
  {
  }

  lemma AnswerKeepsVerdict(s: State, asked: string, resolved: Option<Key>)
    requires VerdictIsCurrent(s)
    ensures VerdictIsCurrent(AnswerName(s, asked, resolved))
  {
  }

  lemma StepKeepsVerdict(s: State, e: Event)
    requires VerdictIsCurrent(s)
    ensures VerdictIsCurrent(Step(s, e))
  {
    match e {
      case Arrives(value) =>
        ArrivalIsQuiet(s, NewsOf(value));
        QuietStepKeepsVerdict(s, Step(s, e));
      case FetchEnds(outcome) => if s.phase.Fetching? { ApplyKeepsVerdict(s, outcome); }
      case NameAnswers(asked, resolved) => AnswerKeepsVerdict(s, asked, resolved);
      case _ => QuietStepKeepsVerdict(s, Step(s, e));
    }
  }

  /** Over every run, whatever record is applied or key migrated to in between, a `true` verdict is about the
      current name and the current key. */
  lemma {:induction false} TrueVerdictIsNeverStale(
    community: Community, loaded: set<Cid>, answer: Option<Answer>, es: seq<Event>)
    requires VerdictIsCurrent(Start(community, loaded, answer))
    ensures VerdictIsCurrent(Run(Start(community, loaded, answer), es))
  {
    if es != [] {
      TrueVerdictIsNeverStale(community, loaded, answer, es[..|es| - 1]);
      StepKeepsVerdict(Run(Start(community, loaded, answer), es[..|es| - 1]), es[|es| - 1]);
    }
  }

  // ----- everything a loop keeps

  /** What holds between any two steps of a loop. */
  predicate IsValid(s: State) { LoopIsSound(s) && SleepListens(s) && EpochsAreSafe(s) && VerdictIsCurrent(s) }

  lemma StepIsValid(s: State, e: Event)
    requires IsValid(s)
    ensures IsValid(Step(s, e))
  {
    StepIsSound(s, e);
    StepKeepsListening(s, e);
    StepIsSafe(s, e);
    StepKeepsVerdict(s, e);
  }

  lemma MigrationIsValid(s: State, asked: string, key: Key)
    requires IsValid(s) && Migrates(s.community, asked, Some(key))
    ensures IsValid(Migrate(s, asked, key))
  {
    StepIsValid(s, NameAnswers(asked, Some(key)));
  }
}
