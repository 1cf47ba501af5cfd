/** One call at a time: the steps a call takes when nothing else happens until it returns, and why such
    histories meet the conditions for the cap and for backing. */
module LruCalls {
  import opened Options
  import opened Sequences
  import opened LruIndex
  import opened LruInterleaving

  datatype Call =
    | Putting(key: string, size: nat)
    | Reading(key: string, known: bool, size: nat)
    | Abandoning(key: string)
    | Failing(key: string)
    | Deleting(key: string)
    | Rebuilding(found: seq<Entry>)

  function Registrations(found: seq<Entry>): seq<Event>
  {
    if found == [] then [] else [ScanRegisters(found[0].key, found[0].size)] + Registrations(found[1..])
  }

  /** What a call does up to the last step of its own; then the child answers the deletes of its eviction. */
  function Opening(call: Call): seq<Event>
  {
    match call
    case Putting(key, size) => [ChildStored(key)] + [PutRegisters(key, size)]
    case Reading(key, known, size) => [GetStarts(key)] + [GetReadAll(key, known, size)]
    case Abandoning(key) => [GetStarts(key)]
    case Failing(key) => [GetStarts(key)] + [GetFails(key)]
    case Deleting(key) => [ChildDeleted(key)] + [DeleteUnregisters(key)]
    case Rebuilding(found) => [ScanStarts] + Registrations(found) + [ScanEnds]
  }

  predicate OnlyAnswers(es: seq<Event>)
  {
    forall i :: 0 <= i < |es| ==> es[i].EvictDeleteSettles? || es[i].EvictFinally?
  }

  predicate IsAlone(call: Call, es: seq<Event>)
  {
    Opening(call) <= es && OnlyAnswers(es[|Opening(call)|..])
  }

  /** What reading and scanning see is in the child. */
  predicate CanTake(s: Store, call: Call)
  {
    match call
    case Reading(key, known, _) => key in s.child && (known <==> Lookup(s.entries, key).Some?)
    case Rebuilding(found) => forall i :: 0 <= i < |found| ==> found[i].key in s.child
    case _ => true
  }

  // ----- runs put together

  lemma {:induction false} RunConcat(c: Config, s: Store, a: seq<Event>, b: seq<Event>)
    ensures Run(c, s, a + b) == Run(c, Run(c, s, a), b)
  {
    if b == [] {
      assert a + b == a;
    } else {
      var before := b[..|b| - 1];
      RunConcat(c, s, a, before);
      assert a + b == (a + before) + [b[|b| - 1]];
      RunOneMore(c, s, a + before, b[|b| - 1]);
    }
  }

  lemma NeverOneMore(c: Config, s: Store, es: seq<Event>, e: Event)
    ensures NeverFoldsTooLate(c, s, es + [e]) <==> NeverFoldsTooLate(c, s, es) && !FoldsTooLate(c, Run(c, s, es), e)
    ensures NeverLosesBlock(c, s, es + [e]) <==> NeverLosesBlock(c, s, es) && !LosesBlock(c, Run(c, s, es), e)
  {
    assert (es + [e])[..|es|] == es;
  }

  lemma {:induction false} FoldsConcat(c: Config, s: Store, a: seq<Event>, b: seq<Event>)
    ensures NeverFoldsTooLate(c, s, a + b) <==> NeverFoldsTooLate(c, s, a) && NeverFoldsTooLate(c, Run(c, s, a), b)
  {
    if b == [] {
      assert a + b == a;
    } else {
      var before, last := b[..|b| - 1], b[|b| - 1];
      FoldsConcat(c, s, a, before);
      RunConcat(c, s, a, before);
      assert a + b == (a + before) + [last];
      NeverOneMore(c, s, a + before, last);
    }
  }

  lemma {:induction false} LosesConcat(c: Config, s: Store, a: seq<Event>, b: seq<Event>)
    ensures NeverLosesBlock(c, s, a + b) <==> NeverLosesBlock(c, s, a) && NeverLosesBlock(c, Run(c, s, a), b)
  {
    if b == [] {
      assert a + b == a;
    } else {
      var before, last := b[..|b| - 1], b[|b| - 1];
      LosesConcat(c, s, a, before);
      RunConcat(c, s, a, before);
      assert a + b == (a + before) + [last];
      NeverOneMore(c, s, a + before, last);
    }
  }

  lemma NeverConcat(c: Config, s: Store, a: seq<Event>, b: seq<Event>)
    ensures NeverFoldsTooLate(c, s, a + b) <==> NeverFoldsTooLate(c, s, a) && NeverFoldsTooLate(c, Run(c, s, a), b)
    ensures NeverLosesBlock(c, s, a + b) <==> NeverLosesBlock(c, s, a) && NeverLosesBlock(c, Run(c, s, a), b)
  {
    FoldsConcat(c, s, a, b);
    LosesConcat(c, s, a, b);
  }

  lemma CallRun(c: Config, s: Store, call: Call, answers: seq<Event>)
    requires OnlyAnswers(answers)
    ensures IsAlone(call, Opening(call) + answers)
    ensures Run(c, s, Opening(call) + answers) == Run(c, Run(c, s, Opening(call)), answers)
  {
    assert (Opening(call) + answers)[|Opening(call)|..] == answers;
    RunConcat(c, s, Opening(call), answers);
  }

  lemma PutRun(c: Config, s: Store, key: string, size: nat, answers: seq<Event>)
    requires OnlyAnswers(answers)
    ensures var es := Opening(Putting(key, size)) + answers;
            && IsAlone(Putting(key, size), es)
            && Run(c, s, es)
               == Run(c, EvictsIfNeeded(c, Registers(s.(child := s.child + {key}), key, size)), answers)
  {
    TwoSteps(c, s, ChildStored(key), PutRegisters(key, size));
    CallRun(c, s, Putting(key, size), answers);
  }

  lemma ReadRun(c: Config, s: Store, key: string, known: bool, size: nat, answers: seq<Event>)
    requires OnlyAnswers(answers)
    ensures var es := Opening(Reading(key, known, size)) + answers;
            && IsAlone(Reading(key, known, size), es)
            && Run(c, s, es)
               == Run(c, Step(c, Step(c, s, GetStarts(key)), GetReadAll(key, known, size)), answers)
  {
    TwoSteps(c, s, GetStarts(key), GetReadAll(key, known, size));
    CallRun(c, s, Reading(key, known, size), answers);
  }

  lemma FailedRun(c: Config, s: Store, key: string)
    ensures var es := Opening(Failing(key));
            IsAlone(Failing(key), es) && Run(c, s, es) == Unregisters(Step(c, s, GetStarts(key)), key)
  {
    TwoSteps(c, s, GetStarts(key), GetFails(key));
  }

  lemma ScanSteps(c: Config, s: Store, registrations: seq<Event>)
    ensures Run(c, s, [ScanStarts] + registrations + [ScanEnds])
            == Step(c, Run(c, Step(c, s, ScanStarts), registrations), ScanEnds)
  {
    OneStep(c, s, ScanStarts);
    RunConcat(c, s, [ScanStarts], registrations);
    RunOneMore(c, s, [ScanStarts] + registrations, ScanEnds);
  }

  lemma ScanCloses(c: Config, s: Store)
    requires s.scans == 0
    ensures Step(c, s.(scans := 1), ScanEnds) == EvictsIfNeeded(c, s)
  {
  }

  lemma RebuildOpens(c: Config, s: Store, scan: seq<Entry>)
    requires s.scans == 0
    ensures Run(c, s, Opening(Rebuilding(MissingOf(s.entries, scan)))) == EvictsIfNeeded(c, Scanned(s, scan))
  {
    ScanSteps(c, s, Registrations(MissingOf(s.entries, scan)));
    ScanRun(c, s, scan);
    ScanCloses(c, Scanned(s, scan));
  }

  lemma RebuildRun(c: Config, s: Store, scan: seq<Entry>, answers: seq<Event>)
    requires OnlyAnswers(answers) && s.scans == 0
    ensures var call := Rebuilding(MissingOf(s.entries, scan));
            && IsAlone(call, Opening(call) + answers)
            && Run(c, s, Opening(call) + answers) == Run(c, EvictsIfNeeded(c, Scanned(s, scan)), answers)
  {
    RebuildOpens(c, s, scan);
    CallRun(c, s, Rebuilding(MissingOf(s.entries, scan)), answers);
  }

  // ----- what a scan registers

  /** The scanned blocks that are not counted yet when the scan comes to them. */
  function MissingOf(es: Entries, scan: seq<Entry>): seq<Entry>
    decreases |scan|
  {
    if scan == [] then []
    else if Lookup(es, scan[0].key).Some? then MissingOf(es, scan[1..])
    else [scan[0]] + MissingOf(Register(es, scan[0].key, scan[0].size), scan[1..])
  }

  function Scanned(s: Store, scan: seq<Entry>): Store
    decreases |scan|
  {
    if scan == [] then s
    else if Lookup(s.entries, scan[0].key).Some? then Scanned(s, scan[1..])
    else Scanned(Registers(s, scan[0].key, scan[0].size), scan[1..])
  }

  /** A scan appends the missing blocks and leaves the rest of the index alone. */
  lemma {:induction false} ScannedEntries(s: Store, scan: seq<Entry>)
    ensures Scanned(s, scan).entries == s.entries + MissingOf(s.entries, scan)
    decreases |scan|
  {
    if scan != [] {
      if Lookup(s.entries, scan[0].key).Some? {
        ScannedEntries(s, scan[1..]);
      } else {
        RemoveAbsent(s.entries, scan[0].key);
        ScannedEntries(Registers(s, scan[0].key, scan[0].size), scan[1..]);
      }
    }
  }

  lemma {:induction false} MissingIsScanned(es: Entries, scan: seq<Entry>, e: Entry)
    ensures e in MissingOf(es, scan) ==> e in scan
    decreases |scan|
  {
    if scan != [] {
      MissingIsScanned(es, scan[1..], e);
      MissingIsScanned(Register(es, scan[0].key, scan[0].size), scan[1..], e);
    }
  }

  lemma RegistrationRun(c: Config, s: Store, e: Entry, found: seq<Entry>)
    ensures Run(c, s.(scans := 1), Registrations([e] + found))
            == Run(c, Registers(s, e.key, e.size).(scans := 1), Registrations(found))
  {
    assert ([e] + found)[1..] == found;
    OneStep(c, s.(scans := 1), ScanRegisters(e.key, e.size));
    RunConcat(c, s.(scans := 1), [ScanRegisters(e.key, e.size)], Registrations(found));
  }

  /** A scan counts every block it sees, and none that was counted before. */
  lemma {:induction false} ScanCountsAll(es: Entries, scan: seq<Entry>, e: Entry)
    ensures e in scan ==> e.key in Keys(es + MissingOf(es, scan))
    ensures e in MissingOf(es, scan) ==> e in scan && e.key !in Keys(es)
    decreases |scan|
  {
    KeysOfConcat(es, MissingOf(es, scan), e.key);
    if scan != [] {
      var first, rest := scan[0], scan[1..];
      assert scan == [first] + rest;
      if Lookup(es, first.key).Some? {
        ScanCountsAll(es, rest, e);
      } else {
        RemoveAbsent(es, first.key);
        ScanCountsAll(es + [first], rest, e);
        KeysOfConcat(es, [first], e.key);
        KeysOfConcat(es + [first], MissingOf(es + [first], rest), e.key);
        KeysOfConcat([first], MissingOf(es + [first], rest), e.key);
        assert Keys([first]) == [first.key];
      }
    }
  }

  lemma KeysOfConcat(a: Entries, b: Entries, k: string)
    ensures Keys(a + b) == Keys(a) + Keys(b)
    ensures k in Keys(a + b) <==> k in Keys(a) || k in Keys(b)
  {
    assert Keys(a + b) == Keys(a) + Keys(b);
  }

  lemma {:induction false} ScanRun(c: Config, s: Store, scan: seq<Entry>)
    requires s.scans == 0
    ensures Scanned(s, scan).scans == 0
    ensures Run(c, s.(scans := 1), Registrations(MissingOf(s.entries, scan))) == Scanned(s, scan).(scans := 1)
    decreases |scan|
  {
    if scan != [] {
      var e := scan[0];
      if Lookup(s.entries, e.key).Some? {
        ScanRun(c, s, scan[1..]);
      } else {
        var next := Registers(s, e.key, e.size);
        ScanRun(c, next, scan[1..]);
        RegistrationRun(c, s, e, MissingOf(next.entries, scan[1..]));
      }
    }
  }

  // ----- evictions that nothing disturbs

  function DroppedOldest(s: Store, deleted: bool): Store
    requires s.entries != []
  {
    s.(entries := s.entries[1..], total := s.total - s.entries[0].size,
       child := if deleted then s.child - {s.entries[0].key} else s.child)
  }

  /** When the child has answered one delete, the next entry is up. */
  lemma UndisturbedRound(c: Config, s: Store, deleted: bool)
    requires s.entries != [] && s.total > c.lowWaterBytes
    ensures Step(c, EvictOn(c, s), EvictDeleteSettles(deleted)) == EvictOn(c, DroppedOldest(s, deleted))
  {
  }

  /** The block being deleted is not indexed. */
  predicate IsUndisturbed(s: Store) { s.phase.Running? ==> s.phase.deleting !in Keys(s.entries) }

  lemma EvictOnIsUndisturbed(c: Config, s: Store)
    requires Accounted(s)
    ensures IsUndisturbed(EvictOn(c, s))
  {
    if s.entries != [] { KeysAfterEviction(s.entries, s.entries[0].key); }
  }

  lemma AnswerIsUndisturbed(c: Config, s: Store, e: Event)
    requires Accounted(s) && IsUndisturbed(s) && (e.EvictDeleteSettles? || e.EvictFinally?)
    ensures Accounted(Step(c, s, e)) && IsUndisturbed(Step(c, s, e))
    ensures !FoldsTooLate(c, s, e) && !LosesBlock(c, s, e)
  {
    StepKeepsAccount(c, s, e);
    if e.EvictDeleteSettles? && s.phase.Running? {
      EvictOnIsUndisturbed(c, if e.deleted then s.(child := s.child - {s.phase.deleting}) else s);
    }
  }

  lemma {:induction false} AnswersStayUndisturbed(c: Config, s: Store, es: seq<Event>)
    requires Accounted(s) && IsUndisturbed(s) && OnlyAnswers(es)
    ensures Accounted(Run(c, s, es)) && IsUndisturbed(Run(c, s, es))
  {
    if es != [] {
      AnswersStayUndisturbed(c, s, es[..|es| - 1]);
      AnswerIsUndisturbed(c, Run(c, s, es[..|es| - 1]), es[|es| - 1]);
    }
  }

  lemma {:induction false} AnswersAreHarmless(c: Config, s: Store, es: seq<Event>)
    requires Accounted(s) && IsUndisturbed(s) && OnlyAnswers(es)
    ensures NeverFoldsTooLate(c, s, es) && NeverLosesBlock(c, s, es)
  {
    if es != [] {
      AnswersAreHarmless(c, s, es[..|es| - 1]);
      AnswersStayUndisturbed(c, s, es[..|es| - 1]);
      AnswerIsUndisturbed(c, Run(c, s, es[..|es| - 1]), es[|es| - 1]);
    }
  }

  // ----- the openings

  predicate IsAtRest(s: Store) { s.phase.Idle? && s.scans == 0 }

  lemma TwoSteps(c: Config, s: Store, a: Event, b: Event)
    ensures Run(c, s, [a] + [b]) == Step(c, Step(c, s, a), b)
    ensures NeverFoldsTooLate(c, s, [a] + [b]) <==> !FoldsTooLate(c, s, a) && !FoldsTooLate(c, Step(c, s, a), b)
    ensures NeverLosesBlock(c, s, [a] + [b]) <==> !LosesBlock(c, s, a) && !LosesBlock(c, Step(c, s, a), b)
  {
    OneStep(c, s, a);
    RunOneMore(c, s, [a], b);
    NeverOneMore(c, s, [a], b);
  }

  lemma OneStep(c: Config, s: Store, a: Event)
    ensures Run(c, s, [a]) == Step(c, s, a)
    ensures NeverFoldsTooLate(c, s, [a]) <==> !FoldsTooLate(c, s, a)
    ensures NeverLosesBlock(c, s, [a]) <==> !LosesBlock(c, s, a)
  {
    assert [] + [a] == [a];
    RunOneMore(c, s, [], a);
    NeverOneMore(c, s, [], a);
  }

  /** A scan over blocks the child holds registers them and leaves everything else at rest. */
  lemma {:induction false} ScanIsHarmless(c: Config, s: Store, found: seq<Entry>)
    requires s.phase.Idle? && s.scans == 1 && Accounted(s)
    requires forall i :: 0 <= i < |found| ==> found[i].key in s.child
    ensures var t := Run(c, s, Registrations(found));
            t.phase.Idle? && t.scans == 1 && t.child == s.child && Accounted(t)
    ensures NeverFoldsTooLate(c, s, Registrations(found)) && NeverLosesBlock(c, s, Registrations(found))
    decreases |found|
  {
    if found != [] {
      var e := ScanRegisters(found[0].key, found[0].size);
      OneStep(c, s, e);
      StepKeepsAccount(c, s, e);
      ScanIsHarmless(c, Step(c, s, e), found[1..]);
      RunConcat(c, s, [e], Registrations(found[1..]));
      NeverConcat(c, s, [e], Registrations(found[1..]));
    }
  }

  lemma RebuildIsHarmless(c: Config, s: Store, found: seq<Entry>)
    requires IsAtRest(s) && Accounted(s) && CanTake(s, Rebuilding(found))
    ensures var es := [ScanStarts] + Registrations(found) + [ScanEnds];
            NeverFoldsTooLate(c, s, es) && NeverLosesBlock(c, s, es) && IsUndisturbed(Run(c, s, es))
  {
    var started := Step(c, s, ScanStarts);
    OneStep(c, s, ScanStarts);
    ScanIsHarmless(c, started, found);
    var scanned := Run(c, started, Registrations(found));
    RunConcat(c, s, [ScanStarts], Registrations(found));
    NeverConcat(c, s, [ScanStarts], Registrations(found));
    RunOneMore(c, s, [ScanStarts] + Registrations(found), ScanEnds);
    NeverOneMore(c, s, [ScanStarts] + Registrations(found), ScanEnds);
    EvictOnIsUndisturbed(c, scanned.(scans := 0));
  }

  lemma StoreIsUndisturbed(c: Config, s: Store, key: string, size: nat)
    requires s.phase.Idle? && Accounted(s)
    ensures IsUndisturbed(EvictsIfNeeded(c, Registers(s, key, size)))
  {
    RegistersKeepsAccount(s, key, size);
    EvictOnIsUndisturbed(c, Registers(s, key, size));
  }

  /** The block of an indexed key is gone for the moment between the two halves of its deletion. */
  predicate DeletesIndexed(s: Store, call: Call) { call.Deleting? && call.key in Keys(s.entries) }

  lemma PutIsHarmless(c: Config, s: Store, key: string, size: nat)
    requires IsAtRest(s) && Accounted(s)
    ensures var es := Opening(Putting(key, size));
            NeverFoldsTooLate(c, s, es) && NeverLosesBlock(c, s, es) && IsUndisturbed(Run(c, s, es))
  {
    TwoSteps(c, s, ChildStored(key), PutRegisters(key, size));
    StoreIsUndisturbed(c, Step(c, s, ChildStored(key)), key, size);
  }

  lemma ReadIsHarmless(c: Config, s: Store, key: string, known: bool, size: nat)
    requires IsAtRest(s) && Accounted(s) && key in s.child
    ensures var es := Opening(Reading(key, known, size));
            NeverFoldsTooLate(c, s, es) && NeverLosesBlock(c, s, es) && IsUndisturbed(Run(c, s, es))
  {
    TwoSteps(c, s, GetStarts(key), GetReadAll(key, known, size));
    StepKeepsAccount(c, s, GetStarts(key));
    StoreIsUndisturbed(c, Step(c, s, GetStarts(key)), key, size);
  }

  lemma OpeningIsHarmless(c: Config, s: Store, call: Call)
    requires IsAtRest(s) && Accounted(s) && CanTake(s, call)
    ensures NeverFoldsTooLate(c, s, Opening(call)) && IsUndisturbed(Run(c, s, Opening(call)))
    ensures NeverLosesBlock(c, s, Opening(call)) <==> !DeletesIndexed(s, call)
  {
    match call {
      case Putting(key, size) => PutIsHarmless(c, s, key, size);
      case Reading(key, known, size) => ReadIsHarmless(c, s, key, known, size);
      case Abandoning(key) => OneStep(c, s, GetStarts(key));
      case Failing(key) => TwoSteps(c, s, GetStarts(key), GetFails(key));
      case Deleting(key) => TwoSteps(c, s, ChildDeleted(key), DeleteUnregisters(key));
      case Rebuilding(found) => RebuildIsHarmless(c, s, found);
    }
  }

  /** A call that is alone never folds too late, and loses a block only by deleting one that is indexed, for
      as long as that call takes. */
  lemma AloneIsHarmless(c: Config, s: Store, call: Call, es: seq<Event>)
    requires IsAtRest(s) && Accounted(s) && CanTake(s, call) && IsAlone(call, es)
    ensures NeverFoldsTooLate(c, s, es)
    ensures NeverLosesBlock(c, s, es) <==> !DeletesIndexed(s, call)
  {
    var opening, answers := Opening(call), es[|Opening(call)|..];
    assert es == opening + answers;
    OpeningIsHarmless(c, s, call);
    RunKeepsAccount(c, s, opening);
    AnswersAreHarmless(c, Run(c, s, opening), answers);
    NeverConcat(c, s, opening, answers);
  }

  lemma {:induction false} RunKeepsAccount(c: Config, s: Store, es: seq<Event>)
    requires Accounted(s)
    ensures Accounted(Run(c, s, es))
  {
    if es != [] {
      RunKeepsAccount(c, s, es[..|es| - 1]);
      StepKeepsAccount(c, Run(c, s, es[..|es| - 1]), es[|es| - 1]);
    }
  }
}
