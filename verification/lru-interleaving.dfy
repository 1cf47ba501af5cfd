/** The blockstore under interleaving: each step is one stretch of code between two awaits. */
module LruInterleaving {
  import opened Options
  import opened Sequences
  import opened LruIndex

  // `_evicting`: none, a run waiting for a child delete, or a run past its last test whose
  // `finally` has not run yet
  datatype Phase = Idle | Running(deleting: string) | Finished

  datatype Store = Store(entries: Entries, total: int, phase: Phase, scans: nat, child: set<string>, uses: seq<string>)

  datatype Event =
    | ChildStored(key: string)
    | ChildDeleted(key: string)
    | PutRegisters(key: string, size: nat)
    | GetStarts(key: string)
    | GetReadAll(key: string, known: bool, size: nat)
    | GetFails(key: string)
    | DeleteUnregisters(key: string)
    | EvictDeleteSettles(deleted: bool)
    | EvictFinally
    | ScanStarts
    | ScanRegisters(key: string, size: nat)
    | ScanEnds

  function Empty(child: set<string>): Store { Store([], 0, Idle, 0, child, []) }

  function Registers(s: Store, key: string, size: nat): Store
  {
    var previous := match Lookup(s.entries, key) case None => 0 case Some(n) => n;
    s.(entries := Register(s.entries, key, size), total := s.total - previous + size, uses := s.uses + [key])
  }

  function Unregisters(s: Store, key: string): Store
  {
    match Lookup(s.entries, key)
    case None => s
    case Some(size) => s.(entries := Remove(s.entries, key), total := s.total - size)
  }

  /** From the loop test of an eviction run up to its next await or its end. */
  function EvictOn(c: Config, s: Store): Store
  {
    if s.total > c.lowWaterBytes && s.entries != []
    then s.(entries := s.entries[1..], total := s.total - s.entries[0].size, phase := Running(s.entries[0].key))
    else s.(phase := Finished)
  }

  /** An over-cap store folds into the registered run, even one that has already finished. */
  function EvictsIfNeeded(c: Config, s: Store): Store
  {
    if s.total <= c.maxBytes || s.phase != Idle then s else EvictOn(c, s)
  }

  function Step(c: Config, s: Store, e: Event): Store
  {
    match e
    case ChildStored(key) => s.(child := s.child + {key})
    case ChildDeleted(key) => s.(child := s.child - {key})
    case PutRegisters(key, size) => EvictsIfNeeded(c, Registers(s, key, size))
    case GetStarts(key) =>
      if Lookup(s.entries, key).Some? then s.(entries := Touch(s.entries, key), uses := s.uses + [key]) else s
    case GetReadAll(key, known, size) => if known then s else EvictsIfNeeded(c, Registers(s, key, size))
    case GetFails(key) => Unregisters(s, key)
    case DeleteUnregisters(key) => Unregisters(s, key)
    case EvictDeleteSettles(deleted) =>
      if s.phase.Running?
      then EvictOn(c, if deleted then s.(child := s.child - {s.phase.deleting}) else s)
      else s
    case EvictFinally => if s.phase.Finished? then s.(phase := Idle) else s
    case ScanStarts => s.(scans := s.scans + 1)
    case ScanRegisters(key, size) => if s.scans > 0 then Registers(s, key, size) else s
    case ScanEnds => if s.scans > 0 then EvictsIfNeeded(c, s.(scans := s.scans - 1)) else s
  }

  function Run(c: Config, s: Store, es: seq<Event>): Store
  {
    if es == [] then s else Step(c, Run(c, s, es[..|es| - 1]), es[|es| - 1])
  }

  /** What holds between any two steps: exact accounting, one entry a key, order of use. */
  ghost predicate Accounted(s: Store)
  {
    s.total == Total(s.entries) && Distinct(Keys(s.entries)) && ByRecency(Keys(s.entries), s.uses)
  }

  lemma RegistersKeepsAccount(s: Store, key: string, size: nat)
    requires Accounted(s)
    ensures Accounted(Registers(s, key, size))
  {
    TotalOfRemove(s.entries, key);
    TotalOfRegister(s.entries, key, size);
    KeysOfRegister(s.entries, key, size);
    RecencyAfterRegister(s.entries, s.uses, key, size);
  }

  lemma UnregistersKeepsAccount(s: Store, key: string)
    requires Accounted(s)
    ensures Accounted(Unregisters(s, key)) && Unregisters(s, key).total <= s.total
    ensures key !in Keys(Unregisters(s, key).entries)
  {
    TotalOfRemove(s.entries, key);
    KeysOfRemove(s.entries, key);
    InWithout(Keys(s.entries), key, key);
    RecencyAfterRemove(Keys(s.entries), s.uses, key);
  }

  lemma TouchKeepsAccount(s: Store, key: string)
    requires Accounted(s) && Lookup(s.entries, key).Some?
    ensures Accounted(s.(entries := Touch(s.entries, key), uses := s.uses + [key]))
  {
    TotalOfTouch(s.entries, key);
    KeysOfRegister(s.entries, key, Lookup(s.entries, key).value);
    RecencyAfterRegister(s.entries, s.uses, key, Lookup(s.entries, key).value);
  }

  lemma EvictOnKeepsAccount(c: Config, s: Store)
    requires Accounted(s)
    ensures Accounted(EvictOn(c, s)) && EvictOn(c, s).total <= s.total
    ensures EvictOn(c, s).phase.Finished? ==> EvictOn(c, s).total <= c.lowWaterBytes
  {
    if s.entries != [] {
      assert Keys(s.entries)[1..] == Keys(s.entries[1..]);
    }
  }

  lemma StoreKeepsAccount(c: Config, s: Store, key: string, size: nat)
    requires Accounted(s)
    ensures Accounted(EvictsIfNeeded(c, Registers(s, key, size)))
  {
    RegistersKeepsAccount(s, key, size);
    EvictOnKeepsAccount(c, Registers(s, key, size));
  }

  lemma AnswerKeepsAccount(c: Config, s: Store, deleted: bool)
    requires Accounted(s) && s.phase.Running?
    ensures Accounted(Step(c, s, EvictDeleteSettles(deleted)))
  {
    EvictOnKeepsAccount(c, if deleted then s.(child := s.child - {s.phase.deleting}) else s);
  }

  lemma StepKeepsAccount(c: Config, s: Store, e: Event)
    requires Accounted(s)
    ensures Accounted(Step(c, s, e))
  {
    match e {
      case PutRegisters(key, size) => StoreKeepsAccount(c, s, key, size);
      case GetStarts(key) =>
        if Lookup(s.entries, key).Some? { TouchKeepsAccount(s, key); }
      case GetReadAll(key, known, size) => StoreKeepsAccount(c, s, key, size);
      case GetFails(key) => UnregistersKeepsAccount(s, key);
      case DeleteUnregisters(key) => UnregistersKeepsAccount(s, key);
      case EvictDeleteSettles(deleted) => if s.phase.Running? { AnswerKeepsAccount(c, s, deleted); }
      case ScanRegisters(key, size) => RegistersKeepsAccount(s, key, size);
      case ScanEnds =>
        if s.scans > 0 { EvictOnKeepsAccount(c, s.(scans := s.scans - 1)); }
      case _ =>
    }
  }

  /** In every interleaving the byte total is the sum of the index and the Map order is the order of use. */
  lemma {:induction false} AccountingHoldsInEveryRun(c: Config, child: set<string>, es: seq<Event>)
    ensures Accounted(Run(c, Empty(child), es))
  {
    if es != [] {
      AccountingHoldsInEveryRun(c, child, es[..|es| - 1]);
      StepKeepsAccount(c, Run(c, Empty(child), es[..|es| - 1]), es[|es| - 1]);
    }
  }

  // ----- when the cap holds

  predicate CapHeld(c: Config, s: Store) { s.total > c.maxBytes ==> s.phase.Running? || s.scans > 0 }

  /** A step that leaves the store over its cap and trusts a run that will not look at it again. */
  predicate FoldsTooLate(c: Config, s: Store, e: Event)
  {
    && s.phase.Finished?
    && match e
       case PutRegisters(key, size) => Registers(s, key, size).total > c.maxBytes && s.scans == 0
       case GetReadAll(key, known, size) => !known && Registers(s, key, size).total > c.maxBytes && s.scans == 0
       case ScanEnds => s.scans == 1 && s.total > c.maxBytes
       case _ => false
  }

  lemma CapAfterStep(c: Config, s: Store, e: Event)
    requires c.lowWaterBytes <= c.maxBytes && Accounted(s) && CapHeld(c, s)
    ensures CapHeld(c, Step(c, s, e)) <==> !FoldsTooLate(c, s, e)
  {
  }

  predicate NeverFoldsTooLate(c: Config, s: Store, es: seq<Event>)
  {
    es == [] ||
    var before := es[..|es| - 1];
    NeverFoldsTooLate(c, s, before) && !FoldsTooLate(c, Run(c, s, before), es[|es| - 1])
  }

  function WithinCapAfter(c: Config, s: Store): seq<Event> -> bool { past => CapHeld(c, Run(c, s, past)) }

  /** Throughout an interleaving the store is within its cap whenever no eviction and no scan is under way,
      if and only if no step folds into a run that has already made its last test. */
  lemma {:induction false} CapHoldsIffNeverFoldedTooLate(c: Config, child: set<string>, es: seq<Event>)
    requires c.lowWaterBytes <= c.maxBytes
    ensures NeverFoldsTooLate(c, Empty(child), es) <==> AtEveryPoint(es, WithinCapAfter(c, Empty(child)))
  {
    AtOneMorePoint(es, WithinCapAfter(c, Empty(child)));
    if es != [] {
      var before := es[..|es| - 1];
      CapHoldsIffNeverFoldedTooLate(c, child, before);
      AtOneMorePoint(before, WithinCapAfter(c, Empty(child)));
      AccountingHoldsInEveryRun(c, child, before);
      if CapHeld(c, Run(c, Empty(child), before)) { CapAfterStep(c, Run(c, Empty(child), before), es[|es| - 1]); }
    }
  }

  /** The gap is real: a put between the last test and the `finally` leaves an idle store over its cap. */
  lemma CapCanBeExceeded() returns (es: seq<Event>)
    ensures var s := Run(Config(10, 5), Empty({}), es);
            s.phase == Idle && s.scans == 0 && s.total > 10
  {
    var c, s0 := Config(10, 5), Empty({});
    es := [PutRegisters("a", 11), EvictDeleteSettles(true), PutRegisters("b", 12), EvictFinally];
    RunOfFour(c, s0, es[0], es[1], es[2], es[3]);
    PutIntoEmpty(c, s0, "a", 11);
    var s1 := Step(c, s0, es[0]);
    var s2 := Step(c, s1, es[1]);
    assert s2 == Store([], 0, Finished, 0, {}, ["a"]);
    PutIntoEmpty(c, s2, "b", 12);
  }

  lemma PutIntoEmpty(c: Config, s: Store, key: string, size: nat)
    requires s.entries == [] && s.total == 0 && c.maxBytes < size && c.lowWaterBytes < size
    ensures var over := s.(entries := [Entry(key, size)], total := size, uses := s.uses + [key]);
            Step(c, s, PutRegisters(key, size))
            == if s.phase.Idle? then over.(entries := [], total := 0, phase := Running(key)) else over
  {
    assert Register([], key, size) == [Entry(key, size)];
  }

  lemma RunOneMore(c: Config, s: Store, es: seq<Event>, e: Event)
    ensures Run(c, s, es + [e]) == Step(c, Run(c, s, es), e)
  {
    assert (es + [e])[..|es|] == es;
  }

  lemma RunTwoMore(c: Config, s: Store, es: seq<Event>, e1: Event, e2: Event)
    ensures Run(c, s, es + [e1, e2]) == Step(c, Step(c, Run(c, s, es), e1), e2)
  {
    assert es + [e1, e2] == es + [e1] + [e2];
    RunOneMore(c, s, es, e1);
    RunOneMore(c, s, es + [e1], e2);
  }

  lemma RunOfFour(c: Config, s: Store, e1: Event, e2: Event, e3: Event, e4: Event)
    ensures Run(c, s, [e1, e2, e3, e4]) == Step(c, Step(c, Step(c, Step(c, s, e1), e2), e3), e4)
  {
    assert [] + [e1, e2] == [e1, e2] && [e1, e2] + [e3, e4] == [e1, e2, e3, e4];
    RunTwoMore(c, s, [], e1, e2);
    RunTwoMore(c, s, [e1, e2], e3, e4);
  }

  // ----- when every entry has its block

  ghost predicate AllBacked(s: Store) { forall k :: k in Keys(s.entries) ==> k in s.child }

  /** Registering a key whose block is gone by now, unless eviction takes the entry out at once. */
  predicate RegistersGone(c: Config, s: Store, key: string, size: nat)
  {
    key !in s.child && !(s.phase.Idle? && s.entries == [] && size > c.maxBytes)
  }

  /** A step after which some entry has no block behind it. */
  predicate LosesBlock(c: Config, s: Store, e: Event)
  {
    match e
    case ChildDeleted(key) => key in Keys(s.entries)
    case PutRegisters(key, size) => RegistersGone(c, s, key, size)
    case GetReadAll(key, known, size) => !known && RegistersGone(c, s, key, size)
    case ScanRegisters(key, _) => s.scans > 0 && key !in s.child
    case EvictDeleteSettles(deleted) =>
      && deleted && s.phase.Running? && s.phase.deleting in Keys(s.entries)
      && !(s.total > c.lowWaterBytes && s.entries[0].key == s.phase.deleting)
    case _ => false
  }

  lemma KeysAfterRegister(es: Entries, key: string, size: nat, k: string)
    requires Distinct(Keys(es))
    ensures k in Keys(Register(es, key, size)) <==> k == key || k in Keys(es)
  {
    KeysOfRegister(es, key, size);
    InWithout(Keys(es), key, k);
  }

  lemma RegistersBacked(s: Store, key: string, size: nat)
    requires Accounted(s) && AllBacked(s)
    ensures AllBacked(Registers(s, key, size)) <==> key in s.child
  {
    KeysAfterRegister(s.entries, key, size, key);
    forall k | k in Keys(Register(s.entries, key, size))
      ensures k == key || k in s.child
    {
      KeysAfterRegister(s.entries, key, size, k);
    }
  }

  lemma KeysAfterEviction(es: Entries, k: string)
    requires es != [] && Distinct(Keys(es))
    ensures k in Keys(es[1..]) <==> k in Keys(es) && k != es[0].key
  {
    assert Keys(es) == [es[0].key] + Keys(es[1..]);
  }

  lemma EvictOnBacked(c: Config, s: Store)
    requires Accounted(s) && AllBacked(s)
    ensures AllBacked(EvictOn(c, s))
  {
    if s.entries != [] {
      forall k | k in Keys(s.entries[1..])
        ensures k in s.child
      {
        KeysAfterEviction(s.entries, k);
      }
    }
  }

  lemma StoreBacked(c: Config, s: Store, key: string, size: nat)
    requires c.lowWaterBytes <= c.maxBytes && Accounted(s) && AllBacked(s)
    ensures AllBacked(EvictsIfNeeded(c, Registers(s, key, size))) <==> !RegistersGone(c, s, key, size)
  {
    var t := Registers(s, key, size);
    RegistersKeepsAccount(s, key, size);
    RegistersBacked(s, key, size);
    if key in s.child {
      EvictOnBacked(c, t);
    } else {
      RemoveAbsent(s.entries, key);
      assert t.entries == s.entries + [Entry(key, size)];
      GoneStaysUnlessAlone(c, s, t, key, size);
    }
  }

  lemma GoneStaysUnlessAlone(c: Config, s: Store, t: Store, key: string, size: nat)
    requires c.lowWaterBytes <= c.maxBytes && key !in s.child && Accounted(s)
    requires t.entries == s.entries + [Entry(key, size)] && t.total == s.total + size
    requires t.phase == s.phase && t.child == s.child
    ensures AllBacked(EvictsIfNeeded(c, t)) <==> !RegistersGone(c, s, key, size)
  {
    var after := EvictsIfNeeded(c, t).entries;
    if RegistersGone(c, s, key, size) {
      assert after != [] && Keys(after)[|after| - 1] == key;
    } else {
      assert after == [];
    }
  }

  lemma DeleteSettlesBacked(c: Config, s: Store)
    requires Accounted(s) && AllBacked(s) && s.phase.Running?
    ensures var gone := s.(child := s.child - {s.phase.deleting});
            AllBacked(EvictOn(c, gone)) <==> !LosesBlock(c, s, EvictDeleteSettles(true))
  {
    var d := s.phase.deleting;
    var after := EvictOn(c, s.(child := s.child - {d})).entries;
    assert s.entries != [] ==> (d in Keys(s.entries[1..]) <==> d in Keys(s.entries) && d != s.entries[0].key) by {
      if s.entries != [] { KeysAfterEviction(s.entries, d); }
    }
    assert d in Keys(after) <==> LosesBlock(c, s, EvictDeleteSettles(true));
    forall k | k in Keys(after) && k != d
      ensures k in s.child - {d}
    {
      if s.entries != [] { KeysAfterEviction(s.entries, k); }
    }
  }

  lemma UnregistersBacked(s: Store, key: string)
    requires Accounted(s) && AllBacked(s)
    ensures AllBacked(Unregisters(s, key))
  {
    KeysOfRemove(s.entries, key);
    SameMembersWithout(Keys(s.entries), key);
  }

  /** A step from a store with a block behind every entry leads to another one, if and only if it does not
      lose a block. */
  lemma BackedAfterStep(c: Config, s: Store, e: Event)
    requires c.lowWaterBytes <= c.maxBytes && Accounted(s) && AllBacked(s)
    ensures AllBacked(Step(c, s, e)) <==> !LosesBlock(c, s, e)
  {
    match e {
      case PutRegisters(key, size) => StoreBacked(c, s, key, size);
      case GetStarts(key) =>
        if Lookup(s.entries, key).Some? { RegistersBacked(s, key, Lookup(s.entries, key).value); }
      case GetReadAll(key, known, size) => StoreBacked(c, s, key, size);
      case GetFails(key) => UnregistersBacked(s, key);
      case DeleteUnregisters(key) => UnregistersBacked(s, key);
      case EvictDeleteSettles(deleted) =>
        EvictOnBacked(c, s);
        if s.phase.Running? { DeleteSettlesBacked(c, s); }
      case ScanRegisters(key, size) => RegistersBacked(s, key, size);
      case ScanEnds =>
        if s.scans > 0 { EvictOnBacked(c, s.(scans := s.scans - 1)); }
      case _ =>
    }
  }

  predicate NeverLosesBlock(c: Config, s: Store, es: seq<Event>)
  {
    es == [] ||
    var before := es[..|es| - 1];
    NeverLosesBlock(c, s, before) && !LosesBlock(c, Run(c, s, before), es[|es| - 1])
  }

  ghost function BackedAfter(c: Config, s: Store): seq<Event> -> bool { past => AllBacked(Run(c, s, past)) }

  /** Throughout an interleaving every entry has its block in the child, if and only if no step loses one. */
  lemma {:induction false} BackedIffNoBlockLost(c: Config, child: set<string>, es: seq<Event>)
    requires c.lowWaterBytes <= c.maxBytes
    ensures NeverLosesBlock(c, Empty(child), es) <==> AtEveryPoint(es, BackedAfter(c, Empty(child)))
  {
    AtOneMorePoint(es, BackedAfter(c, Empty(child)));
    if es != [] {
      var before := es[..|es| - 1];
      BackedIffNoBlockLost(c, child, before);
      AtOneMorePoint(before, BackedAfter(c, Empty(child)));
      AccountingHoldsInEveryRun(c, child, before);
      if AllBacked(Run(c, Empty(child), before)) { BackedAfterStep(c, Run(c, Empty(child), before), es[|es| - 1]); }
    }
  }

  lemma PutEvictsFirst() returns (s: Store)
    ensures s == Store([Entry("b", 7)], 7, Running("a"), 0, {"a", "b"}, ["a", "b"])
    ensures s == Run(Config(10, 5), Empty({}),
                     [ChildStored("a"), PutRegisters("a", 4), ChildStored("b"), PutRegisters("b", 7)])
  {
    var c, s0 := Config(10, 5), Empty({});
    RunOfFour(c, s0, ChildStored("a"), PutRegisters("a", 4), ChildStored("b"), PutRegisters("b", 7));
    var s1 := Step(c, Step(c, s0, ChildStored("a")), PutRegisters("a", 4));
    assert s1 == Store([Entry("a", 4)], 4, Idle, 0, {"a"}, ["a"]);
    assert Register(s1.entries, "b", 7) == [Entry("a", 4), Entry("b", 7)];
    s := Step(c, Step(c, s1, ChildStored("b")), PutRegisters("b", 7));
    assert s.entries == [Entry("b", 7)];
  }

  lemma PutDuringOwnEviction(s: Store)
    requires s == Store([Entry("b", 7)], 7, Running("a"), 0, {"a", "b"}, ["a", "b"])
    ensures var t := Step(Config(10, 5), Step(Config(10, 5), s, PutRegisters("a", 4)), EvictDeleteSettles(true));
            "a" in Keys(t.entries) && "a" !in t.child
  {
    assert Register(s.entries, "a", 4) == [Entry("b", 7), Entry("a", 4)];
    assert Keys([Entry("a", 4)])[0] == "a";
  }

  /** A put that overlaps the eviction of its own key leaves an entry with no block behind it. */
  lemma OverlappingEvictionCanLoseBlock() returns (es: seq<Event>)
    ensures var s := Run(Config(10, 5), Empty({}), es);
            "a" in Keys(s.entries) && "a" !in s.child
  {
    var c := Config(10, 5);
    es := [ChildStored("a"), PutRegisters("a", 4), ChildStored("b"), PutRegisters("b", 7)];
    var s := PutEvictsFirst();
    PutDuringOwnEviction(s);
    RunTwoMore(c, Empty({}), es, PutRegisters("a", 4), EvictDeleteSettles(true));
    es := es + [PutRegisters("a", 4), EvictDeleteSettles(true)];
  }

  /** So does a put that overlaps a delete of its own key. */
  lemma OverlappingDeleteCanLoseBlock(c: Config, key: string, size: nat)
    requires size <= c.maxBytes
    ensures var es := [ChildStored(key), ChildDeleted(key), DeleteUnregisters(key), PutRegisters(key, size)];
            var s := Run(c, Empty({}), es);
            key in Keys(s.entries) && key !in s.child
  {
    var deleted := Step(c, Step(c, Empty({}), ChildStored(key)), ChildDeleted(key));
    assert deleted == Empty({});
    assert Step(c, deleted, DeleteUnregisters(key)) == Empty({});
    PutOfGone(c, key, size);
    RunOfFour(c, Empty({}), ChildStored(key), ChildDeleted(key), DeleteUnregisters(key), PutRegisters(key, size));
  }

  lemma PutOfGone(c: Config, key: string, size: nat)
    requires size <= c.maxBytes
    ensures Step(c, Empty({}), PutRegisters(key, size)) == Store([Entry(key, size)], size, Idle, 0, {}, [key])
    ensures key in Keys([Entry(key, size)])
  {
    assert Register([], key, size) == [Entry(key, size)];
    assert Keys([Entry(key, size)])[0] == key;
  }

  /** A failed read takes such an entry out again and touches no other. */
  lemma FailedReadRepairsIndex(c: Config, s: Store, key: string)
    requires Accounted(s)
    ensures key !in Keys(Step(c, s, GetFails(key)).entries) && Accounted(Step(c, s, GetFails(key)))
    ensures forall k :: k != key ==> Lookup(Step(c, s, GetFails(key)).entries, k) == Lookup(s.entries, k)
  {
    UnregistersKeepsAccount(s, key);
    forall k | k != key ensures Lookup(Remove(s.entries, key), k) == Lookup(s.entries, k) {
      LookupOther(s.entries, key, k);
    }
  }

  lemma {:induction false} LookupOther(es: Entries, key: string, k: string)
    requires k != key
    ensures Lookup(Remove(es, key), k) == Lookup(es, k)
  {
    if es != [] {
      LookupOther(es[1..], key, k);
      if es[0].key != key {
        assert ([es[0]] + Remove(es[1..], key))[1..] == Remove(es[1..], key);
      }
    }
  }
}
