/** The size-capped LRU blockstore for histories in which every call finishes before the next starts. Every
    call is a run of the interleaved store in which nothing else happens. */
module LruBlockstores {
  import opened Options
  import opened Sequences
  import opened LruIndex
  import opened LruInterleaving
  import opened LruCalls

  /** The constructor's checks; a rejected option pair throws. Byte totals are whole numbers, so comparing
      them with the cap is comparing them with its whole part. */
  function Configure(maxBytes: real, lowWaterRatio: Option<real>): (c: Option<Config>)
    ensures c.Some? <==> maxBytes > 0.0 && (lowWaterRatio.Some? ==> 0.0 < lowWaterRatio.value <= 1.0)
    ensures c.Some? ==> c.value.lowWaterBytes <= c.value.maxBytes && c.value.maxBytes as real <= maxBytes
  {
    var ratio := match lowWaterRatio case Some(r) => r case None => 0.75;
    if maxBytes > 0.0 && 0.0 < ratio <= 1.0
    then
      ScaleBound(maxBytes, ratio);
      Some(Config(maxBytes.Floor, (maxBytes * ratio).Floor))
    else None
  }

  lemma ScaleBound(x: real, ratio: real)
    requires x > 0.0 && 0.0 < ratio <= 1.0
    ensures 0.0 < x * ratio <= x && 0 <= (x * ratio).Floor <= x.Floor
  {
  }

  /** Both marks decide over any byte total exactly as the unrounded ones do. */
  lemma WholeMarksDecideAlike(maxBytes: real, lowWaterRatio: Option<real>, total: int)
    requires Configure(maxBytes, lowWaterRatio).Some?
    ensures var c := Configure(maxBytes, lowWaterRatio).value;
            && (total <= c.maxBytes <==> total as real <= maxBytes)
            && (total <= c.lowWaterBytes <==>
                total as real <= maxBytes * if lowWaterRatio.Some? then lowWaterRatio.value else 0.75)
  {
  }

  datatype ReadResult = ReadAll(size: nat) | Abandoned | Failed

  /** What a read turned out to be. */
  function CallOf(s: Store, key: string, result: ReadResult): Call
  {
    match result
    case ReadAll(size) => Reading(key, Lookup(s.entries, key).Some?, size)
    case Abandoned => Abandoning(key)
    case Failed => Failing(key)
  }

  // ----- what holds between two steps of a call

  predicate BackedBy(sizes: Entries, child: map<string, nat>)
  {
    forall e :: e in sizes ==> e.key in child && child[e.key] == e.size
  }

  /** The accounting: one entry a key, in order of use, summed exactly, and backed by a child block. */
  ghost predicate IsSound(c: Config, s: Store, child: map<string, nat>)
  {
    c.lowWaterBytes <= c.maxBytes && Accounted(s) && BackedBy(s.entries, child)
  }

  lemma TouchIsSound(c: Config, s: Store, child: map<string, nat>, key: string)
    requires IsSound(c, s, child)
    ensures IsSound(c, Step(c, s, GetStarts(key)), child)
    ensures Step(c, s, GetStarts(key)).total == s.total
  {
    StepKeepsAccount(c, s, GetStarts(key));
    LookupIsEntry(s.entries, key);
    RemoveKeepsEntries(s.entries, key);
  }

  lemma RegisterIsSound(c: Config, s: Store, child: map<string, nat>, key: string, size: nat)
    requires c.lowWaterBytes <= c.maxBytes && Accounted(s)
    requires key in child && child[key] == size && BackedBy(Remove(s.entries, key), child)
    ensures IsSound(c, Registers(s, key, size), child)
  {
    RegistersKeepsAccount(s, key, size);
  }

  lemma UnregisterIsSound(c: Config, s: Store, child: map<string, nat>, key: string)
    requires c.lowWaterBytes <= c.maxBytes && Accounted(s) && BackedBy(Remove(s.entries, key), child)
    ensures var t := Unregisters(s, key);
            && IsSound(c, t, child) && t.total <= s.total
            && t.entries == Remove(s.entries, key) && key !in Keys(t.entries)
  {
    UnregistersKeepsAccount(s, key);
    RemoveAbsent(s.entries, key);
  }

  lemma DropIsSound(c: Config, s: Store, child: map<string, nat>, deleted: bool)
    requires IsSound(c, s, child) && s.entries != []
    ensures IsSound(c, DroppedOldest(s, deleted), if deleted then child - {s.entries[0].key} else child)
  {
    assert Keys(s.entries)[1..] == Keys(s.entries[1..]);
    OthersDifferFromOldest(s.entries);
  }

  /** Storing or deleting a block concerns no other entry. */
  lemma OthersStayBacked(sizes: Entries, child: map<string, nat>, key: string, size: nat)
    requires Distinct(Keys(sizes)) && BackedBy(sizes, child)
    ensures BackedBy(Remove(sizes, key), child[key := size]) && BackedBy(Remove(sizes, key), child - {key})
    ensures BackedBy(Remove(sizes, key), child)
  {
    RemoveKeepsEntries(sizes, key);
    OthersKeepTheirKey(sizes, key);
  }

  /** From one index and child to another, nothing leaves the child but blocks whose entry was evicted, and no
      block changes. */
  ghost predicate OnlyEvictedGo(before: Entries, held: map<string, nat>, after: Entries, child: map<string, nat>)
  {
    && (forall k :: k in Keys(after) ==> k in Keys(before))
    && (forall k :: k in child ==> k in held && child[k] == held[k])
    && forall k :: k in held && k !in child ==> k in Keys(before) && k !in Keys(after)
  }

  lemma DropKeepsOthers(before: Entries, held: map<string, nat>, now: Entries, child: map<string, nat>, deleted: bool)
    requires OnlyEvictedGo(before, held, now, child) && now != [] && Distinct(Keys(now))
    ensures OnlyEvictedGo(before, held, now[1..], if deleted then child - {now[0].key} else child)
  {
    forall k
      ensures k in Keys(now[1..]) <==> k in Keys(now) && k != now[0].key
    {
      KeysAfterEviction(now, k);
    }
  }

  class LruBlockstore {
    const maxBytes: nat
    const lowWaterBytes: nat
    // what the wrapped store holds: block sizes by key
    var child: map<string, nat>
    // the Map from key to size, in insertion order
    var sizes: Entries
    var totalBytes: int
    // every key in the order it was used, oldest first
    ghost var uses: seq<string>

    ghost function Settings(): Config { Config(maxBytes, lowWaterBytes) }

    /** The same state as an interleaved store at rest. */
    ghost function View(): Store
      reads this
    {
      Store(sizes, totalBytes, Idle, 0, child.Keys, uses)
    }

    ghost predicate Valid()
      reads this
    {
      IsSound(Settings(), View(), child)
    }

    ghost predicate Capped()
      reads this
    {
      totalBytes <= maxBytes
    }

    constructor (config: Config, child: map<string, nat>)
      requires config.lowWaterBytes <= config.maxBytes
      ensures Valid() && Capped() && View() == Empty(child.Keys) && this.child == child
      ensures maxBytes == config.maxBytes && lowWaterBytes == config.lowWaterBytes
    {
      maxBytes, lowWaterBytes := config.maxBytes, config.lowWaterBytes;
      this.child := child;
      sizes, totalBytes, uses := [], 0, [];
    }

    method TouchKey(key: string)
      requires Valid()
      modifies this`sizes, this`uses
      ensures Valid() && View() == Step(Settings(), old(View()), GetStarts(key))
      ensures sizes == Touch(old(sizes), key)
    {
      TouchIsSound(Settings(), View(), child, key);
      var size := Lookup(sizes, key);
      if size == None { return; }
      sizes := Remove(sizes, key);
      sizes := sizes + [Entry(key, size.value)];
      uses := uses + [key];
    }

    method RegisterKey(key: string, size: nat)
      requires lowWaterBytes <= maxBytes && Accounted(View())
      requires key in child && child[key] == size && BackedBy(Remove(sizes, key), child)
      modifies this`sizes, this`totalBytes, this`uses
      ensures Valid() && View() == Registers(old(View()), key, size)
      ensures sizes == Register(old(sizes), key, size) && uses == old(uses) + [key]
    {
      RegisterIsSound(Settings(), View(), child, key, size);
      RemoveAbsent(sizes, key);
      var previous := Lookup(sizes, key);
      if previous != None {
        totalBytes := totalBytes - previous.value;
        sizes := Remove(sizes, key);
      }
      sizes := sizes + [Entry(key, size)];
      totalBytes := totalBytes + size;
      uses := uses + [key];
    }

    method UnregisterKey(key: string)
      requires lowWaterBytes <= maxBytes && Accounted(View()) && BackedBy(Remove(sizes, key), child)
      modifies this`sizes, this`totalBytes
      ensures Valid() && View() == Unregisters(old(View()), key)
      ensures sizes == Remove(old(sizes), key) && key !in Keys(sizes) && totalBytes <= old(totalBytes)
    {
      UnregisterIsSound(Settings(), View(), child, key);
      var size := Lookup(sizes, key);
      if size == None { return; }
      sizes := Remove(sizes, key);
      totalBytes := totalBytes - size.value;
    }

    /** One round of the eviction loop: an entry is given up even when the child cannot delete its block. */
    method DropOldest() returns (deleted: bool)
      requires Valid() && sizes != []
      modifies this`sizes, this`totalBytes, this`child
      ensures Valid() && View() == DroppedOldest(old(View()), deleted)
      ensures child == if deleted then old(child) - {old(sizes)[0].key} else old(child)
    {
      deleted := *;
      DropIsSound(Settings(), View(), child, deleted);
      var oldest := sizes[0];
      sizes := sizes[1..];
      totalBytes := totalBytes - oldest.size;
      if deleted {
        child := child - {oldest.key};
      }
    }

    /** Oldest first. The child's answers are the only steps taken. */
    method Evict() returns (ghost answers: seq<Event>)
      requires Valid()
      modifies this`sizes, this`totalBytes, this`child
      ensures Valid()
      ensures sizes == EvictTo(old(sizes), lowWaterBytes) && totalBytes <= lowWaterBytes
      ensures OnlyEvictedGo(old(sizes), old(child), sizes, child)
      ensures OnlyAnswers(answers) && View() == Run(Settings(), EvictOn(Settings(), old(View())), answers)
    {
      answers := [];
      while totalBytes > lowWaterBytes
        invariant Valid() && OnlyAnswers(answers)
        invariant EvictOn(Settings(), View()) == Run(Settings(), EvictOn(Settings(), old(View())), answers)
        invariant EvictTo(sizes, lowWaterBytes) == EvictTo(old(sizes), lowWaterBytes)
        invariant OnlyEvictedGo(old(sizes), old(child), sizes, child)
        decreases |sizes|
      {
        ghost var before, held := View(), child;
        var deleted := DropOldest();
        DropKeepsOthers(old(sizes), old(child), before.entries, held, deleted);
        UndisturbedRound(Settings(), before, deleted);
        RunOneMore(Settings(), EvictOn(Settings(), old(View())), answers, EvictDeleteSettles(deleted));
        answers := answers + [EvictDeleteSettles(deleted)];
      }
      RunOneMore(Settings(), EvictOn(Settings(), old(View())), answers, EvictFinally);
      answers := answers + [EvictFinally];
    }

    method EvictIfNeeded() returns (ghost answers: seq<Event>)
      requires Valid()
      modifies this`sizes, this`totalBytes, this`child
      ensures Valid() && Capped()
      ensures sizes == EvictIfOver(old(sizes), maxBytes, lowWaterBytes)
      ensures OnlyEvictedGo(old(sizes), old(child), sizes, child)
      ensures OnlyAnswers(answers) && View() == Run(Settings(), EvictsIfNeeded(Settings(), old(View())), answers)
    {
      answers := [];
      if totalBytes <= maxBytes { return; }
      answers := Evict();
    }

    /** Counts a block the child holds, and makes room. */
    method Admit(key: string, size: nat) returns (ghost answers: seq<Event>)
      requires lowWaterBytes <= maxBytes && Accounted(View())
      requires key in child && child[key] == size && BackedBy(Remove(sizes, key), child)
      modifies this
      ensures Valid() && Capped()
      ensures sizes == EvictIfOver(Register(old(sizes), key, size), maxBytes, lowWaterBytes)
      ensures uses == old(uses) + [key] && OnlyAnswers(answers)
      ensures OnlyEvictedGo(Register(old(sizes), key, size), old(child), sizes, child)
      ensures View() == Run(Settings(), EvictsIfNeeded(Settings(), Registers(old(View()), key, size)), answers)
    {
      RegisterKey(key, size);
      answers := EvictIfNeeded();
    }

    method StoreInChild(key: string, size: nat)
      requires Valid()
      modifies this`child
      ensures child == old(child)[key := size] && View() == old(View()).(child := old(View()).child + {key})
      ensures Accounted(View()) && BackedBy(Remove(sizes, key), child)
    {
      OthersStayBacked(sizes, child, key, size);
      child := child[key := size];
    }

    /** `childFails` stands for the wrapped store throwing. */
    method Put(key: string, size: nat, childFails: bool) returns (stored: bool, ghost steps: seq<Event>)
      requires Valid() && Capped()
      modifies this
      ensures Valid() && Capped()
      ensures stored == !childFails
      ensures stored ==> sizes == EvictIfOver(Register(old(sizes), key, size), maxBytes, lowWaterBytes)
                         && uses == old(uses) + [key]
      ensures stored ==> OnlyEvictedGo(Register(old(sizes), key, size), old(child)[key := size], sizes, child)
      ensures !stored ==> unchanged(this)
      ensures if stored then IsAlone(Putting(key, size), steps) else steps == []
      ensures View() == Run(Settings(), old(View()), steps)
    {
      if childFails { return false, []; }
      StoreInChild(key, size);
      ghost var answers := Admit(key, size);
      PutRun(Settings(), old(View()), key, size, answers);
      stored, steps := true, Opening(Putting(key, size)) + answers;
    }

    method StartReading(key: string) returns (known: bool)
      requires Valid()
      modifies this`sizes, this`uses
      ensures Valid() && View() == Step(Settings(), old(View()), GetStarts(key))
      ensures sizes == Touch(old(sizes), key) && known == Lookup(old(sizes), key).Some?
    {
      known := Lookup(sizes, key) != None;
      TouchIsSound(Settings(), View(), child, key);
      if known { TouchKey(key); }
    }

    /** The end of a read: a block that was not counted when the read began is counted now. */
    method FinishReading(key: string, known: bool) returns (ghost answers: seq<Event>)
      requires Valid() && Capped() && key in child
      modifies this
      ensures Valid() && Capped() && OnlyAnswers(answers)
      ensures sizes == if known then old(sizes)
                       else EvictIfOver(Register(old(sizes), key, old(child)[key]), maxBytes, lowWaterBytes)
      ensures uses == if known then old(uses) else old(uses) + [key]
      ensures OnlyEvictedGo(
                if known then old(sizes) else Register(old(sizes), key, old(child)[key]), old(child), sizes, child)
      ensures View() == Run(Settings(), Step(Settings(), old(View()), GetReadAll(key, known, old(child)[key])), answers)
    {
      answers := [];
      if !known {
        OthersStayBacked(sizes, child, key, 0);
        answers := Admit(key, child[key]);
      }
    }

    method Get(key: string, childFails: bool, abandon: bool) returns (result: ReadResult, ghost steps: seq<Event>)
      requires Valid() && Capped()
      modifies this
      ensures Valid() && Capped()
      ensures result.Failed? <==> childFails || key !in old(child)
      ensures result.Abandoned? <==> !childFails && key in old(child) && abandon
      ensures !result.ReadAll? ==> child == old(child)
      ensures result.ReadAll? ==>
                OnlyEvictedGo(
                  if key in Keys(old(sizes)) then Touch(old(sizes), key) else Register(old(sizes), key, result.size),
                  old(child), sizes, child)
      ensures result.Failed? ==> sizes == Remove(Touch(old(sizes), key), key) && key !in Keys(sizes)
      ensures result.Abandoned? ==> sizes == Touch(old(sizes), key)
      ensures result.ReadAll? ==>
                && result.size == old(child)[key]
                && uses == old(uses) + [key]
                && sizes == if key in Keys(old(sizes)) then Touch(old(sizes), key)
                            else EvictIfOver(Register(old(sizes), key, result.size), maxBytes, lowWaterBytes)
      ensures IsAlone(CallOf(old(View()), key, result), steps) && View() == Run(Settings(), old(View()), steps)
    {
      var known := StartReading(key);
      if childFails || key !in child {
        OthersStayBacked(sizes, child, key, 0);
        UnregisterKey(key);
        FailedRun(Settings(), old(View()), key);
        return Failed, Opening(Failing(key));
      }
      if abandon {
        OneStep(Settings(), old(View()), GetStarts(key));
        return Abandoned, Opening(Abandoning(key));
      }
      result := ReadAll(child[key]);
      ghost var answers := FinishReading(key, known);
      ReadRun(Settings(), old(View()), key, known, result.size, answers);
      steps := Opening(Reading(key, known, result.size)) + answers;
    }

    method Delete(key: string, childFails: bool) returns (deleted: bool, ghost steps: seq<Event>)
      requires Valid() && Capped()
      modifies this
      ensures Valid() && Capped()
      ensures deleted == !childFails
      ensures deleted ==> sizes == Remove(old(sizes), key) && key !in Keys(sizes) && child == old(child) - {key}
      ensures !deleted ==> unchanged(this)
      ensures if deleted then IsAlone(Deleting(key), steps) else steps == []
      ensures View() == Run(Settings(), old(View()), steps)
    {
      if childFails { return false, []; }
      OthersStayBacked(sizes, child, key, 0);
      TwoSteps(Settings(), View(), ChildDeleted(key), DeleteUnregisters(key));
      child := child - {key};
      UnregisterKey(key);
      deleted, steps := true, Opening(Deleting(key));
    }

    /** A scanned block is counted unless it already is. */
    method CountMissing(e: Entry) returns (isMissing: bool)
      requires Valid() && e.key in child && child[e.key] == e.size
      modifies this`sizes, this`totalBytes, this`uses
      ensures Valid() && isMissing == Lookup(old(sizes), e.key).None?
      ensures View() == if isMissing then Registers(old(View()), e.key, e.size) else old(View())
      ensures |sizes| == |old(sizes)| + if isMissing then 1 else 0
    {
      isMissing := Lookup(sizes, e.key) == None;
      if isMissing {
        RemoveAbsent(sizes, e.key);
        RegisterKey(e.key, e.size);
      }
    }

    method ScanChild(scan: seq<Entry>) returns (scanned: nat)
      requires Valid() && BackedBy(scan, child)
      modifies this`sizes, this`totalBytes, this`uses
      ensures Valid() && View() == Scanned(old(View()), scan) && scanned == |sizes| - |old(sizes)|
    {
      scanned := 0;
      for i := 0 to |scan|
        invariant Valid() && scanned == |sizes| - |old(sizes)|
        invariant Scanned(View(), scan[i..]) == Scanned(old(View()), scan)
      {
        assert scan[i..][0] == scan[i] && scan[i..][1..] == scan[i + 1..];
        var isMissing := CountMissing(scan[i]);
        if isMissing { scanned := scanned + 1; }
      }
    }

    /** `scan` is what the child's `getAll` yields before it ends or throws. */
    method RebuildIndex(scan: seq<Entry>) returns (blocks: nat, bytes: int, ghost steps: seq<Event>)
      requires Valid() && Capped() && BackedBy(scan, child)
      modifies this
      ensures Valid() && Capped()
      ensures sizes == EvictIfOver(old(sizes) + MissingOf(old(sizes), scan), maxBytes, lowWaterBytes)
      ensures bytes == totalBytes && blocks == |MissingOf(old(sizes), scan)|
      ensures OnlyEvictedGo(old(sizes) + MissingOf(old(sizes), scan), old(child), sizes, child)
      ensures IsAlone(Rebuilding(MissingOf(old(sizes), scan)), steps) && View() == Run(Settings(), old(View()), steps)
    {
      ScannedEntries(View(), scan);
      blocks := ScanChild(scan);
      ghost var answers := EvictIfNeeded();
      RebuildRun(Settings(), old(View()), scan, answers);
      bytes, steps := totalBytes, Opening(Rebuilding(MissingOf(old(sizes), scan))) + answers;
    }
  }

  // ----- any history of calls

  datatype Request =
    | PutRequest(key: string, size: nat, childFails: bool)
    | GetRequest(key: string, childFails: bool, abandon: bool)
    | DeleteRequest(key: string, childFails: bool)
    | RebuildRequest(scan: seq<Entry>)

  lemma ScanCanBeTaken(es: Entries, scan: seq<Entry>, child: map<string, nat>, s: Store)
    requires BackedBy(scan, child) && s.child == child.Keys
    ensures CanTake(s, Rebuilding(MissingOf(es, scan)))
  {
    var found := MissingOf(es, scan);
    forall i | 0 <= i < |found|
      ensures found[i].key in s.child
    {
      MissingIsScanned(es, scan, found[i]);
    }
  }

  /** One call, alone: the cap is never given up, and only a delete ever leaves an entry without its block. */
  method Serve(store: LruBlockstore, request: Request) returns (ghost steps: seq<Event>)
    requires store.Valid() && store.Capped()
    modifies store
    ensures store.Valid() && store.Capped()
    ensures store.View() == Run(store.Settings(), old(store.View()), steps)
    ensures NeverFoldsTooLate(store.Settings(), old(store.View()), steps)
    ensures !request.DeleteRequest? ==> NeverLosesBlock(store.Settings(), old(store.View()), steps)
  {
    ghost var c, before := store.Settings(), store.View();
    match request {
      case PutRequest(key, size, childFails) =>
        var stored;
        stored, steps := store.Put(key, size, childFails);
        if stored { AloneIsHarmless(c, before, Putting(key, size), steps); }
      case GetRequest(key, childFails, abandon) =>
        var result;
        result, steps := store.Get(key, childFails, abandon);
        AloneIsHarmless(c, before, CallOf(before, key, result), steps);
      case DeleteRequest(key, childFails) =>
        var deleted;
        deleted, steps := store.Delete(key, childFails);
        if deleted { AloneIsHarmless(c, before, Deleting(key), steps); }
      case RebuildRequest(scan) =>
        steps := [];
        if BackedBy(scan, store.child) {
          ScanCanBeTaken(store.sizes, scan, store.child, before);
          var _, _, taken := store.RebuildIndex(scan);
          steps := taken;
          AloneIsHarmless(c, before, Rebuilding(MissingOf(before.entries, scan)), steps);
        }
    }
  }

  /** Any history of calls, each finished before the next: it is a run of the interleaved store that never
      gives up the cap, and loses no block unless some call deletes one. */
  method Drive(store: LruBlockstore, requests: seq<Request>) returns (ghost es: seq<Event>)
    requires store.Valid() && store.Capped()
    modifies store
    ensures store.Valid() && store.Capped()
    ensures store.View() == Run(store.Settings(), old(store.View()), es)
    ensures NeverFoldsTooLate(store.Settings(), old(store.View()), es)
    ensures (forall r :: r in requests ==> !r.DeleteRequest?) ==>
              NeverLosesBlock(store.Settings(), old(store.View()), es)
  {
    es := [];
    for i := 0 to |requests|
      invariant store.Valid() && store.Capped()
      invariant store.View() == Run(store.Settings(), old(store.View()), es)
      invariant NeverFoldsTooLate(store.Settings(), old(store.View()), es)
      invariant (forall r :: r in requests ==> !r.DeleteRequest?) ==>
                  NeverLosesBlock(store.Settings(), old(store.View()), es)
    {
      ghost var steps := Serve(store, requests[i]);
      RunConcat(store.Settings(), old(store.View()), es, steps);
      NeverConcat(store.Settings(), old(store.View()), es, steps);
      es := es + steps;
    }
  }
}
