/** Background verdicts on author names: which (name, signer) pairs are asked about, what an attempt
    writes, and how soon the next attempt may start. */
module AuthorVerdicts {
  import opened Names
  import opened Options
  import opened NameResolvers
  import opened Sequences

  datatype Author = Author(name: string, signer: string)

  // The hash in the program only shortens this key.
  function CacheKey(a: Author): string { a.name + a.signer }

  // What the protocol cannot see into: capable resolvers, key shapes, and the address of a signer.
  datatype World = World(canResolve: string -> bool, isIpns: string -> bool, addressOf: string -> string)

  datatype Ttls = Ttls(trueMs: nat, falseMs: nat, failedMs: nat)

  // an entry of either in-memory cache; a ttl of zero never expires
  datatype Stamp<T> = Stamp(value: T, setAt: nat, ttl: nat)

  predicate IsLive<T>(e: Stamp<T>, now: nat) { e.ttl == 0 || now <= e.setAt + e.ttl }

  // what an attempt comes to: a verdict, nothing learned, or called off
  datatype Settled = Verdict(value: bool) | Unknown | Withdrawn

  function SettledAs(w: World, r: Resolution, signer: string): Settled
  {
    match r
    case Key(key) => Verdict(w.isIpns(key) && key == w.addressOf(signer))
    case NoKey => Verdict(false)
    case AllFailed => Unknown
    case NoResolver => Unknown
    case Aborted => Withdrawn
  }

  // every start and every end so far; never read by the protocol
  datatype Entry =
    | Started(key: string, at: nat)
    | Ended(key: string, at: nat, settled: Settled, ttl: nat, author: Author, resolution: Resolution)

  datatype State = State(
    now: nat, verdicts: map<string, Stamp<bool>>, failures: map<string, Stamp<bool>>,
    inFlight: set<string>, attempts: seq<Author>, log: seq<Entry>)

  datatype Event =
    | TimePasses(ms: nat)
    | Called(authors: seq<Author>)
    | Settles(attempt: nat, resolution: Resolution)

  const FRESH: State := State(0, map[], map[], {}, [], [])

  // ----- steps

  predicate IsBlocked(s: State, key: string)
  {
    || (key in s.verdicts && IsLive(s.verdicts[key], s.now))
    || key in s.inFlight
    || (key in s.failures && IsLive(s.failures[key], s.now))
  }

  predicate Admits(w: World, s: State, a: Author)
  {
    IsStringDomain(a.name) && w.canResolve(a.name) && !IsBlocked(s, CacheKey(a))
  }

  function Admit(s: State, a: Author): State
  {
    s.(inFlight := s.inFlight + {CacheKey(a)}, attempts := s.attempts + [a],
       log := s.log + [Started(CacheKey(a), s.now)])
  }

  /** One call: every author that nothing blocks gets an attempt. */
  function Call(w: World, s: State, authors: seq<Author>): State
  {
    if authors == [] then s
    else
      var before := Call(w, s, authors[..|authors| - 1]);
      var last := authors[|authors| - 1];
      if Admits(w, before, last) then Admit(before, last) else before
  }

  function TtlOf(t: Ttls, settled: Settled): nat
  {
    match settled
    case Verdict(value) => if value then t.trueMs else t.falseMs
    case Unknown => t.failedMs
    case Withdrawn => 0
  }

  /** The end of an attempt: its write to a cache and its release happen in one go. */
  function Settle(w: World, t: Ttls, s: State, i: nat, r: Resolution): State
    requires i < |s.attempts|
  {
    var a := s.attempts[i];
    var key, settled := CacheKey(a), SettledAs(w, r, a.signer);
    s.(verdicts := if settled.Verdict? then s.verdicts[key := Stamp(settled.value, s.now, TtlOf(t, settled))]
                   else s.verdicts,
       failures := if settled.Unknown? then s.failures[key := Stamp(true, s.now, TtlOf(t, settled))] else s.failures,
       inFlight := s.inFlight - {key},
       attempts := s.attempts[..i] + s.attempts[i + 1..],
       log := s.log + [Ended(key, s.now, settled, TtlOf(t, settled), a, r)])
  }

  function Step(w: World, t: Ttls, s: State, e: Event): State
  {
    match e
    case TimePasses(ms) => s.(now := s.now + ms)
    case Called(authors) => Call(w, s, authors)
    case Settles(i, r) => if i < |s.attempts| then Settle(w, t, s, i, r) else s
  }

  function Run(w: World, t: Ttls, es: seq<Event>): State
  {
    if es == [] then FRESH else Step(w, t, Run(w, t, es[..|es| - 1]), es[|es| - 1])
  }

  // ----- one attempt at a time

  function KeysOf(attempts: seq<Author>): (ks: seq<string>)
    ensures |ks| == |attempts| && forall i :: 0 <= i < |ks| ==> ks[i] == CacheKey(attempts[i])
  {
    seq(|attempts|, i requires 0 <= i < |attempts| => CacheKey(attempts[i]))
  }

  /** The guard set is exactly the keys of the outstanding attempts, and no key has two. */
  ghost predicate OneAttemptAKey(s: State)
  {
    Distinct(KeysOf(s.attempts)) && forall key :: key in s.inFlight <==> key in KeysOf(s.attempts)
  }

  lemma AdmitKeepsOne(s: State, a: Author)
    requires OneAttemptAKey(s) && CacheKey(a) !in s.inFlight
    ensures OneAttemptAKey(Admit(s, a))
  {
    assert KeysOf(s.attempts + [a]) == KeysOf(s.attempts) + [CacheKey(a)];
    DistinctAppend(KeysOf(s.attempts), CacheKey(a));
  }

  lemma SettleKeepsOne(w: World, t: Ttls, s: State, i: nat, r: Resolution)
    requires OneAttemptAKey(s) && i < |s.attempts|
    ensures OneAttemptAKey(Settle(w, t, s, i, r))
  {
    var ks := KeysOf(s.attempts);
    assert KeysOf(s.attempts[..i] + s.attempts[i + 1..]) == ks[..i] + ks[i + 1..];
    WithoutAt(ks, i);
    WithoutIsDistinct(ks, ks[i]);
    SameMembersWithout(ks, ks[i]);
  }

  // ----- pacing

  predicate HasPassed(e: Entry, now: nat)
    requires e.Ended?
  {
    e.ttl != 0 && now > e.at + e.ttl
  }

  /** Ends that pace the next attempt: those that wrote a verdict or learned nothing. */
  predicate Paces(e: Entry, key: string) { e.Ended? && e.key == key && !e.settled.Withdrawn? }

  predicate AllPassed(log: seq<Entry>, key: string, now: nat)
  {
    forall i :: 0 <= i < |log| && Paces(log[i], key) ==> HasPassed(log[i], now)
  }

  /** No start in the log comes before an earlier end of the same key has run out. */
  predicate IsPaced(log: seq<Entry>)
  {
    log == [] ||
    (&& IsPaced(log[..|log| - 1])
     && (log[|log| - 1].Started? ==> AllPassed(log[..|log| - 1], log[|log| - 1].key, log[|log| - 1].at)))
  }

  predicate OutlastsEnd<T>(c: Stamp<T>, e: Entry)
    requires e.Ended?
  {
    c.ttl == 0 || (e.ttl != 0 && e.at + e.ttl <= c.setAt + c.ttl)
  }

  /** An end that has not run out is backed by a cache entry that lasts at least as long. */
  predicate IsCovered(s: State, e: Entry)
  {
    e.Ended? && !e.settled.Withdrawn? ==>
      || HasPassed(e, s.now)
      || (e.key in s.verdicts && OutlastsEnd(s.verdicts[e.key], e))
      || (e.key in s.failures && OutlastsEnd(s.failures[e.key], e))
  }

  predicate PacingHolds(s: State)
  {
    && IsPaced(s.log)
    && (forall i :: 0 <= i < |s.log| ==> IsCovered(s, s.log[i]))
    && (forall key :: key in s.inFlight ==> AllPassed(s.log, key, s.now))
  }

  lemma AdmitIsPaced(s: State, a: Author)
    requires PacingHolds(s) && !IsBlocked(s, CacheKey(a))
    ensures PacingHolds(Admit(s, a))
  {
  }

  lemma TimeKeepsPacing(s: State, ms: nat)
    requires PacingHolds(s)
    ensures PacingHolds(s.(now := s.now + ms))
  {
  }

  lemma SettleIsPaced(w: World, t: Ttls, s: State, i: nat, r: Resolution)
    requires PacingHolds(s) && OneAttemptAKey(s) && i < |s.attempts|
    ensures PacingHolds(Settle(w, t, s, i, r))
  {
    var after, key := Settle(w, t, s, i, r), CacheKey(s.attempts[i]);
    assert KeysOf(s.attempts)[i] == key;
    assert key in s.inFlight && AllPassed(s.log, key, s.now);
    assert after.log[..|s.log|] == s.log;
    forall j | 0 <= j < |after.log| ensures IsCovered(after, after.log[j]) {
      if j < |s.log| {
        assert IsCovered(s, s.log[j]);
        assert Paces(s.log[j], key) ==> HasPassed(s.log[j], s.now);
      }
    }
    forall other | other in after.inFlight ensures AllPassed(after.log, other, after.now) {
      assert AllPassed(s.log, other, s.now);
    }
  }

  lemma {:induction false} CallKeepsInvariants(w: World, s: State, authors: seq<Author>)
    requires OneAttemptAKey(s) && PacingHolds(s)
    ensures OneAttemptAKey(Call(w, s, authors)) && PacingHolds(Call(w, s, authors))
  {
    if authors != [] {
      CallKeepsInvariants(w, s, authors[..|authors| - 1]);
      var before, last := Call(w, s, authors[..|authors| - 1]), authors[|authors| - 1];
      if Admits(w, before, last) {
        AdmitKeepsOne(before, last);
        AdmitIsPaced(before, last);
      }
    }
  }

  lemma StepKeepsInvariants(w: World, t: Ttls, s: State, e: Event)
    requires OneAttemptAKey(s) && PacingHolds(s)
    ensures OneAttemptAKey(Step(w, t, s, e)) && PacingHolds(Step(w, t, s, e))
  {
    match e {
      case TimePasses(ms) => TimeKeepsPacing(s, ms);
      case Called(authors) => CallKeepsInvariants(w, s, authors);
      case Settles(i, r) =>
        if i < |s.attempts| {
          SettleKeepsOne(w, t, s, i, r);
          SettleIsPaced(w, t, s, i, r);
        }
    }
  }

  lemma {:induction false} RunKeepsInvariants(w: World, t: Ttls, es: seq<Event>)
    ensures OneAttemptAKey(Run(w, t, es)) && PacingHolds(Run(w, t, es))
  {
    if es != [] {
      RunKeepsInvariants(w, t, es[..|es| - 1]);
      StepKeepsInvariants(w, t, Run(w, t, es[..|es| - 1]), es[|es| - 1]);
    }
  }

  /** Over all runs and overlapping callers there is at most one outstanding attempt per key. */
  lemma AtMostOneAttempt(w: World, t: Ttls, es: seq<Event>, i: nat, j: nat)
    requires i < j < |Run(w, t, es).attempts|
    ensures CacheKey(Run(w, t, es).attempts[i]) != CacheKey(Run(w, t, es).attempts[j])
  {
    RunKeepsInvariants(w, t, es);
    DistinctIndices(KeysOf(Run(w, t, es).attempts), i, j);
  }

  lemma {:induction false} PacedAt(log: seq<Entry>, i: nat, j: nat)
    requires IsPaced(log) && i < j < |log| && Paces(log[i], log[j].key) && log[j].Started?
    ensures log[j].at > log[i].at + log[i].ttl
  {
    if j == |log| - 1 {
      assert log[..|log| - 1][i] == log[i];
    } else {
      PacedAt(log[..|log| - 1], i, j);
    }
  }

  /** What an attempt logs is what its resolution settles, for the ttl of that outcome. */
  predicate IsFaithful(w: World, t: Ttls, e: Entry)
  {
    e.Ended? ==>
      && e.key == CacheKey(e.author) && e.settled == SettledAs(w, e.resolution, e.author.signer)
      && e.ttl == TtlOf(t, e.settled)
  }

  lemma {:induction false} LogIsFaithful(w: World, t: Ttls, es: seq<Event>, i: nat)
    requires i < |Run(w, t, es).log|
    ensures IsFaithful(w, t, Run(w, t, es).log[i])
  {
    var s := Run(w, t, es[..|es| - 1]);
    match es[|es| - 1] {
      case TimePasses(_) => LogIsFaithful(w, t, es[..|es| - 1], i);
      case Called(authors) =>
        CallOnlyStarts(w, s, authors);
        if i < |s.log| { LogIsFaithful(w, t, es[..|es| - 1], i); }
      case Settles(k, r) =>
        if i < |s.log| { LogIsFaithful(w, t, es[..|es| - 1], i); }
    }
  }

  /** After an attempt that was not called off, the next one for the same key starts only once its outcome
      has run out: the ttl of a `true`, the shorter one of a `false`, or the retry floor when nothing was learned. */
  lemma NextAttemptWaits(w: World, t: Ttls, es: seq<Event>, i: nat, j: nat)
    requires i < j < |Run(w, t, es).log|
    requires Run(w, t, es).log[i].Ended? && !Run(w, t, es).log[i].settled.Withdrawn?
    requires Run(w, t, es).log[j].Started? && Run(w, t, es).log[j].key == Run(w, t, es).log[i].key
    ensures var ended, started := Run(w, t, es).log[i], Run(w, t, es).log[j];
            started.at - ended.at > match ended.settled
                                    case Verdict(value) => (if value then t.trueMs else t.falseMs)
                                    case _ => t.failedMs
  {
    RunKeepsInvariants(w, t, es);
    PacedAt(Run(w, t, es).log, i, j);
    LogIsFaithful(w, t, es, i);
  }

  lemma {:induction false} CallOnlyStarts(w: World, s: State, authors: seq<Author>)
    ensures s.log <= Call(w, s, authors).log
    ensures forall i :: |s.log| <= i < |Call(w, s, authors).log| ==> Call(w, s, authors).log[i].Started?
  {
    if authors != [] {
      CallOnlyStarts(w, s, authors[..|authors| - 1]);
    }
  }

  // ----- what a verdict rests on

  predicate Answered(e: Effect) { e.Ends? || e.AnswersNothing? }

  /** A `true` needs the signer's own key from a resolver; a `false` needs some resolver to have answered;
      and when every capable resolver errored, no verdict is written at all. */
  lemma VerdictsRestOnAnswers(w: World, es: seq<Effect>, r: Resolution, signer: string)
    requires IsOutcome(es, r)
    ensures SettledAs(w, r, signer) == Verdict(true) ==>
              exists i :: 0 <= i < |es| && es[i] == Ends(w.addressOf(signer))
    ensures SettledAs(w, r, signer).Verdict? ==> exists i :: 0 <= i < |es| && Answered(es[i])
    ensures (exists i :: 0 <= i < |es| && es[i].Fails?) ==>
            (forall i :: 0 <= i < |es| ==> es[i].Skipped? || es[i].Fails?) ==>
              SettledAs(w, r, signer) == Unknown
  {
  }

  /** No other step writes: a cached verdict for a key appears or changes only when an attempt for it settles. */
  lemma {:induction false} CallWritesNothing(w: World, s: State, authors: seq<Author>)
    ensures Call(w, s, authors).verdicts == s.verdicts && Call(w, s, authors).failures == s.failures
    ensures Call(w, s, authors).now == s.now && s.inFlight <= Call(w, s, authors).inFlight
  {
    if authors != [] {
      CallWritesNothing(w, s, authors[..|authors| - 1]);
    }
  }

  /** The entry that wrote a cached verdict. */
  predicate IsWriterOf(e: Entry, key: string, verdict: Stamp<bool>)
  {
    e.Ended? && e.key == key && e.settled == Verdict(verdict.value) && e.at == verdict.setAt && e.ttl == verdict.ttl
  }

  lemma {:induction false} CachedVerdictHasWriter(w: World, t: Ttls, es: seq<Event>, key: string) returns (i: nat)
    requires key in Run(w, t, es).verdicts
    ensures i < |Run(w, t, es).log| && IsWriterOf(Run(w, t, es).log[i], key, Run(w, t, es).verdicts[key])
  {
    var s := Run(w, t, es[..|es| - 1]);
    match es[|es| - 1] {
      case TimePasses(_) => i := CachedVerdictHasWriter(w, t, es[..|es| - 1], key);
      case Called(authors) =>
        CallWritesNothing(w, s, authors);
        CallOnlyStarts(w, s, authors);
        i := CachedVerdictHasWriter(w, t, es[..|es| - 1], key);
      case Settles(k, r) =>
        if k < |s.attempts| && CacheKey(s.attempts[k]) == key && SettledAs(w, r, s.attempts[k].signer).Verdict? {
          i := |s.log|;
        } else {
          i := CachedVerdictHasWriter(w, t, es[..|es| - 1], key);
        }
    }
  }

  /** Over every run, a cached `true` was written for a resolution to the signer's own key, and a cached
      `false` for an answer that was not: never for an outage, an abort or a missing resolver. */
  lemma CachedVerdictsAreEarned(w: World, t: Ttls, es: seq<Event>, key: string)
    returns (author: Author, resolution: Resolution)
    requires key in Run(w, t, es).verdicts
    ensures CacheKey(author) == key
    ensures Run(w, t, es).verdicts[key].value ==> resolution == Key(w.addressOf(author.signer))
    ensures !Run(w, t, es).verdicts[key].value ==>
              || resolution == NoKey
              || (resolution.Key? && (!w.isIpns(resolution.key) || resolution.key != w.addressOf(author.signer)))
  {
    var i := CachedVerdictHasWriter(w, t, es, key);
    LogIsFaithful(w, t, es, i);
    author, resolution := Run(w, t, es).log[i].author, Run(w, t, es).log[i].resolution;
  }

  /** What settling an attempt leaves behind, outcome by outcome: the signer's own key is remembered as `true`,
      any other answer as `false`, each for its own ttl; an outage only sets the retry floor; a withdrawn attempt
      sets nothing. The key is free again, and no other key is touched. */
  lemma SettlingIsRemembered(w: World, t: Ttls, s: State, i: nat, r: Resolution)
    requires i < |s.attempts|
    ensures var a := s.attempts[i];
            var key, after := CacheKey(a), Settle(w, t, s, i, r);
            && after.inFlight == s.inFlight - {key} && after.attempts == s.attempts[..i] + s.attempts[i + 1..]
            && after.now == s.now && |after.log| == |s.log| + 1 && after.log[..|s.log|] == s.log
            && match r
               case Key(k) =>
                 var isSigners := w.isIpns(k) && k == w.addressOf(a.signer);
                 var ttl := if isSigners then t.trueMs else t.falseMs;
                 after.failures == s.failures && after.verdicts == s.verdicts[key := Stamp(isSigners, s.now, ttl)]
               case NoKey =>
                 after.failures == s.failures && after.verdicts == s.verdicts[key := Stamp(false, s.now, t.falseMs)]
               case Aborted => after.failures == s.failures && after.verdicts == s.verdicts
               case _ =>
                 after.verdicts == s.verdicts && after.failures == s.failures[key := Stamp(true, s.now, t.failedMs)]
  {
  }

  /** A key is held back exactly while a verdict or a failure about it has not run out, or while it is being
      asked about; a ttl of zero never runs out. */
  lemma BlockedExactlyWhileLive(s: State, key: string)
    ensures IsBlocked(s, key) <==>
            || key in s.inFlight
            || (key in s.verdicts && (s.verdicts[key].ttl > 0 ==> s.now <= s.verdicts[key].setAt + s.verdicts[key].ttl))
            || (key in s.failures && (s.failures[key].ttl > 0 ==> s.now <= s.failures[key].setAt + s.failures[key].ttl))
  {
  }

  /** Every attempt that starts is logged when it starts, and nothing else is. */
  lemma {:induction false} AdmissionIsLogged(w: World, s: State, authors: seq<Author>, i: nat)
    ensures var t := Call(w, s, authors);
            && |t.log| - |s.log| == |t.attempts| - |s.attempts| >= 0
            && s.log <= t.log && s.attempts <= t.attempts
            && (i < |t.log| - |s.log| ==> t.log[|s.log| + i] == Started(CacheKey(t.attempts[|s.attempts| + i]), s.now))
  {
    if authors != [] {
      AdmissionIsLogged(w, s, authors[..|authors| - 1], i);
      CallWritesNothing(w, s, authors[..|authors| - 1]);
    }
  }

  // ----- one key, one author

  /** Name and signer are joined without a separator; what tells two pairs apart is that all signers have one
      length. */
  lemma CacheKeyIsInjective(a: Author, b: Author)
    requires |a.signer| == |b.signer|
    ensures CacheKey(a) == CacheKey(b) <==> a == b
  {
    if CacheKey(a) == CacheKey(b) {
      assert a.name == CacheKey(a)[..|a.name|] && b.name == CacheKey(b)[..|b.name|];
      assert a.signer == CacheKey(a)[|a.name|..] && b.signer == CacheKey(b)[|b.name|..];
    }
  }

  /** Without that, two pairs share a key, and with it a verdict, exactly when one signer is the tail of the
      other and its name has the rest. */
  lemma CacheKeyCollides(a: Author, b: Author)
    requires |a.signer| >= |b.signer|
    ensures CacheKey(a) == CacheKey(b) <==>
            var surplus := a.signer[..|a.signer| - |b.signer|];
            b.name == a.name + surplus && a.signer == surplus + b.signer
  {
    var n := |a.signer| - |b.signer|;
    var surplus, tail := a.signer[..n], a.signer[n..];
    assert a.signer == surplus + tail;
    assert CacheKey(a) == (a.name + surplus) + tail;
    CacheKeyIsInjective(Author(a.name + surplus, tail), b);
  }

  lemma TwoAuthorsCanShareKey()
    ensures IsStringDomain("a.et") && IsStringDomain("a.eth")
    ensures CacheKey(Author("a.et", "hX")) == CacheKey(Author("a.eth", "X"))
  {
    CacheKeyCollides(Author("a.et", "hX"), Author("a.eth", "X"));
    assert "a.et"[1] == '.' && "a.eth"[1] == '.';
  }

  predicate SignersAre(n: nat, authors: seq<Author>) { forall i :: 0 <= i < |authors| ==> |authors[i].signer| == n }

  predicate LoggedSignersAre(n: nat, log: seq<Entry>)
  {
    forall i :: 0 <= i < |log| && log[i].Ended? ==> |log[i].author.signer| == n
  }

  predicate CalledSignersAre(n: nat, es: seq<Event>)
  {
    forall i :: 0 <= i < |es| && es[i].Called? ==> SignersAre(n, es[i].authors)
  }

  lemma {:induction false} CallKeepsLength(w: World, s: State, authors: seq<Author>, n: nat)
    requires SignersAre(n, s.attempts) && SignersAre(n, authors)
    ensures SignersAre(n, Call(w, s, authors).attempts)
  {
    if authors != [] {
      CallKeepsLength(w, s, authors[..|authors| - 1], n);
    }
  }

  lemma {:induction false} RunKeepsLength(w: World, t: Ttls, es: seq<Event>, n: nat)
    requires CalledSignersAre(n, es)
    ensures SignersAre(n, Run(w, t, es).attempts) && LoggedSignersAre(n, Run(w, t, es).log)
  {
    if es != [] {
      var before, last := es[..|es| - 1], es[|es| - 1];
      RunKeepsLength(w, t, before, n);
      if last.Called? {
        CallKeepsLength(w, Run(w, t, before), last.authors, n);
        CallOnlyStarts(w, Run(w, t, before), last.authors);
      }
    }
  }

  /** Over every run whose signers have one length, the verdict that a pair reads from the cache was earned by
      an attempt for that very pair. */
  lemma CachedVerdictIsAboutItsAuthor(w: World, t: Ttls, es: seq<Event>, n: nat, asked: Author) returns (i: nat)
    requires CalledSignersAre(n, es) && |asked.signer| == n && CacheKey(asked) in Run(w, t, es).verdicts
    ensures i < |Run(w, t, es).log|
    ensures var e := Run(w, t, es).log[i];
            && e.Ended? && e.author == asked
            && Verdict(Run(w, t, es).verdicts[CacheKey(asked)].value) == SettledAs(w, e.resolution, asked.signer)
  {
    i := CachedVerdictHasWriter(w, t, es, CacheKey(asked));
    LogIsFaithful(w, t, es, i);
    RunKeepsLength(w, t, es, n);
    CacheKeyIsInjective(Run(w, t, es).log[i].author, asked);
  }

  /** A call starts attempts for exactly the keys of resolvable domains that nothing blocked when it began. */
  lemma {:induction false} ExactlyUnblockedAreAsked(w: World, s: State, authors: seq<Author>, key: string)
    ensures key in Call(w, s, authors).inFlight <==>
            || key in s.inFlight
            || (!IsBlocked(s, key) && exists i :: 0 <= i < |authors| && IsAskable(w, authors[i], key))
  {
    if authors != [] {
      var before, last := authors[..|authors| - 1], authors[|authors| - 1];
      ExactlyUnblockedAreAsked(w, s, before, key);
      CallWritesNothing(w, s, before);
      assert forall i :: 0 <= i < |before| ==> before[i] == authors[i];
      if i :| 0 <= i < |authors| && IsAskable(w, authors[i], key) {
        assert i == |before| || IsAskable(w, before[i], key);
      }
    }
  }

  predicate IsAskable(w: World, a: Author, key: string)
  {
    CacheKey(a) == key && IsStringDomain(a.name) && w.canResolve(a.name)
  }

  // ----- the shared caches as the program keeps them

  class AuthorNameCaches {
    const world: World
    const ttls: Ttls
    var nameResolvedCache: map<string, Stamp<bool>>
    var nameResolveFailedCache: map<string, Stamp<bool>>
    var resolvesInFlight: set<string>
    var attempts: seq<Author>
    ghost var log: seq<Entry>

    ghost function View(now: nat): State
      reads this
    {
      State(now, nameResolvedCache, nameResolveFailedCache, resolvesInFlight, attempts, log)
    }

    /** One attempt a key, and no attempt before an earlier one has run out. */
    ghost predicate Valid(now: nat)
      reads this
    {
      OneAttemptAKey(View(now)) && PacingHolds(View(now))
    }

    constructor (world: World, ttls: Ttls)
      ensures Valid(0) && View(0) == FRESH && this.world == world && this.ttls == ttls
    {
      this.world, this.ttls := world, ttls;
      nameResolvedCache, nameResolveFailedCache := map[], map[];
      resolvesInFlight, attempts, log := {}, [], [];
    }

    /** The admission loop. Its `seen` set only saves work: a key met before is blocked by now anyway. */
    method ResolveAuthorNamesInBackground(authors: seq<Author>, now: nat)
      requires Valid(now)
      modifies this
      ensures Valid(now) && View(now) == Call(world, old(View(now)), authors)
    {
      CallKeepsInvariants(world, View(now), authors);
      var seen: set<string> := {};
      for i := 0 to |authors|
        invariant View(now) == Call(world, old(View(now)), authors[..i])
        invariant forall key :: key in seen ==> IsBlocked(View(now), key)
      {
        var author := authors[i];
        assert authors[..i + 1][..i] == authors[..i];
        if !IsStringDomain(author.name) { continue; }
        if !world.canResolve(author.name) { continue; }
        var key := CacheKey(author);
        if key in seen { continue; }
        seen := seen + {key};
        if key in nameResolvedCache && IsLive(nameResolvedCache[key], now) { continue; }
        if key in resolvesInFlight { continue; }
        if key in nameResolveFailedCache && IsLive(nameResolveFailedCache[key], now) { continue; }
        resolvesInFlight := resolvesInFlight + {key};
        attempts := attempts + [author];
        log := log + [Started(key, now)];
      }
      assert authors[..|authors|] == authors;
    }

    /** What an attempt writes, and the release of its key. */
    method WriteOutcome(i: nat, resolution: Resolution, now: nat) returns (newlySet: bool)
      requires i < |attempts|
      modifies this
      ensures View(now) == Settle(world, ttls, old(View(now)), i, resolution)
      ensures newlySet == SettledAs(world, resolution, old(attempts[i]).signer).Verdict?
    {
      var author := attempts[i];
      var key := CacheKey(author);
      ghost var settled := SettledAs(world, resolution, author.signer);
      newlySet := false;
      match resolution {
        case NoKey =>
          nameResolvedCache := nameResolvedCache[key := Stamp(false, now, ttls.falseMs)];
          newlySet := true;
        case Key(resolved) =>
          var verdict := world.isIpns(resolved) && resolved == world.addressOf(author.signer);
          var ttl := if verdict then ttls.trueMs else ttls.falseMs;
          nameResolvedCache := nameResolvedCache[key := Stamp(verdict, now, ttl)];
          newlySet := true;
        case Aborted =>
        case _ =>
          nameResolveFailedCache := nameResolveFailedCache[key := Stamp(true, now, ttls.failedMs)];
      }
      resolvesInFlight := resolvesInFlight - {key};
      attempts := attempts[..i] + attempts[i + 1..];
      log := log + [Ended(key, now, settled, TtlOf(ttls, settled), author, resolution)];
    }

    /** One attempt, with the resolvers as it finds them. */
    method ResolveOne(i: nat, resolvers: seq<Resolver>, now: nat) returns (newlySet: bool)
      requires Valid(now) && i < |attempts|
      modifies this
      ensures Valid(now)
      ensures exists r :: IsOutcome(Effects(resolvers, Some(3600), now), r)
                          && View(now) == Settle(world, ttls, old(View(now)), i, r)
                          && newlySet == SettledAs(world, r, old(attempts[i]).signer).Verdict?
    {
      var resolution := ResolveViaNameResolvers(resolvers, Some(3600), now);
      StepKeepsInvariants(world, ttls, View(now), Settles(i, resolution));
      newlySet := WriteOutcome(i, resolution, now);
    }

    /** One event; time passes without the caches taking part. */
    method Handle(e: Event, now: nat) returns (later: nat)
      requires Valid(now)
      modifies this
      ensures Valid(later) && View(later) == Step(world, ttls, old(View(now)), e)
    {
      StepKeepsInvariants(world, ttls, View(now), e);
      later := if e.TimePasses? then now + e.ms else now;
      match e {
        case TimePasses(_) =>
        case Called(authors) => ResolveAuthorNamesInBackground(authors, now);
        case Settles(attempt, resolution) =>
          if attempt < |attempts| { var _ := WriteOutcome(attempt, resolution, now); }
      }
    }
  }

  /** Whatever callers ask and whenever attempts settle, the caches go through the run of the protocol with
      those events, so every theorem about runs is a theorem about them. */
  method Drive(caches: AuthorNameCaches, es: seq<Event>) returns (now: nat)
    requires caches.View(0) == FRESH
    modifies caches
    ensures caches.Valid(now) && caches.View(now) == Run(caches.world, caches.ttls, es)
  {
    now := 0;
    for i := 0 to |es|
      invariant caches.Valid(now) && caches.View(now) == Run(caches.world, caches.ttls, es[..i])
    {
      assert es[..i + 1][..i] == es[..i];
      now := caches.Handle(es[i], now);
    }
    assert es[..|es|] == es;
  }
}
