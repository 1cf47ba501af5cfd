/** Asking an ordered list of fallible name resolvers. */
module NameResolvers {
  import opened Options

  datatype CacheEntry = CacheEntry(publicKey: string, resolvedAtMs: int)

  // what asking a resolver over the network gives
  datatype Answer = Found(key: string) | NoRecord | Errored | AbortErrored

  // a resolver as one lookup of one name sees it
  datatype Resolver = Resolver(capable: bool, cached: Option<CacheEntry>, answer: Answer)

  datatype Resolution = Key(key: string) | NoKey | AllFailed | NoResolver | Aborted

  /** The persistent cache: bypassed by a max age of zero, else bounded by it when there is one. */
  function FreshKey(cached: Option<CacheEntry>, maxAge: Option<nat>, nowMs: int): Option<string>
  {
    if maxAge == Some(0) || cached.None? then None
    else if maxAge.Some? && nowMs - cached.value.resolvedAtMs > maxAge.value * 1000 then None
    else Some(cached.value.publicKey)
  }

  // how one resolver moves the loop on
  datatype Effect = Skipped | Ends(key: string) | AnswersNothing | Fails | Aborts

  function EffectOf(r: Resolver, maxAge: Option<nat>, nowMs: int): Effect
  {
    if !r.capable then Skipped
    else
      match FreshKey(r.cached, maxAge, nowMs)
      case Some(key) => Ends(key)
      case None =>
        match r.answer
        case Found(key) => if key == "" then AnswersNothing else Ends(key)
        case NoRecord => AnswersNothing
        case Errored => Fails
        case AbortErrored => Aborts
  }

  function Effects(rs: seq<Resolver>, maxAge: Option<nat>, nowMs: int): (es: seq<Effect>)
    ensures |es| == |rs| && forall i :: 0 <= i < |rs| ==> es[i] == EffectOf(rs[i], maxAge, nowMs)
  {
    seq(|rs|, i requires 0 <= i < |rs| => EffectOf(rs[i], maxAge, nowMs))
  }

  predicate Passes(e: Effect) { e.Skipped? || e.AnswersNothing? || e.Fails? }

  /** The loop gets as far as resolver `i`. */
  predicate Reaches(es: seq<Effect>, i: nat)
    requires i <= |es|
  {
    forall j :: 0 <= j < i ==> Passes(es[j])
  }

  /** What each outcome means, both ways. A key comes from the first resolver that ends the loop; no key
      means something answered and had none; all-failed means every capable resolver errored. */
  ghost predicate IsOutcome(es: seq<Effect>, r: Resolution)
  {
    && (forall key :: r == Key(key) <==> key != "" && exists i :: 0 <= i < |es| && Reaches(es, i) && es[i] == Ends(key))
    && (r == Aborted <==> exists i :: 0 <= i < |es| && Reaches(es, i) && es[i].Aborts?)
    && (r == NoKey <==> || (exists i :: 0 <= i < |es| && Reaches(es, i) && es[i] == Ends(""))
                        || (Reaches(es, |es|) && exists i :: 0 <= i < |es| && es[i].AnswersNothing?))
    && (r == AllFailed <==> && (exists i :: 0 <= i < |es| && es[i].Fails?)
                            && forall i :: 0 <= i < |es| ==> es[i].Skipped? || es[i].Fails?)
    && (r == NoResolver <==> forall i :: 0 <= i < |es| ==> es[i].Skipped?)
  }

  method ResolveViaNameResolvers(rs: seq<Resolver>, maxAge: Option<nat>, nowMs: int) returns (r: Resolution)
    ensures IsOutcome(Effects(rs, maxAge, nowMs), r)
  {
    ghost var es := Effects(rs, maxAge, nowMs);
    var anyResolverCanHandle, anyResolverAnswered := false, false;
    for i := 0 to |rs|
      invariant Reaches(es, i)
      invariant anyResolverCanHandle <==> exists j :: 0 <= j < i && !es[j].Skipped?
      invariant anyResolverAnswered <==> exists j :: 0 <= j < i && es[j].AnswersNothing?
    {
      var resolver := rs[i];
      if !resolver.capable { continue; }
      anyResolverCanHandle := true;
      var cached := FreshKey(resolver.cached, maxAge, nowMs);
      if cached.Some? {
        EndedAt(es, i, cached.value);
        return if cached.value == "" then NoKey else Key(cached.value);
      }
      match resolver.answer {
        case AbortErrored =>
          AbortedAt(es, i);
          return Aborted;
        case Errored =>
        case NoRecord => anyResolverAnswered := true;
        case Found(key) =>
          if key != "" {
            EndedAt(es, i, key);
            return Key(key);
          }
          anyResolverAnswered := true;
      }
    }
    if !anyResolverCanHandle { return NoResolver; }
    if !anyResolverAnswered { return AllFailed; }
    return NoKey;
  }

  /** The loop stops at one resolver only. */
  lemma StopsOnce(es: seq<Effect>, i: nat)
    requires i < |es| && Reaches(es, i) && !Passes(es[i])
    ensures !Reaches(es, |es|)
    ensures forall j :: 0 <= j < |es| && Reaches(es, j) && !Passes(es[j]) ==> j == i
  {
  }

  lemma EndedAt(es: seq<Effect>, i: nat, key: string)
    requires i < |es| && Reaches(es, i) && es[i] == Ends(key)
    ensures IsOutcome(es, if key == "" then NoKey else Key(key))
  {
    StopsOnce(es, i);
  }

  lemma AbortedAt(es: seq<Effect>, i: nat)
    requires i < |es| && Reaches(es, i) && es[i].Aborts?
    ensures IsOutcome(es, Aborted)
  {
    StopsOnce(es, i);
  }

  /** The meaning of the outcomes leaves no choice. */
  lemma OutcomeIsUnique(es: seq<Effect>, a: Resolution, b: Resolution)
    requires IsOutcome(es, a) && IsOutcome(es, b)
    ensures a == b
  {
  }

  // ----- what a resolver is worth

  /** A cached key is used exactly while it is no older than the caller allows; zero allows none, and without a
      limit every one. */
  lemma CachedKeysAreYoung(cached: Option<CacheEntry>, maxAge: Option<nat>, nowMs: int, key: string)
    ensures FreshKey(cached, maxAge, nowMs) == Some(key) <==>
            && cached.Some? && cached.value.publicKey == key
            && (maxAge.Some? ==> maxAge.value > 0 && nowMs <= cached.value.resolvedAtMs + 1000 * maxAge.value)
  {
  }

  /** A key is on offer from the cache or, when the cache has none young enough, from the network. */
  ghost predicate Offers(r: Resolver, maxAge: Option<nat>, nowMs: int, key: string)
  {
    && r.capable
    && if && r.cached.Some?
          && (maxAge.Some? ==> maxAge.value > 0 && nowMs <= r.cached.value.resolvedAtMs + 1000 * maxAge.value)
       then r.cached.value.publicKey == key
       else r.answer == Found(key) && key != ""
  }

  lemma EndsIffOffers(r: Resolver, maxAge: Option<nat>, nowMs: int, key: string)
    ensures EffectOf(r, maxAge, nowMs) == Ends(key) <==> Offers(r, maxAge, nowMs, key)
    ensures EffectOf(r, maxAge, nowMs) == Skipped <==> !r.capable
    ensures EffectOf(r, maxAge, nowMs) in [AnswersNothing, Fails, Aborts] ==>
              r.answer == match EffectOf(r, maxAge, nowMs)
                          case Fails => Errored
                          case Aborts => AbortErrored
                          case _ => if r.answer.NoRecord? then NoRecord else Found("")
  {
    CachedKeysAreYoung(r.cached, maxAge, nowMs, key);
  }

  /** Over the whole loop: a key that some resolver offers is the answer when every capable resolver before it
      answered nothing or failed. */
  lemma FirstOfferWins(rs: seq<Resolver>, maxAge: Option<nat>, nowMs: int, i: nat, key: string, r: Resolution)
    requires i < |rs| && Offers(rs[i], maxAge, nowMs, key) && key != ""
    requires Reaches(Effects(rs, maxAge, nowMs), i) && IsOutcome(Effects(rs, maxAge, nowMs), r)
    ensures r == Key(key)
  {
    EndsIffOffers(rs[i], maxAge, nowMs, key);
  }
}
