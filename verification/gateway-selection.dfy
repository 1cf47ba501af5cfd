/** Choosing among the records that racing gateways returned. */
module GatewaySelection {
  import opened Options

  datatype Found = Found(updatedAt: nat, content: string)

  // one gateway's response so far; an error leaves `record` empty
  datatype GatewayFetch = GatewayFetch(record: Option<Found>, cid: string, ipnsHops: Option<seq<string>>)

  datatype Winner = Winner(record: Found, cid: string, ipnsHops: seq<string>, gateway: nat)

  /** `i` answered, nothing beats it, and nothing before it ties with it. */
  predicate IsFirstNewest(fs: seq<GatewayFetch>, i: nat)
  {
    && i < |fs| && fs[i].record.Some?
    && forall j :: 0 <= j < |fs| && fs[j].record.Some? ==>
                     && fs[j].record.value.updatedAt <= fs[i].record.value.updatedAt
                     && (j < i ==> fs[j].record.value.updatedAt < fs[i].record.value.updatedAt)
  }

  function FirstNewest(fs: seq<GatewayFetch>): (best: Option<nat>)
    ensures best.Some? ==> IsFirstNewest(fs, best.value)
    ensures best.None? ==> forall j :: 0 <= j < |fs| ==> fs[j].record.None?
  {
    if fs == [] then None
    else
      var last := |fs| - 1;
      match FirstNewest(fs[..last])
      case None => if fs[last].record.Some? then Some(last) else None
      case Some(i) =>
        if fs[last].record.Some? && fs[last].record.value.updatedAt > fs[i].record.value.updatedAt then Some(last)
        else Some(i)
  }

  /** The winner is strictly newer than what is loaded and keeps the hops of its own gateway; there is none
      exactly when no gateway has anything newer. */
  function SelectWinningGatewayCommunity(
    fs: seq<GatewayFetch>, currentUpdatedAt: nat, fallbackIpnsName: string): (winner: Option<Winner>)
    ensures winner.Some? <==>
            exists j :: 0 <= j < |fs| && fs[j].record.Some? && fs[j].record.value.updatedAt > currentUpdatedAt
    ensures winner.Some? ==>
              && IsFirstNewest(fs, winner.value.gateway)
              && fs[winner.value.gateway].record == Some(winner.value.record)
              && winner.value.record.updatedAt > currentUpdatedAt
              && winner.value.cid == fs[winner.value.gateway].cid
              && winner.value.ipnsHops
                 == if fs[winner.value.gateway].ipnsHops.Some? then fs[winner.value.gateway].ipnsHops.value
                    else [fallbackIpnsName]
  {
    match FirstNewest(fs)
    case None => None
    case Some(i) =>
      var best := fs[i];
      if best.record.value.updatedAt > currentUpdatedAt
      then
        var hops := match best.ipnsHops case Some(hops) => hops case None => [fallbackIpnsName];
        Some(Winner(best.record.value, best.cid, hops, i))
      else None
  }

  /** Which gateway wins does not depend on gateways that answer later with something older. */
  lemma LaterOlderAnswersKeepWinner(fs: seq<GatewayFetch>, late: GatewayFetch, currentUpdatedAt: nat, fallback: string)
    requires SelectWinningGatewayCommunity(fs, currentUpdatedAt, fallback).Some?
    requires late.record.Some? ==>
               late.record.value.updatedAt
               <= SelectWinningGatewayCommunity(fs, currentUpdatedAt, fallback).value.record.updatedAt
    ensures SelectWinningGatewayCommunity(fs + [late], currentUpdatedAt, fallback)
            == SelectWinningGatewayCommunity(fs, currentUpdatedAt, fallback)
  {
  }
}
