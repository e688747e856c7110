/** The energy history store (store/useDataStore.ts): a sliding window of the
    most recent pendulum energy samples, capped at MAX_HISTORY entries. */
module DataStore {
  import opened Types

  const MAX_HISTORY: nat := 200

  /** What a caller hands to `addEnergyDataPoint`: a sample without its time. */
  datatype EnergySample = EnergySample(kineticEnergy: real, potentialEnergy: real, totalEnergy: real)

  /** `{ ...point, time: now }`. */
  function Stamp(point: EnergySample, now: int): EnergyDataPoint
  {
    EnergyDataPoint(now, point.kineticEnergy, point.potentialEnergy, point.totalEnergy)
  }

  /** The last MAX_HISTORY entries of `s`, or all of it when it is shorter. */
  function Recent(s: seq<EnergyDataPoint>): (r: seq<EnergyDataPoint>)
    ensures |r| == if |s| <= MAX_HISTORY then |s| else MAX_HISTORY
    ensures r == s[|s| - |r|..]
  {
    if |s| <= MAX_HISTORY then s else s[|s| - MAX_HISTORY..]
  }

  /** Windowing after every append keeps the same samples as windowing once
      at the end. */
  lemma RecentAppend(s: seq<EnergyDataPoint>, p: EnergyDataPoint)
    ensures Recent(Recent(s) + [p]) == Recent(s + [p])
  {
  }

  /** Appending to a history within the cap and windowing the result keeps
      everything when there is room and drops exactly the oldest entry when
      the history was full. */
  lemma RecentOfShortAppend(h: seq<EnergyDataPoint>, p: EnergyDataPoint)
    requires |h| <= MAX_HISTORY
    ensures |h| < MAX_HISTORY ==> Recent(h + [p]) == h + [p]
    ensures |h| == MAX_HISTORY ==> Recent(h + [p]) == h[1..] + [p]
    ensures var n := h + [p]; Recent(h + [p]) == if |n| > MAX_HISTORY then n[1..] else n
  {
    if |h| == MAX_HISTORY {
      assert (h + [p])[1..] == h[1..] + [p];
    }
  }

  /** The two calls the store offers, as a record of the caller's history. */
  datatype HistoryCall = AddPoint(point: EnergySample, now: int) | ClearHistory

  /** The history after `calls`, made from the initial (empty) history one
      call at a time, each as the store's methods perform it. */
  function Replay(calls: seq<HistoryCall>): seq<EnergyDataPoint>
  {
    if calls == [] then []
    else
      var before := Replay(calls[..|calls| - 1]);
      match calls[|calls| - 1]
      case AddPoint(point, now) => Recent(before + [Stamp(point, now)])
      case ClearHistory => []
  }

  /** One more add call windows the history after appending its sample. */
  lemma ReplayAddPoint(calls: seq<HistoryCall>, point: EnergySample, now: int)
    ensures Replay(calls + [AddPoint(point, now)]) == Recent(Replay(calls) + [Stamp(point, now)])
  {
    assert (calls + [AddPoint(point, now)])[..|calls|] == calls;
  }

  /** Every sample added after the last clear, oldest first. */
  function SinceLastClear(calls: seq<HistoryCall>): seq<EnergyDataPoint>
  {
    if calls == [] then []
    else
      match calls[|calls| - 1]
      case AddPoint(point, now) => SinceLastClear(calls[..|calls| - 1]) + [Stamp(point, now)]
      case ClearHistory => []
  }

  /** Whatever the sequence of calls, the history is exactly the most recent
      MAX_HISTORY samples added since the last clear, in the order they came;
      in particular it never holds more than MAX_HISTORY entries. */
  lemma {:induction false} ReplayIsRecentWindow(calls: seq<HistoryCall>)
    ensures Replay(calls) == Recent(SinceLastClear(calls))
    ensures |Replay(calls)| <= MAX_HISTORY
  {
    if calls != [] {
      var init := calls[..|calls| - 1];
      ReplayIsRecentWindow(init);
      match calls[|calls| - 1]
      case AddPoint(point, now) =>
        RecentAppend(SinceLastClear(init), Stamp(point, now));
      case ClearHistory =>
    }
  }

  /** The history never holds more than MAX_HISTORY entries. */
  lemma ReplayBounded(calls: seq<HistoryCall>)
    ensures |Replay(calls)| <= MAX_HISTORY
  {
    ReplayIsRecentWindow(calls);
  }

  class DataState {
    var energyHistory: seq<EnergyDataPoint>
    /** Every call made on this store so far. */
    ghost var calls: seq<HistoryCall>

    ghost predicate Valid()
      reads this
    {
      energyHistory == Replay(calls)
    }

    constructor ()
      ensures Valid() && calls == [] && energyHistory == []
    {
      energyHistory := [];
      calls := [];
    }

    /** Appends the sample stamped with `now`; once the history would exceed
        MAX_HISTORY entries the oldest one is shifted out. */
    method AddEnergyDataPoint(point: EnergySample, now: int)
      requires Valid()
      modifies this
      ensures Valid() && calls == old(calls) + [AddPoint(point, now)]
      ensures |energyHistory| <= MAX_HISTORY
      ensures energyHistory[|energyHistory| - 1] == Stamp(point, now)
      ensures |old(energyHistory)| < MAX_HISTORY ==> energyHistory == old(energyHistory) + [Stamp(point, now)]
      ensures |old(energyHistory)| == MAX_HISTORY ==> energyHistory == old(energyHistory)[1..] + [Stamp(point, now)]
    {
      ghost var before, sample := energyHistory, Stamp(point, now);
      ReplayBounded(calls);
      ReplayAddPoint(calls, point, now);
      RecentOfShortAppend(before, sample);
      var newHistory := energyHistory + [Stamp(point, now)];
      if |newHistory| > MAX_HISTORY {
        newHistory := newHistory[1..];
      }
      energyHistory := newHistory;
      calls := calls + [AddPoint(point, now)];
    }

    method ClearHistory()
      requires Valid()
      modifies this
      ensures Valid() && calls == old(calls) + [HistoryCall.ClearHistory]
      ensures energyHistory == []
    {
      energyHistory := [];
      calls := calls + [HistoryCall.ClearHistory];
    }
  }
}
