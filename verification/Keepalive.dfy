/** Timing decisions of a maintainer: when `keepalive` gives a connection up, and
  * how long `maintainWorker` waits between failed dials.
  */
module Keepalive {

  /** What the select of `keepalive` delivers, in order. */
  datatype Event =
    | Cancelled           // ctx.Done()
    | ConnClosed          // the client's Wait returned
    | Tick(ok: bool)      // the ticker fired; whether the keepalive request succeeded

  datatype Exit =
    | StillServing                // the events given so far do not end the loop
    | Ended(at: nat)              // by cancellation or close, at this event
    | MissLimit(at: nat)          // by too many misses, at this event

  const MISS := Tick(false)

  /** Events k-n+1 .. k are n failed keepalives in a row. */
  ghost predicate FailedRun(es: seq<Event>, k: nat, n: nat) {
    k < |es| && n <= k + 1 && forall i :: k - n < i <= k ==> es[i] == MISS
  }

  /** Nothing before event k ends the loop. */
  ghost predicate Quiet(es: seq<Event>, k: nat, n: nat) {
    k <= |es| && forall i :: 0 <= i < k ==> es[i].Tick? && !FailedRun(es, i, n)
  }

  lemma RunTooShort(es: seq<Event>, i: nat, misses: nat, n: nat)
    requires i < |es| && misses < n && misses <= i + 1
    requires misses <= i ==> es[i - misses] != MISS
    ensures !FailedRun(es, i, n)
  {
  }

  /** The loop ends at the first event that closes or cancels or completes a run of
    * exactly as many failures as the setting says, 3 when it says none; `misses` counts
    * the failures at the end of what has been seen and stays below the limit at each
    * loop head. */
  method Keepalive(es: seq<Event>, countMax: int) returns (exit: Exit)
    ensures var limit := if countMax > 0 then countMax else 3;
            match exit
            case StillServing => Quiet(es, |es|, limit)
            case Ended(k) => k < |es| && !es[k].Tick? && Quiet(es, k, limit)
            case MissLimit(k) => FailedRun(es, k, limit) && Quiet(es, k, limit)
  {
    var maxMiss := countMax;
    if maxMiss <= 0 {
      maxMiss := 3;
    }
    var misses := 0;
    for i := 0 to |es|
      invariant Quiet(es, i, maxMiss)
      invariant 0 <= misses < maxMiss && misses <= i
      invariant forall x :: i - misses <= x < i ==> es[x] == MISS
      invariant misses < i ==> es[i - misses - 1] != MISS
    {
      match es[i]
      case Cancelled => return Ended(i);
      case ConnClosed => return Ended(i);
      case Tick(ok) =>
        if !ok {
          misses := misses + 1;
          if misses >= maxMiss {
            return MissLimit(i);
          }
        } else {
          misses := 0;
        }
        RunTooShort(es, i, misses, maxMiss);
    }
    return StillServing;
  }

  // ---- Backoff ----

  function Pow2(k: nat): nat {
    if k == 0 then 1 else 2 * Pow2(k - 1)
  }

  /** Failed dials at the end of `dials`. */
  function FailureRun(dials: seq<bool>): nat {
    if dials == [] || dials[|dials| - 1] then 0 else 1 + FailureRun(dials[..|dials| - 1])
  }

  /** Seconds waited after the j-th failure in a row: doubling from 1, held at 32. */
  function Wait(j: nat): nat
    requires j >= 1
  {
    if j <= 6 then Pow2(j - 1) else 32
  }

  ghost predicate AreWaits(waits: seq<nat>, dials: seq<bool>) {
    && |waits| == |dials|
    && forall i :: 0 <= i < |dials| ==>
                     waits[i] == if dials[i] then 0 else Wait(FailureRun(dials[..i + 1]))
  }

  /** The seconds waited after each dial of a maintainer whose dials succeed or fail
    * as given: 0 after a success, which also resets the backoff, and otherwise the
    * wait due for the current run of failures. */
  method Backoffs(dials: seq<bool>) returns (waits: seq<nat>)
    ensures |waits| == |dials|
    ensures forall i :: 0 <= i < |dials| ==>
                          waits[i] == if dials[i] then 0 else Wait(FailureRun(dials[..i + 1]))
  {
    var backoff := 1;
    waits := [];
    for i := 0 to |dials|
      invariant |waits| == i
      invariant backoff == Wait(FailureRun(dials[..i]) + 1)
      invariant forall x :: 0 <= x < i ==>
                              waits[x] == if dials[x] then 0 else Wait(FailureRun(dials[..x + 1]))
    {
      assert dials[..i + 1][..i] == dials[..i];
      if !dials[i] {
        waits := waits + [backoff];
        Powers();
        if backoff < 30 {
          backoff := backoff * 2;
        }
        continue;
      }
      backoff := 1;
      waits := waits + [0];
    }
  }

  lemma Powers()
    ensures Pow2(0) == 1 && Pow2(1) == 2 && Pow2(2) == 4 && Pow2(3) == 8 && Pow2(4) == 16 && Pow2(5) == 32
    ensures forall j {:trigger Wait(j)} :: 1 <= j <= 6 ==>
                                             Wait(j) == if j == 1 then 1 else if j == 2 then 2 else if j == 3 then 4
                                             else if j == 4 then 8 else if j == 5 then 16 else 32
  {
    assert Pow2(2) == 4;
    assert Pow2(4) == 16;
  }

  function TotalWait(k: nat): nat {
    if k == 0 then 0 else TotalWait(k - 1) + Wait(k)
  }

  /** Seconds spent waiting over k failures in a row. */
  lemma {:induction false} TotalWaitClosed(k: nat)
    ensures TotalWait(k) == if k <= 6 then Pow2(k) - 1 else 63 + 32 * (k - 6)
  {
    Powers();
    if k > 0 {
      TotalWaitClosed(k - 1);
    }
  }

  function Sum(waits: seq<nat>): nat {
    if waits == [] then 0 else Sum(waits[..|waits| - 1]) + waits[|waits| - 1]
  }

  lemma {:induction false} RunLength(dials: seq<bool>, from: nat)
    requires from <= |dials| && (from > 0 ==> dials[from - 1])
    requires forall i :: from <= i < |dials| ==> !dials[i]
    ensures FailureRun(dials) == |dials| - from
  {
    if from < |dials| {
      RunLength(dials[..|dials| - 1], from);
    }
  }

  lemma WaitsBefore(waits: seq<nat>, dials: seq<bool>, n: nat)
    requires AreWaits(waits, dials) && n <= |dials|
    ensures AreWaits(waits[..n], dials[..n])
  {
    forall i | 0 <= i < n
      ensures waits[..n][i] == if dials[..n][i] then 0 else Wait(FailureRun(dials[..n][..i + 1]))
    {
      assert dials[..n][..i + 1] == dials[..i + 1];
    }
  }

  /** The waits of the k failures since the last successful dial, or since the start,
    * add up to 2^k - 1 seconds for k up to 6 and to 63 + 32(k - 6) beyond. */
  lemma {:induction false} FailuresWait(waits: seq<nat>, dials: seq<bool>, from: nat)
    requires AreWaits(waits, dials) && from <= |dials| && (from > 0 ==> dials[from - 1])
    requires forall i :: from <= i < |dials| ==> !dials[i]
    ensures var k := |dials| - from;
            Sum(waits[from..]) == TotalWait(k) == if k <= 6 then Pow2(k) - 1 else 63 + 32 * (k - 6)
  {
    hide Wait, Pow2, FailureRun;
    TotalWaitClosed(|dials| - from);
    if from < |dials| {
      var n := |dials| - 1;
      WaitsBefore(waits, dials, n);
      FailuresWait(waits[..n], dials[..n], from);
      assert waits[from..][..n - from] == waits[..n][from..];
      assert dials[..n + 1] == dials;
      RunLength(dials, from);
    }
  }
}
