/** The same wave when the loop runs the plain step, which writes the step counter too. */
module PlainStep {
  import opened DpWave

  /** The counter after one iteration of a wave: a busy step advances it, an idle one resets it, then the sync check counts. */
  function PlainIteration(counter: nat, busy: bool): nat {
    (if busy then counter + 1 else 0) + 1
  }

  /** The counter after the iterations since the last reset; true stands for an iteration with requests. */
  function PlainRun(iterations: seq<bool>): nat {
    if iterations == [] then 0
    else PlainIteration(PlainRun(iterations[..|iterations| - 1]), iterations[|iterations| - 1])
  }

  predicate AllBusy(iterations: seq<bool>) {
    forall k :: 0 <= k < |iterations| ==> iterations[k]
  }

  /** Busy iterations count by two; an idle one starts over at one, so that the counter is odd for the rest of the wave. */
  lemma {:induction false} CounterParity(iterations: seq<bool>)
    ensures AllBusy(iterations) ==> PlainRun(iterations) == 2 * |iterations|
    ensures !AllBusy(iterations) ==> PlainRun(iterations) % 2 == 1
    ensures forall j :: 0 <= j < |iterations| && IsLastIdle(iterations, j) ==> PlainRun(iterations) == 2 * (|iterations| - 1 - j) + 1
  {
    if iterations != [] {
      var init, last := iterations[..|iterations| - 1], iterations[|iterations| - 1];
      CounterParity(init);
      assert iterations == init + [last];
      assert AllBusy(iterations) <==> AllBusy(init) && last;
      forall j | 0 <= j < |iterations| && IsLastIdle(iterations, j)
        ensures PlainRun(iterations) == 2 * (|iterations| - 1 - j) + 1
      {
        assert j < |init| ==> IsLastIdle(init, j);
      }
    }
  }

  predicate IsLastIdle(iterations: seq<bool>, j: nat)
    requires j < |iterations|
  {
    !iterations[j] && forall k :: j < k < |iterations| ==> iterations[k]
  }

  predicate Syncs(iterations: seq<bool>) {
    iterations != [] && PlainRun(iterations) % SYNC_EVERY == 0
  }

  /** A rank is at a sync exactly when every iteration of the wave was busy and their number is a multiple of 16. */
  lemma PlainSyncIff(iterations: seq<bool>)
    ensures PlainRun(iterations) % SYNC_EVERY == 0 <==> AllBusy(iterations) && |iterations| % 16 == 0
  {
    CounterParity(iterations);
    OddIsNoSync(PlainRun(iterations));
    TwiceSyncs(|iterations|);
  }

  lemma OddIsNoSync(counter: nat)
    ensures counter % 2 == 1 ==> counter % SYNC_EVERY != 0
  {
  }

  lemma TwiceSyncs(n: nat)
    ensures (2 * n) % SYNC_EVERY == 0 <==> n % 16 == 0
  {
  }

  /** Syncs a rank has entered during the iterations. */
  function SyncsIn(iterations: seq<bool>): nat {
    if iterations == [] then 0
    else SyncsIn(iterations[..|iterations| - 1]) + if Syncs(iterations) then 1 else 0
  }

  /** While a rank is busy it syncs every 16 iterations. */
  lemma {:induction false} SyncsWhileBusy(iterations: seq<bool>)
    requires AllBusy(iterations)
    ensures SyncsIn(iterations) == |iterations| / 16
  {
    if iterations != [] {
      SyncsWhileBusy(iterations[..|iterations| - 1]);
      PlainSyncIff(iterations);
      NextSixteenth(|iterations|);
    }
  }

  lemma NextSixteenth(n: nat)
    requires n > 0
    ensures n / 16 == (n - 1) / 16 + if n % 16 == 0 then 1 else 0
  {
  }

  /** The rank enters its k-th sync of the wave with its n-th iteration. */
  predicate KthSync(iterations: seq<bool>, k: nat, n: nat) {
    n <= |iterations| && Syncs(iterations[..n]) && SyncsIn(iterations[..n]) == k
  }

  lemma KthSyncIff(iterations: seq<bool>, k: nat, n: nat)
    requires k > 0
    ensures KthSync(iterations, k, n) <==> n == 16 * k && n <= |iterations| && AllBusy(iterations[..n])
  {
    if n <= |iterations| {
      PlainSyncIff(iterations[..n]);
      if AllBusy(iterations[..n]) {
        SyncsWhileBusy(iterations[..n]);
      }
    }
  }

  /** Two ranks both get to their k-th sync exactly when each was busy in all of its first 16 k iterations. */
  lemma PlainRanksMeetIff(a: seq<bool>, b: seq<bool>, k: nat)
    requires k > 0
    ensures (exists n, m :: KthSync(a, k, n) && KthSync(b, k, m)) <==>
      16 * k <= |a| && 16 * k <= |b| && AllBusy(a[..16 * k]) && AllBusy(b[..16 * k])
  {
    KthSyncIff(a, k, 16 * k);
    KthSyncIff(b, k, 16 * k);
    if n, m :| KthSync(a, k, n) && KthSync(b, k, m) {
      KthSyncIff(a, k, n);
      KthSyncIff(b, k, m);
    }
  }

  /** One idle iteration among a rank's first 16 k and it never enters its k-th sync, however the wave goes on. */
  lemma PlainStepLosesLockstep(iterations: seq<bool>, rest: seq<bool>, k: nat, j: nat, n: nat)
    requires j < |iterations| && j < 16 * k && !iterations[j]
    ensures !KthSync(iterations + rest, k, n)
  {
    KthSyncIff(iterations + rest, k, n);
    if n == 16 * k && n <= |iterations + rest| {
      assert !(iterations + rest)[..n][j];
    }
  }
}
