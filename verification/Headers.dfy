/**
 * What the wallet limiter tells its callers. The window is reconstructed from the requests alone:
 * who opened it and how many requests it has seen. Replies and headers are then exactly what that
 * reconstruction says, whatever clean-ups ran in between.
 */
module Headers {
  import opened Prelude
  import opened RateLimit

  /** When the wallet's latest window was opened: by the first request, or one over a minute past the last opener. */
  function Opener(inputs: seq<Input>, wallet: string): Option<nat> {
    if inputs == [] then None
    else
      var o, input := Opener(inputs[..|inputs| - 1], wallet), inputs[|inputs| - 1];
      if input.Cleanup? || input.wallet != wallet || (o.Some? && input.now <= o.value + 60000) then o
      else Some(input.now)
  }

  /** How many requests that window has seen, its opener included. */
  function Asked(inputs: seq<Input>, wallet: string): nat {
    if inputs == [] then 0
    else
      var init, input := inputs[..|inputs| - 1], inputs[|inputs| - 1];
      if input.Cleanup? || input.wallet != wallet then Asked(init, wallet)
      else if Opener(inputs, wallet) == Opener(init, wallet) then Asked(init, wallet) + 1
      else 1
  }

  /** `seconds` is the least whole number of seconds that is not below `ms` milliseconds. */
  predicate RoundsUp(seconds: int, ms: int) { 1000 * (seconds - 1) < ms <= 1000 * seconds }

  /** The reply to the `k`-th request, at `now`, of a window opened at `opener`. */
  predicate Tells(r: Reply, opener: nat, k: nat, now: nat) {
    if k <= 10 then r.Admitted? && r.remaining == 11 - k && RoundsUp(r.resetSeconds, opener + 60000)
    else
      && r.Rejected? && r.remaining == 0 && RoundsUp(r.resetSeconds, opener + 60000)
      && if now < opener + 60000 then RoundsUp(r.retryAfter, opener + 60000 - now) else r.retryAfter == 60
  }

  // ---------------------------------------------------------------- the store holds the reconstruction

  /** The store has the reconstructed window if it is still in force, and no other. */
  ghost predicate Tracks(store: Store, opener: Option<nat>, asked: nat, wallet: string, last: nat) {
    && (wallet in store ==> opener.Some? && store[wallet] == Window(Min(10, asked), opener.value + 60000))
    && (opener.Some? ==> opener.value <= last && asked >= 1 && (last <= opener.value + 60000 ==> wallet in store))
  }

  lemma {:induction false} Tracked(inputs: seq<Input>, last: nat, wallet: string)
    requires Timed(inputs, last) && wallet != ""
    ensures Tracks(StoreAfter(inputs), Opener(inputs, wallet), Asked(inputs, wallet), wallet, last)
  {
    if inputs != [] {
      Tracked(inputs[..|inputs| - 1], inputs[|inputs| - 1].now, wallet);
    }
  }

  /** Once its window has passed, a wallet has been admitted nothing since. */
  lemma {:induction false} NothingSince(inputs: seq<Input>, wallet: string, from: nat, to: nat)
    requires Opener(inputs, wallet).Some? ==> Opener(inputs, wallet).value + 60000 < from
    ensures AdmittedIn(inputs, wallet, from, to) == 0
  {
    if inputs != [] {
      NothingSince(inputs[..|inputs| - 1], wallet, from, to);
    }
  }

  lemma {:induction false} AdmittedSinceOpener(inputs: seq<Input>, last: nat, wallet: string, to: nat)
    requires Timed(inputs, last) && last <= to && wallet != "" && Opener(inputs, wallet).Some?
    ensures AdmittedIn(inputs, wallet, Opener(inputs, wallet).value, to) == Min(10, Asked(inputs, wallet))
  {
    var init, input := inputs[..|inputs| - 1], inputs[|inputs| - 1];
    Tracked(init, input.now, wallet);
    if Opener(inputs, wallet) == Opener(init, wallet) {
      AdmittedSinceOpener(init, input.now, wallet, to);
    } else {
      NothingSince(init, wallet, input.now, to);
    }
  }

  // ---------------------------------------------------------------- replies and headers

  /**
   * Every reply is what the window in force says: request number k of a window is admitted if and
   * only if k is at most 10, with 11 - k requests remaining, which is 10 less those admitted since
   * the window was opened; the reset is the opener's time plus a minute in whole seconds rounded up,
   * and a refusal says how long to wait for it.
   */
  lemma RepliesTell(inputs: seq<Input>, wallet: string, now: nat)
    requires Timed(inputs, now) && wallet != ""
    ensures var run := inputs + [Request(wallet, now)];
      && Opener(run, wallet).Some? && Asked(run, wallet) >= 1
      && |Replies(run)| == |Replies(inputs)| + 1 && Replies(inputs) <= Replies(run)
      && Tells(Replies(run)[|Replies(inputs)|], Opener(run, wallet).value, Asked(run, wallet), now)
      && AdmittedIn(inputs, wallet, Opener(run, wallet).value, now) == Min(10, Asked(run, wallet) - 1)
  {
    var run := inputs + [Request(wallet, now)];
    assert run[..|run| - 1] == inputs;
    Tracked(inputs, now, wallet);
    if Opener(run, wallet) == Opener(inputs, wallet) {
      AdmittedSinceOpener(inputs, now, wallet, now);
    } else {
      NothingSince(inputs, wallet, now, now);
    }
  }

  /** A request without a wallet is let through and leaves no trace. */
  lemma NoWalletNoLimit(inputs: seq<Input>, now: nat)
    ensures var run := inputs + [Request("", now)];
      Replies(run) == Replies(inputs) + [Unlimited] && StoreAfter(run) == StoreAfter(inputs)
  {
    var run := inputs + [Request("", now)];
    assert run[..|run| - 1] == inputs;
  }

  lemma {:induction false} OnlyWallets(inputs: seq<Input>)
    ensures "" !in StoreAfter(inputs)
  {
    if inputs != [] {
      OnlyWallets(inputs[..|inputs| - 1]);
    }
  }

  /** A clean-up leaves exactly the windows still in force: nothing passed stays, nothing in force goes. */
  lemma CleanupLeavesExactly(inputs: seq<Input>, now: nat, wallet: string)
    requires Timed(inputs, now)
    ensures var store := StoreAfter(inputs + [Cleanup(now)]);
      && (wallet in store <==>
            wallet != "" && Opener(inputs, wallet).Some? && now <= Opener(inputs, wallet).value + 60000)
      && (wallet in store ==> now <= store[wallet].resetTime)
      && (wallet in store ==> wallet in StoreAfter(inputs) && store[wallet] == StoreAfter(inputs)[wallet])
  {
    var run := inputs + [Cleanup(now)];
    assert run[..|run| - 1] == inputs;
    OnlyWallets(inputs);
    if wallet != "" {
      Tracked(inputs, now, wallet);
    }
  }
}
