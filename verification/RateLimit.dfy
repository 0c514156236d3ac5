/** The per-wallet limiter: what its fixed windows guarantee, and that the clean-up job is invisible. */
module RateLimit {
  import opened Prelude

  const WALLET_LIMIT: nat := 10
  const WALLET_WINDOW_MS: nat := 60000

  /** Milliseconds; a window is good up to and including `resetTime`. */
  datatype Window = Window(count: nat, resetTime: nat)

  type Store = map<string, Window>

  /** What the middleware does with a request: pass it on untouched, admit it, or answer 429. */
  datatype Reply =
    | Unlimited
    | Admitted(remaining: nat, resetSeconds: nat)
    | Rejected(remaining: nat, resetSeconds: nat, retryAfter: nat)

  function CeilSeconds(ms: nat): nat { (ms + 999) / 1000 }

  /** The window in force for a wallet at `now`: the stored one, or a fresh one once that has passed. */
  function Current(store: Store, wallet: string, now: nat): Window {
    if wallet in store && now <= store[wallet].resetTime then store[wallet] else Window(0, now + WALLET_WINDOW_MS)
  }

  function ReplyTo(w: Window, now: nat): Reply
    requires now <= w.resetTime
  {
    var reset := CeilSeconds(w.resetTime);
    if w.count >= WALLET_LIMIT then
      var retry := CeilSeconds(w.resetTime - now);
      Rejected(0, reset, if retry > 0 then retry else WALLET_WINDOW_MS / 1000)
    else Admitted(WALLET_LIMIT - w.count, reset)
  }

  /** The empty string is no wallet at all. */
  function Handle(store: Store, wallet: string, now: nat): (Store, Reply) {
    if wallet == "" then (store, Unlimited)
    else
      var w := Current(store, wallet, now);
      var r := ReplyTo(w, now);
      (store[wallet := if r.Admitted? then w.(count := w.count + 1) else w], r)
  }

  function Clean(store: Store, now: nat): Store { map w | w in store && now <= store[w].resetTime :: store[w] }

  class WalletLimiter {
    var store: Store

    constructor ()
      ensures store == map[]
    {
      store := map[];
    }

    method Limit(wallet: string, now: nat) returns (reply: Reply)
      modifies this
      ensures (store, reply) == Handle(old(store), wallet, now)
    {
      if wallet == "" {
        return Unlimited;
      }
      if wallet !in store || now > store[wallet].resetTime {
        store := store[wallet := Window(0, now + WALLET_WINDOW_MS)];
      }
      var entry := store[wallet];
      var remaining := if entry.count > WALLET_LIMIT then 0 else WALLET_LIMIT - entry.count;
      var reset := CeilSeconds(entry.resetTime);
      if entry.count >= WALLET_LIMIT {
        var retryAfter := CeilSeconds(entry.resetTime - now);
        assert store == old(store)[wallet := entry];
        return Rejected(remaining, reset, if retryAfter > 0 then retryAfter else WALLET_WINDOW_MS / 1000);
      }
      store := store[wallet := entry.(count := entry.count + 1)];
      assert store == old(store)[wallet := entry.(count := entry.count + 1)];
      return Admitted(remaining, reset);
    }

    method CleanupExpiredLimits(now: nat)
      modifies this
      ensures store == Clean(old(store), now)
    {
      var todo := store.Keys;
      while todo != {}
        invariant todo <= store.Keys <= old(store.Keys)
        invariant forall w :: w in store ==> store[w] == old(store)[w]
        invariant forall w :: w in old(store) && w !in todo ==> (w in store <==> now <= old(store)[w].resetTime)
        decreases todo
      {
        var wallet :| wallet in todo;
        if now > store[wallet].resetTime {
          store := store - {wallet};
        }
        todo := todo - {wallet};
      }
    }
  }

  // ---------------------------------------------------------------- runs

  datatype Input = Request(wallet: string, now: nat) | Cleanup(now: nat)

  function StoreAfter(inputs: seq<Input>): Store {
    if inputs == [] then map[]
    else
      var s := StoreAfter(inputs[..|inputs| - 1]);
      match inputs[|inputs| - 1]
      case Request(w, now) => Handle(s, w, now).0
      case Cleanup(now) => Clean(s, now)
  }

  /** The replies to the requests of the run, headers included. */
  function Replies(inputs: seq<Input>): seq<Reply> {
    if inputs == [] then []
    else
      var init := inputs[..|inputs| - 1];
      match inputs[|inputs| - 1]
      case Request(w, now) => Replies(init) + [Handle(StoreAfter(init), w, now).1]
      case Cleanup(_) => Replies(init)
  }

  function RequestsOf(inputs: seq<Input>): seq<Input> {
    if inputs == [] then []
    else RequestsOf(inputs[..|inputs| - 1]) + (if inputs[|inputs| - 1].Request? then [inputs[|inputs| - 1]] else [])
  }

  /** How many of `wallet`'s requests timed in [from, to] were admitted. */
  function AdmittedIn(inputs: seq<Input>, wallet: string, from: nat, to: nat): nat {
    if inputs == [] then 0
    else
      var init := inputs[..|inputs| - 1];
      AdmittedIn(init, wallet, from, to) +
      match inputs[|inputs| - 1]
      case Request(w, now) => (if w == wallet && from <= now <= to
        && Handle(StoreAfter(init), w, now).1.Admitted? then 1 else 0)
      case Cleanup(_) => 0
  }

  /** The clock never goes back; `last` is its latest reading. */
  predicate Timed(inputs: seq<Input>, last: nat) {
    inputs == [] || (inputs[|inputs| - 1].now <= last && Timed(inputs[..|inputs| - 1], inputs[|inputs| - 1].now))
  }

  // ---------------------------------------------------------------- clean-up is invisible

  /** The stores differ at most in windows that have already passed. */
  ghost predicate SameLive(s1: Store, s2: Store, now: nat) {
    forall w :: (w in s1 && now <= s1[w].resetTime) || (w in s2 && now <= s2[w].resetTime) ==>
      w in s1 && w in s2 && s1[w] == s2[w]
  }

  lemma {:induction false} RequestsTimed(inputs: seq<Input>, last: nat)
    requires Timed(inputs, last)
    ensures Timed(RequestsOf(inputs), last)
  {
    if inputs != [] {
      var init := inputs[..|inputs| - 1];
      RequestsTimed(init, inputs[|inputs| - 1].now);
      var r := RequestsOf(init);
      if inputs[|inputs| - 1].Request? {
        assert (r + [inputs[|inputs| - 1]])[..|r|] == r;
      } else {
        assert RequestsOf(inputs) == r;
        TimedLater(r, inputs[|inputs| - 1].now, last);
      }
    }
  }

  lemma TimedLater(inputs: seq<Input>, last: nat, later: nat)
    requires Timed(inputs, last) && last <= later
    ensures Timed(inputs, later)
  {
  }

  lemma RequestSameLive(s1: Store, s2: Store, wallet: string, last: nat, now: nat)
    requires SameLive(s1, s2, last) && last <= now
    ensures Handle(s1, wallet, now).1 == Handle(s2, wallet, now).1
    ensures SameLive(Handle(s1, wallet, now).0, Handle(s2, wallet, now).0, now)
  {
  }

  lemma CleanSameLive(s1: Store, s2: Store, last: nat, now: nat)
    requires SameLive(s1, s2, last) && last <= now
    ensures SameLive(Clean(s1, now), s2, now)
  {
  }

  /**
   * Running the clean-up job at any points of a run changes no decision and no header of any later
   * request: the replies are those of the same run without it.
   */
  lemma {:induction false} CleanupIsInvisible(inputs: seq<Input>, last: nat, wallet: string, from: nat, to: nat)
    requires Timed(inputs, last)
    ensures Replies(inputs) == Replies(RequestsOf(inputs))
    ensures AdmittedIn(inputs, wallet, from, to) == AdmittedIn(RequestsOf(inputs), wallet, from, to)
    ensures SameLive(StoreAfter(inputs), StoreAfter(RequestsOf(inputs)), last)
  {
    if inputs != [] {
      var init, input := inputs[..|inputs| - 1], inputs[|inputs| - 1];
      CleanupIsInvisible(init, input.now, wallet, from, to);
      var r := RequestsOf(init);
      match input
      case Request(w, now) =>
        assert (r + [input])[..|r|] == r;
        RequestSameLive(StoreAfter(init), StoreAfter(r), w, now, now);
      case Cleanup(now) =>
        assert RequestsOf(inputs) == r;
        CleanSameLive(StoreAfter(init), StoreAfter(r), now, now);
    }
  }

  // ---------------------------------------------------------------- the window bound

  /**
   * Where a wallet stands in a run without clean-ups: its window, and what it has been admitted
   * since `from`. A window opened before `from` leaves at most nine of its ten to the interval, its
   * opener lies outside, and then the next window cannot open at `from` itself.
   */
  ghost predicate WithinWindows(store: Store, wallet: string, from: nat, admitted: nat, last: nat) {
    && (last < from ==> admitted == 0)
    && if wallet !in store then admitted == 0
       else
         var w := store[wallet];
         var opening := w.resetTime - WALLET_WINDOW_MS;
         && 0 <= opening <= last && 1 <= w.count <= WALLET_LIMIT
         && if opening < from then admitted <= w.count - 1 && (admitted > 0 ==> from <= w.resetTime)
            else
              || admitted <= 10 * ((opening - from) / 60001) + w.count
              || (from < opening && admitted <= 9 + 10 * ((opening - from - 1) / 60001) + w.count)
  }

  lemma OneWindowLater(from: nat, opening: nat, now: nat)
    requires from <= opening && opening + 60001 <= now
    ensures (now - from) / 60001 >= (opening - from) / 60001 + 1
  {
    assert (opening - from + 60001) / 60001 == (opening - from) / 60001 + 1;
  }

  lemma OneRequest(store: Store, wallet: string, from: nat, admitted: nat, last: nat, now: nat)
    requires wallet != "" && WithinWindows(store, wallet, from, admitted, last) && last <= now
    ensures var (store', reply) := Handle(store, wallet, now);
      WithinWindows(store', wallet, from, admitted + (if from <= now && reply.Admitted? then 1 else 0), now)
  {
    if wallet in store && now > store[wallet].resetTime {
      var opening := store[wallet].resetTime - WALLET_WINDOW_MS;
      if from <= opening {
        OneWindowLater(from, opening, now);
      }
      if from < opening {
        OneWindowLater(from + 1, opening, now);
      }
    }
  }

  lemma NothingAdmittedYet(wallet: string, from: nat, last: nat)
    ensures WithinWindows(map[], wallet, from, 0, last)
  {
  }

  /** A request of another wallet at `now` changes nothing for this one. */
  lemma OtherWallet(store: Store, wallet: string, from: nat, admitted: nat, other: string, now: nat)
    requires other != wallet && WithinWindows(store, wallet, from, admitted, now)
    ensures WithinWindows(Handle(store, other, now).0, wallet, from, admitted, now)
  {
  }

  lemma Later(store: Store, wallet: string, from: nat, admitted: nat, now: nat, last: nat)
    requires WithinWindows(store, wallet, from, admitted, now) && now <= last
    ensures WithinWindows(store, wallet, from, admitted, last)
  {
  }

  lemma {:induction false} RunWithinWindows(inputs: seq<Input>, last: nat, wallet: string, from: nat, to: nat)
    requires Timed(inputs, last) && last <= to && wallet != ""
    requires forall i :: 0 <= i < |inputs| ==> inputs[i].Request?
    ensures WithinWindows(StoreAfter(inputs), wallet, from, AdmittedIn(inputs, wallet, from, to), last)
  {
    hide WithinWindows, Handle;
    if inputs == [] {
      NothingAdmittedYet(wallet, from, last);
    } else {
      var init, input := inputs[..|inputs| - 1], inputs[|inputs| - 1];
      RunWithinWindows(init, input.now, wallet, from, to);
      if input.wallet == wallet {
        OneRequest(StoreAfter(init), wallet, from, AdmittedIn(init, wallet, from, to), input.now, input.now);
      } else {
        OtherWallet(StoreAfter(init), wallet, from, AdmittedIn(init, wallet, from, to), input.wallet, input.now);
      }
      Later(StoreAfter(inputs), wallet, from, AdmittedIn(inputs, wallet, from, to), input.now, last);
    }
  }

  lemma {:induction false} OnlyRequests(inputs: seq<Input>)
    ensures forall i :: 0 <= i < |RequestsOf(inputs)| ==> RequestsOf(inputs)[i].Request?
  {
    if inputs != [] {
      OnlyRequests(inputs[..|inputs| - 1]);
    }
  }

  /** The most requests of one wallet that any interval of `length` milliseconds can see admitted. */
  function MostIn(length: nat): nat {
    if length % 60001 == 0 then 10 * (1 + length / 60001) else 10 * (2 + length / 60001) - 1
  }

  lemma WindowsFit(from: nat, opening: nat, length: nat)
    requires from <= opening <= from + length
    ensures 10 * ((opening - from) / 60001) + 10 <= MostIn(length)
    ensures from < opening ==> 9 + 10 * ((opening - from - 1) / 60001) + 10 <= MostIn(length)
  {
    var k := length / 60001;
    assert (opening - from) / 60001 <= k;
    if from < opening {
      assert length % 60001 == 0 ==> length - 1 < 60001 * k;
      assert (opening - from - 1) / 60001 <= if length % 60001 == 0 then k - 1 else k;
    }
  }

  lemma {:induction false} RequestsBound(inputs: seq<Input>, last: nat, wallet: string, from: nat, length: nat)
    requires Timed(inputs, last) && wallet != "" && forall i :: 0 <= i < |inputs| ==> inputs[i].Request?
    ensures AdmittedIn(inputs, wallet, from, from + length) <= MostIn(length)
  {
    if inputs != [] {
      var init, input := inputs[..|inputs| - 1], inputs[|inputs| - 1];
      if input.now > from + length {
        RequestsBound(init, input.now, wallet, from, length);
      } else {
        RunWithinWindows(inputs, input.now, wallet, from, from + length);
        var store := StoreAfter(inputs);
        if wallet in store && from <= store[wallet].resetTime - WALLET_WINDOW_MS {
          WindowsFit(from, store[wallet].resetTime - WALLET_WINDOW_MS, length);
        }
      }
    }
  }

  /**
   * The windows' guarantee, with clean-ups anywhere in the run: no interval of `length` milliseconds
   * sees more than `MostIn(length)` of a wallet's requests admitted, so a minute at most 19.
   */
  lemma WindowBound(inputs: seq<Input>, last: nat, wallet: string, from: nat, length: nat)
    requires Timed(inputs, last) && wallet != ""
    ensures AdmittedIn(inputs, wallet, from, from + length) <= MostIn(length)
  {
    CleanupIsInvisible(inputs, last, wallet, from, from + length);
    RequestsTimed(inputs, last);
    OnlyRequests(inputs);
    RequestsBound(RequestsOf(inputs), last, wallet, from, length);
  }

  // ---------------------------------------------------------------- the bound is reached

  /** `run` is `past` followed by requests of the wallet, all at `now`. */
  ghost predicate BurstOn(past: seq<Input>, run: seq<Input>, wallet: string, now: nat) {
    past < run && forall i :: |past| <= i < |run| ==> run[i] == Request(wallet, now)
  }

  /** A burst within the room left in the window is admitted whole. */
  lemma {:induction false} BurstAdmitted(past: seq<Input>, run: seq<Input>, wallet: string, now: nat, from: nat,
          to: nat)
    requires wallet != "" && from <= now <= to && BurstOn(past, run, wallet, now) && Timed(past, now)
    requires Current(StoreAfter(past), wallet, now).count + |run| - |past| <= WALLET_LIMIT
    ensures var w := Current(StoreAfter(past), wallet, now);
      && AdmittedIn(run, wallet, from, to) == AdmittedIn(past, wallet, from, to) + |run| - |past| && Timed(run, now)
      && wallet in StoreAfter(run) && StoreAfter(run)[wallet] == w.(count := w.count + |run| - |past|)
  {
    var init := run[..|run| - 1];
    if |run| == |past| + 1 {
      assert init == past;
    } else {
      BurstAdmitted(past, init, wallet, now, from, to);
    }
  }

  predicate InForce(store: Store, wallet: string, now: nat) { wallet in store && now <= store[wallet].resetTime }

  /** One full window after the other, each opened as soon as the one before has passed. */
  lemma {:induction false} FullWindows(past: seq<Input>, wallet: string, at: nat, n: nat, from: nat, to: nat)
    returns (run: seq<Input>)
    requires wallet != "" && Timed(past, at) && !InForce(StoreAfter(past), wallet, at)
    requires from <= at && at + 60001 * n <= to
    ensures Timed(run, at + 60001 * n)
    ensures AdmittedIn(run, wallet, from, to) == AdmittedIn(past, wallet, from, to) + 10 * (n + 1)
    ensures wallet in StoreAfter(run) && StoreAfter(run)[wallet] == Window(10, at + 60001 * n + 60000)
  {
    hide AdmittedIn, StoreAfter;
    var before, now := past, at + 60001 * n;
    if n > 0 {
      before := FullWindows(past, wallet, at, n - 1, from, to);
      TimedLater(before, at + 60001 * (n - 1), now);
    }
    run := before + seq(10, _ => Request(wallet, now));
    BurstAdmitted(before, run, wallet, now, from, to);
  }

  /** One request at time 0 and nine more as its window ends: the nine fall into an interval from then on. */
  lemma LateNine(wallet: string, from: nat, to: nat) returns (run: seq<Input>)
    requires wallet != "" && 1 <= from <= 60000 <= to
    ensures Timed(run, 60000) && AdmittedIn(run, wallet, from, to) == 9
    ensures wallet in StoreAfter(run) && StoreAfter(run)[wallet] == Window(10, 60000)
  {
    var one := [Request(wallet, 0)];
    assert one[..0] == [];
    assert StoreAfter(one) == map[wallet := Window(1, 60000)] && AdmittedIn(one, wallet, from, to) == 0
      && Timed(one, 60000);
    run := one + seq(9, _ => Request(wallet, 60000));
    BurstAdmitted(one, run, wallet, 60000, from, to);
  }

  ghost predicate Reaches(inputs: seq<Input>, last: nat, wallet: string, from: nat, length: nat) {
    Timed(inputs, last) && AdmittedIn(inputs, wallet, from, from + length) == MostIn(length)
  }

  /** The bound is the maximum: for every length some run has an interval that reaches it. */
  lemma MaximumReached(wallet: string, length: nat)
    requires wallet != ""
    ensures exists inputs, last, from :: Reaches(inputs, last, wallet, from, length)
  {
    var k := length / 60001;
    if length % 60001 == 0 {
      var run := FullWindows([], wallet, 0, k, 0, 0 + length);
      assert Reaches(run, 60001 * k, wallet, 0, length);
    } else {
      var nine := LateNine(wallet, 60000, 60000 + length);
      TimedLater(nine, 60000, 60001);
      var run := FullWindows(nine, wallet, 60001, k, 60000, 60000 + length);
      assert Reaches(run, 60001 + 60001 * k, wallet, 60000, length);
    }
  }

  /** The promised "10 per minute, sliding" does not hold: 19 requests are admitted within a minute. */
  lemma NineteenInAMinute(wallet: string)
    requires wallet != ""
    ensures exists inputs :: Timed(inputs, 60001) && AdmittedIn(inputs, wallet, 1, 60001) == 19
  {
    var nine := LateNine(wallet, 1, 60001);
    TimedLater(nine, 60000, 60001);
    var run := FullWindows(nine, wallet, 60001, 0, 1, 60001);
  }

  // ---------------------------------------------------------------- when ten a minute does hold

  /** A stored window is never empty, never overfull, and was opened by an earlier request. */
  lemma {:induction false} StoredWindow(inputs: seq<Input>, last: nat, wallet: string)
    requires Timed(inputs, last) && wallet != "" && wallet in StoreAfter(inputs)
    ensures var w := StoreAfter(inputs)[wallet];
      1 <= w.count <= WALLET_LIMIT && WALLET_WINDOW_MS <= w.resetTime <= last + WALLET_WINDOW_MS
  {
    var init, input := inputs[..|inputs| - 1], inputs[|inputs| - 1];
    if wallet in StoreAfter(init) {
      StoredWindow(init, input.now, wallet);
    }
  }

  lemma {:induction false} NoneBefore(inputs: seq<Input>, last: nat, wallet: string, from: nat, to: nat)
    requires Timed(inputs, last) && last < from
    ensures AdmittedIn(inputs, wallet, from, to) == 0
  {
    if inputs != [] {
      NoneBefore(inputs[..|inputs| - 1], inputs[|inputs| - 1].now, wallet, from, to);
    }
  }

  /** `run` goes on from `past` with inputs at `from` or later. */
  ghost predicate Continues(past: seq<Input>, run: seq<Input>, from: nat, last: nat) {
    past <= run && Timed(run, last) && forall i :: |past| <= i < |run| ==> run[i].now >= from
  }

  /** Either the minute's one window is open and has admitted all there was, or nothing has been admitted yet. */
  ghost predicate OneWindowOnly(store: Store, wallet: string, from: nat, admitted: nat, last: nat) {
    if wallet in store && from + WALLET_WINDOW_MS <= store[wallet].resetTime
    then admitted <= store[wallet].count <= WALLET_LIMIT
    else admitted == 0 && (InForce(store, wallet, last) ==> store[wallet].count == WALLET_LIMIT)
  }

  lemma OneWindowStep(store: Store, wallet: string, from: nat, admitted: nat, input: Input)
    requires wallet != "" && from <= input.now <= from + WALLET_WINDOW_MS
    requires OneWindowOnly(store, wallet, from, admitted, input.now)
    ensures match input
      case Request(w, now) =>
        var (store', reply) := Handle(store, w, now);
        OneWindowOnly(store', wallet, from, admitted + (if w == wallet && reply.Admitted? then 1 else 0), now)
      case Cleanup(now) => OneWindowOnly(Clean(store, now), wallet, from, admitted, now)
  {
  }

  ghost predicate TenHolds(past: seq<Input>, wallet: string, from: nat) {
    !InForce(StoreAfter(past), wallet, from) || StoreAfter(past)[wallet].count == WALLET_LIMIT
  }

  lemma {:induction false} MinuteSoFar(past: seq<Input>, run: seq<Input>, earlier: nat, wallet: string, from: nat,
          last: nat)
    requires Timed(past, earlier) && earlier < from && wallet != "" && TenHolds(past, wallet, from)
    requires Continues(past, run, from, last) && from <= last <= from + WALLET_WINDOW_MS
    ensures OneWindowOnly(StoreAfter(run), wallet, from, AdmittedIn(run, wallet, from, from + WALLET_WINDOW_MS), last)
  {
    if |run| == |past| {
      assert run == past;
      NoneBefore(past, earlier, wallet, from, from + WALLET_WINDOW_MS);
      if wallet in StoreAfter(past) {
        StoredWindow(past, earlier, wallet);
      }
    } else {
      var init, input := run[..|run| - 1], run[|run| - 1];
      MinuteSoFar(past, init, earlier, wallet, from, input.now);
      OneWindowStep(StoreAfter(init), wallet, from, AdmittedIn(init, wallet, from, from + WALLET_WINDOW_MS), input);
    }
  }

  lemma {:induction false} AtMostTen(past: seq<Input>, run: seq<Input>, earlier: nat, wallet: string, from: nat,
          last: nat)
    requires Timed(past, earlier) && earlier < from && wallet != "" && TenHolds(past, wallet, from)
    requires Continues(past, run, from, last)
    ensures AdmittedIn(run, wallet, from, from + WALLET_WINDOW_MS) <= WALLET_LIMIT
  {
    if |run| == |past| {
      assert run == past;
      NoneBefore(past, earlier, wallet, from, from + WALLET_WINDOW_MS);
    } else {
      var init, input := run[..|run| - 1], run[|run| - 1];
      if input.now > from + WALLET_WINDOW_MS {
        AtMostTen(past, init, earlier, wallet, from, input.now);
      } else {
        MinuteSoFar(past, run, earlier, wallet, from, input.now);
      }
    }
  }

  /** A window in force with room left is filled at once. */
  lemma FillOpenWindow(past: seq<Input>, earlier: nat, wallet: string, from: nat) returns (full: seq<Input>)
    requires Timed(past, earlier) && earlier < from && wallet != "" && !TenHolds(past, wallet, from)
    ensures Continues(past, full, from, from) && wallet in StoreAfter(past) && wallet in StoreAfter(full)
    ensures var w := StoreAfter(past)[wallet];
      && w.count < 10 && AdmittedIn(full, wallet, from, from + WALLET_WINDOW_MS) == 10 - w.count
      && from <= w.resetTime < from + WALLET_WINDOW_MS && StoreAfter(full)[wallet] == Window(10, w.resetTime)
  {
    var w, to := StoreAfter(past)[wallet], from + WALLET_WINDOW_MS;
    StoredWindow(past, earlier, wallet);
    NoneBefore(past, earlier, wallet, from, to);
    TimedLater(past, earlier, from);
    hide AdmittedIn, StoreAfter, Timed;
    full := past + seq(WALLET_LIMIT - w.count, _ => Request(wallet, from));
    BurstAdmitted(past, full, wallet, from, from, to);
  }

  /** Filling it and then its successor, before the minute is over, admits more than ten. */
  lemma MoreThanTen(past: seq<Input>, earlier: nat, wallet: string, from: nat) returns (run: seq<Input>, last: nat)
    requires Timed(past, earlier) && earlier < from && wallet != "" && !TenHolds(past, wallet, from)
    ensures Continues(past, run, from, last) && AdmittedIn(run, wallet, from, from + WALLET_WINDOW_MS) > WALLET_LIMIT
  {
    hide AdmittedIn, StoreAfter, Timed, TenHolds;
    var full := FillOpenWindow(past, earlier, wallet, from);
    last := StoreAfter(past)[wallet].resetTime + 1;
    TimedLater(full, from, last);
    run := full + seq(10, _ => Request(wallet, last));
    BurstAdmitted(full, run, wallet, last, from, from + WALLET_WINDOW_MS);
  }

  /**
   * When ten a minute holds: after any run with all inputs before `from`, every continuation admits
   * at most ten of the wallet's requests in the minute from `from` on if and only if the wallet has
   * no window in force at `from`, or that window is already full.
   */
  lemma TenPerMinuteExactly(past: seq<Input>, earlier: nat, wallet: string, from: nat)
    requires Timed(past, earlier) && earlier < from && wallet != ""
    ensures
      (forall run, last :: Continues(past, run, from, last) ==>
         AdmittedIn(run, wallet, from, from + WALLET_WINDOW_MS) <= WALLET_LIMIT)
      <==> (InForce(StoreAfter(past), wallet, from) ==> StoreAfter(past)[wallet].count == WALLET_LIMIT)
  {
    if TenHolds(past, wallet, from) {
      forall run, last | Continues(past, run, from, last)
        ensures AdmittedIn(run, wallet, from, from + WALLET_WINDOW_MS) <= WALLET_LIMIT
      {
        AtMostTen(past, run, earlier, wallet, from, last);
      }
    } else {
      var run, last := MoreThanTen(past, earlier, wallet, from);
    }
  }
}
