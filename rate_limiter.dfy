/** The per-user action limiter. Its state is a key-value store with expiry
    (Redis in the source), abstracted as a map from user id to a counter
    value; the key `"limit::product::actions::user::" + userId` is injective
    in the user id, so keying by the id loses nothing. The clock is the
    parameter `now` (milliseconds). */
module RateLimiting {
  import opened Wrappers
  import opened Errors

  /** At most this many actions per user within a window. */
  const MAX_REQUESTS: nat := 10
  /** One minute, in milliseconds of the abstract clock. */
  const DURATION: nat := 60_000

  /** A stored counter and its expiry instant; a key no expiry was set on
      never expires. */
  datatype Counter = Counter(count: nat, expiresAt: Option<nat>)

  type CounterStore = map<int, Counter>

  /** The key exists at `now`: it was written and has not expired. As in
      Redis, a key is expired only once the clock has passed its expiry
      instant, so it is still there at that instant itself. */
  predicate Live(store: CounterStore, userId: int, now: nat) {
    userId in store && (store[userId].expiresAt.None? || now <= store[userId].expiresAt.value)
  }

  /** The count a read at `now` observes: an expired or missing key reads as 0. */
  function CountAt(store: CounterStore, userId: int, now: nat): nat {
    if Live(store, userId, now) then store[userId].count else 0
  }

  /** INCR: a missing or expired key is recreated at 1 with no expiry; a live
      key is incremented and keeps its expiry. */
  function Increment(store: CounterStore, userId: int, now: nat): CounterStore {
    if Live(store, userId, now) then store[userId := store[userId].(count := store[userId].count + 1)]
    else store[userId := Counter(1, None)]
  }

  /** EXPIRE: set the key's expiry instant; no effect on a missing key. */
  function Expire(store: CounterStore, userId: int, at: nat): CounterStore {
    if userId in store then store[userId := store[userId].(expiresAt := Some(at))] else store
  }

  /** The new store and the outcome of one call. */
  datatype Step = Step(store: CounterStore, outcome: Outcome<Error>)

  /** What one call of limitRequestsByUserId at `now` does, stated as a whole:
      the user's count grows by one from what a read at `now` sees, its
      expiry is `now + DURATION`, and the call is refused exactly when the
      new count exceeds MAX_REQUESTS. */
  function Limit(store: CounterStore, userId: int, now: nat): Step {
    var count := CountAt(store, userId, now) + 1;
    Step(store[userId := Counter(count, Some(now + DURATION))],
         if count > MAX_REQUESTS then Fail(TooManyRequests(MAX_REQUESTS)) else Pass)
  }

  class RequestRateLimiter {
    var store: CounterStore

    constructor ()
      ensures store == map[]
    {
      store := map[];
    }

    /** limitRequestsByUserId: increment, refresh the expiry, then refuse
        when over the limit. The refused call has still been counted. */
    method LimitRequestsByUserId(userId: int, now: nat) returns (r: Outcome<Error>)
      modifies this
      ensures store == Limit(old(store), userId, now).store
      ensures r == Limit(old(store), userId, now).outcome
      ensures CountAt(store, userId, now) == CountAt(old(store), userId, now) + 1
      ensures userId in store && store[userId].expiresAt == Some(now + DURATION)
      ensures forall v :: v != userId ==> (v in store <==> v in old(store))
      ensures forall v :: v != userId && v in store ==> store[v] == old(store)[v]
      ensures r.Pass? <==> CountAt(store, userId, now) <= MAX_REQUESTS
      ensures r.Fail? ==> r.error == TooManyRequests(MAX_REQUESTS)
    {
      store := Increment(store, userId, now);
      var counter := store[userId].count;
      if counter > 0 {
        store := Expire(store, userId, now + DURATION);
      }
      if counter > MAX_REQUESTS {
        return Fail(TooManyRequests(MAX_REQUESTS));
      }
      return Pass;
    }
  }

  /** The outcomes of successive calls by one user at the instants `times`. */
  function Run(store: CounterStore, userId: int, times: seq<nat>): (outcomes: seq<Outcome<Error>>)
    ensures |outcomes| == |times|
    decreases |times|
  {
    if times == [] then []
    else
      var step := Limit(store, userId, times[0]);
      [step.outcome] + Run(step.store, userId, times[1..])
  }

  /** Each call comes at most DURATION after the one before it, while the
      previous call's key still exists. */
  ghost predicate WithinWindow(times: seq<nat>) {
    forall i :: 0 < i < |times| ==> times[i] <= times[i - 1] + DURATION
  }

  /** A call by another user leaves this user's counter alone. */
  lemma OtherUsersUntouched(store: CounterStore, userId: int, other: int, now: nat, later: nat)
    requires other != userId
    ensures CountAt(Limit(store, userId, now).store, other, later) == CountAt(store, other, later)
  {
  }

  /** After any call the window runs DURATION from that call: the count is
      still seen up to `now + DURATION` and is gone after it. */
  lemma WindowFromLatestCall(store: CounterStore, userId: int, now: nat, later: nat)
    ensures var s := Limit(store, userId, now).store;
      CountAt(s, userId, later) == (if later <= now + DURATION then CountAt(store, userId, now) + 1 else 0)
  {
  }

  /** Once the key has expired, the next call starts a new count at 1 and is
      allowed. */
  lemma FreshCountAfterExpiry(store: CounterStore, userId: int, now: nat)
    requires userId in store && store[userId].expiresAt.Some? && store[userId].expiresAt.value < now
    ensures Limit(store, userId, now).outcome == Pass
    ensures CountAt(Limit(store, userId, now).store, userId, now) == 1
  {
  }

  /** Once the count is over the limit, every further call before expiry is
      refused, and the count stays over the limit. */
  lemma OverLimitStaysRefused(store: CounterStore, userId: int, now: nat, later: nat)
    requires CountAt(store, userId, now) > MAX_REQUESTS
    requires later <= now + DURATION
    ensures Limit(store, userId, now).outcome.Fail?
    ensures CountAt(Limit(store, userId, now).store, userId, later) > MAX_REQUESTS
  {
  }

  /** In a run of calls each at most DURATION after the previous one, the
      call at position i sees count c + i + 1, where c is what the first call
      finds, so it is allowed exactly when c + i + 1 <= MAX_REQUESTS. */
  lemma {:induction false} RunWithinWindow(store: CounterStore, userId: int, times: seq<nat>)
    requires |times| > 0 && WithinWindow(times)
    ensures forall i :: 0 <= i < |times| ==>
      (Run(store, userId, times)[i].Pass? <==> CountAt(store, userId, times[0]) + i + 1 <= MAX_REQUESTS)
    decreases |times|
  {
    var step := Limit(store, userId, times[0]);
    var rest := times[1..];
    var outcomes := Run(store, userId, times);
    assert outcomes == [step.outcome] + Run(step.store, userId, rest);
    if |rest| > 0 {
      assert WithinWindow(rest) by {
        forall i | 0 < i < |rest| ensures rest[i] <= rest[i - 1] + DURATION {
          assert rest[i] == times[i + 1] && rest[i - 1] == times[i];
        }
      }
      assert CountAt(step.store, userId, rest[0]) == CountAt(store, userId, times[0]) + 1;
      RunWithinWindow(step.store, userId, rest);
      forall i | 0 < i < |times|
        ensures outcomes[i].Pass? <==> CountAt(store, userId, times[0]) + i + 1 <= MAX_REQUESTS
      {
        assert outcomes[i] == Run(step.store, userId, rest)[i - 1];
      }
    }
  }

  /** A user whose counter is absent or expired gets exactly MAX_REQUESTS
      allowed calls in a run within the window: the 10th is allowed, the
      11th and every later one refused. */
  lemma FirstTenAllowed(store: CounterStore, userId: int, times: seq<nat>)
    requires |times| > 0 && WithinWindow(times) && !Live(store, userId, times[0])
    ensures forall i :: 0 <= i < |times| ==> (Run(store, userId, times)[i].Pass? <==> i < MAX_REQUESTS)
  {
    RunWithinWindow(store, userId, times);
  }

  /** Because every call refreshes the expiry, the window slides: a user
      calling every 59 seconds from a fresh start is refused on the 11th
      call, at 590 seconds, long after a minute from the first call, and
      on every call after it while the calls keep coming. */
  lemma SlidingWindowExample(userId: int)
    ensures Run(map[], userId, seq(11, i => 59_000 * i))[10].Fail?
  {
    var times := seq(11, i => 59_000 * i);
    assert WithinWindow(times) by {
      forall i | 0 < i < |times| ensures times[i] <= times[i - 1] + DURATION {
        assert times[i] == 59_000 * i && times[i - 1] == 59_000 * (i - 1);
      }
    }
    FirstTenAllowed(map[], userId, times);
  }

  /** The refusal's message names the limit. */
  lemma RefusalNamesLimit()
    ensures Message(TooManyRequests(MAX_REQUESTS)) == "You have exceeded the allowed number of actions, max: 10"
  {
  }
}
