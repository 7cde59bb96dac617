/**
 * The fixed-window rate limiter of lib/rateLimit.ts: a process-wide table from client identifier
 * to a window `{count, resetTime}`. A call for an identifier with no window, or whose window has
 * expired, opens a new window of WINDOW_MS milliseconds; otherwise it counts one more call in the
 * window, and at most RATE_LIMIT calls of a window are allowed. A periodic sweep deletes the
 * expired windows. The clock is a parameter.
 */
module RateLimit {
  import opened Wrappers
  import opened Text

  const RATE_LIMIT := 25
  const WINDOW_MS := 1000

  datatype Window = Window(count: int, resetTime: int)

  /** What `rateLimit` returns. */
  datatype Verdict = Verdict(allowed: bool, remaining: int, resetTime: int)

  /** Expiry is strict: at `now == resetTime` the window still applies. */
  predicate Expired(w: Window, now: int) {
    w.resetTime < now
  }

  function Lookup(store: map<string, Window>, key: string): Option<Window> {
    if key in store then Some(store[key]) else None
  }

  /** One call for one identifier: its window afterwards and the verdict. */
  function Admit(entry: Option<Window>, now: int): (r: (Window, Verdict))
    ensures entry.None? || Expired(entry.value, now) ==>
      r.0 == Window(1, now + WINDOW_MS) && r.1 == Verdict(true, RATE_LIMIT - 1, now + WINDOW_MS)
    ensures entry.Some? && !Expired(entry.value, now) ==>
      r.0 == Window(entry.value.count + 1, entry.value.resetTime)
    ensures r.1.allowed <==> r.0.count <= RATE_LIMIT
    ensures r.1.remaining == if r.1.allowed then RATE_LIMIT - r.0.count else 0
    ensures r.1.resetTime == r.0.resetTime
  {
    if entry.None? || Expired(entry.value, now) then
      (Window(1, now + WINDOW_MS), Verdict(true, RATE_LIMIT - 1, now + WINDOW_MS))
    else
      var w := entry.value.(count := entry.value.count + 1);
      if w.count > RATE_LIMIT then (w, Verdict(false, 0, w.resetTime))
      else (w, Verdict(true, RATE_LIMIT - w.count, w.resetTime))
  }

  /** The verdicts of successive calls for one identifier at the given times. */
  function Replay(entry: Option<Window>, times: seq<int>): (vs: seq<Verdict>)
    ensures |vs| == |times|
    decreases |times|
  {
    if times == [] then []
    else
      var (w, v) := Admit(entry, times[0]);
      [v] + Replay(Some(w), times[1..])
  }

  /** Inside a live window that already counts `c` calls, call `j` (from 0) is the
      (c + j + 1)-th of the window: allowed while that is at most RATE_LIMIT, with the rest of the
      budget as `remaining`, and the window's reset time unchanged. */
  lemma {:induction false} LiveWindowReplay(c: int, reset: int, times: seq<int>, j: nat)
    requires forall k :: 0 <= k < |times| ==> times[k] <= reset
    requires j < |times|
    ensures var n := c + j + 1;
      Replay(Some(Window(c, reset)), times)[j] ==
        Verdict(n <= RATE_LIMIT, if n <= RATE_LIMIT then RATE_LIMIT - n else 0, reset)
    decreases j
  {
    if j > 0 {
      LiveWindowReplay(c + 1, reset, times[1..], j - 1);
    }
  }

  /** A burst from a new (or expired) identifier within one window: calls 0..24 are allowed with
      `remaining` 24, 23, ..., 0, and every later call is denied with `remaining` 0; all of them
      report the reset time of the window the first call opened. */
  lemma FreshBurst(entry: Option<Window>, times: seq<int>, j: nat)
    requires |times| > 0 && (entry.None? || Expired(entry.value, times[0]))
    requires forall k :: 0 < k < |times| ==> times[k] <= times[0] + WINDOW_MS
    requires j < |times|
    ensures Replay(entry, times)[j] ==
      Verdict(j < RATE_LIMIT, if j < RATE_LIMIT then RATE_LIMIT - 1 - j else 0, times[0] + WINDOW_MS)
  {
    if j > 0 {
      LiveWindowReplay(1, times[0] + WINDOW_MS, times[1..], j - 1);
    }
  }

  // ---------------------------------------------------------------------------------------------
  // The table as written: a plain object

  /** The properties every plain object inherits from `Object.prototype`. Looking one of these up
      in the table finds the inherited function or object instead of "no window". */
  const PROTOTYPE_NAMES: set<string> := {
    "constructor", "__proto__", "hasOwnProperty", "isPrototypeOf", "propertyIsEnumerable",
    "toString", "toLocaleString", "valueOf", "__defineGetter__", "__defineSetter__",
    "__lookupGetter__", "__lookupSetter__"
  }

  /** What the function hands back as written: a verdict, or, for an inherited name, `allowed`
      true with `remaining` NaN and `resetTime` undefined. */
  datatype RateAnswer = Limited(verdict: Verdict) | Unlimited

  /** One call as the code is written. For an inherited name, `!store[key]` is false and
      `undefined < now` is false, so the call lands in the existing-window path: `count` becomes
      NaN, `NaN > RATE_LIMIT` is false, and the call is allowed without a window being stored.
      Every other identifier behaves as `Admit`. */
  function AdmitAsWritten(key: string, entry: Option<Window>, now: int)
    : (r: (Option<Window>, RateAnswer))
    ensures key in PROTOTYPE_NAMES ==> r == (entry, Unlimited)
    ensures key !in PROTOTYPE_NAMES ==>
      r.0 == Some(Admit(entry, now).0) && r.1 == Limited(Admit(entry, now).1)
  {
    if key in PROTOTYPE_NAMES then (entry, Unlimited)
    else
      var (w, v) := Admit(entry, now);
      (Some(w), Limited(v))
  }

  /** The answers of successive calls for one identifier, as written. */
  function ReplayAsWritten(key: string, entry: Option<Window>, times: seq<int>)
    : (answers: seq<RateAnswer>)
    ensures |answers| == |times|
    decreases |times|
  {
    if times == [] then []
    else
      var (e, a) := AdmitAsWritten(key, entry, times[0]);
      [a] + ReplayAsWritten(key, e, times[1..])
  }

  /** As written, an identifier that names an inherited property is never limited, however many
      calls it makes. */
  lemma {:induction false} PrototypeKeyNeverLimited(key: string, entry: Option<Window>, times: seq<int>)
    requires key in PROTOTYPE_NAMES
    ensures forall j :: 0 <= j < |times| ==> ReplayAsWritten(key, entry, times)[j] == Unlimited
    decreases |times|
  {
    if times != [] {
      PrototypeKeyNeverLimited(key, entry, times[1..]);
    }
  }

  /** Every other identifier gets the verdicts of the intended table. */
  lemma {:induction false} OwnKeyAsIntended(key: string, entry: Option<Window>, times: seq<int>)
    requires key !in PROTOTYPE_NAMES
    ensures forall j :: 0 <= j < |times| ==>
      ReplayAsWritten(key, entry, times)[j] == Limited(Replay(entry, times)[j])
    decreases |times|
  {
    if times != [] {
      OwnKeyAsIntended(key, Some(Admit(entry, times[0]).0), times[1..]);
    }
  }

  /** The discrepancy on one input: 26 calls at one instant from the client "constructor". The
      intended table denies the 26th; as written it is allowed. */
  lemma ConstructorBurst()
    ensures var times := seq(26, _ => 0);
      && ReplayAsWritten("constructor", None, times)[25] == Unlimited
      && !Replay(None, times)[25].allowed
  {
    var times := seq(26, _ => 0);
    PrototypeKeyNeverLimited("constructor", None, times);
    FreshBurst(None, times, 25);
  }

  /** The windows the sweep keeps: exactly those not expired at `now`. */
  function Unexpired(store: map<string, Window>, now: int): (r: map<string, Window>)
    ensures forall k :: k in r <==> k in store && !Expired(store[k], now)
    ensures forall k :: k in r ==> r[k] == store[k]
  {
    map k | k in store && !Expired(store[k], now) :: store[k]
  }

  /** The sweep changes no later verdict: a window it deletes would have been replaced by a new
      one anyway. */
  lemma SweepUnobservable(store: map<string, Window>, sweptAt: int, key: string, now: int)
    requires sweptAt <= now
    ensures Admit(Lookup(Unexpired(store, sweptAt), key), now) == Admit(Lookup(store, key), now)
  {
  }

  class RateLimiter {
    var store: map<string, Window>

    /** Every stored window has counted at least the call that opened it. */
    ghost predicate Valid()
      reads this
    {
      forall k :: k in store ==> store[k].count >= 1
    }

    constructor ()
      ensures Valid() && store == map[]
    {
      store := map[];
    }

    /** `rateLimit(identifier)` at time `now`: only the identifier's own window changes. */
    method RateLimit(identifier: string, now: int) returns (v: Verdict)
      requires Valid()
      modifies this
      ensures Valid()
      ensures store == old(store)[identifier := Admit(Lookup(old(store), identifier), now).0]
      ensures v == Admit(Lookup(old(store), identifier), now).1
      ensures v.allowed ==> 0 <= v.remaining < RATE_LIMIT
    {
      var key := identifier;
      if key !in store || store[key].resetTime < now {
        store := store[key := Window(1, now + WINDOW_MS)];
        return Verdict(true, RATE_LIMIT - 1, store[key].resetTime);
      }
      store := store[key := store[key].(count := store[key].count + 1)];
      if store[key].count > RATE_LIMIT {
        return Verdict(false, 0, store[key].resetTime);
      }
      return Verdict(true, RATE_LIMIT - store[key].count, store[key].resetTime);
    }

    /** The body of the periodic cleanup: deletes every window whose reset time is before `now`. */
    method Sweep(now: int)
      requires Valid()
      modifies this
      ensures Valid()
      ensures store == Unexpired(old(store), now)
    {
      var keys := store.Keys;
      while keys != {}
        invariant keys <= store.Keys <= old(store).Keys
        invariant forall k :: k in store ==> store[k] == old(store)[k]
        invariant forall k :: k in old(store) && k !in keys ==>
          (k in store <==> !Expired(old(store)[k], now))
        decreases keys
      {
        var key :| key in keys;
        if store[key].resetTime < now {
          store := store - {key};
        }
        keys := keys - {key};
      }
    }
  }

  /** Request headers that name the client. */
  datatype Headers = Headers(forwardedFor: Option<string>, realIp: Option<string>, cfConnectingIp: Option<string>)

  /** `getClientIdentifier`: the first present of the first comma-separated entry of
      `x-forwarded-for` (trimmed), `x-real-ip` and `cf-connecting-ip`; "unknown" otherwise. */
  function ClientIdentifier(h: Headers): (id: string)
    ensures Truthy(h.forwardedFor) ==> id == Trim(TakeUntil(h.forwardedFor.value, ','))
    ensures !Truthy(h.forwardedFor) && Truthy(h.realIp) ==> id == h.realIp.value
    ensures !Truthy(h.forwardedFor) && !Truthy(h.realIp) && Truthy(h.cfConnectingIp) ==>
      id == h.cfConnectingIp.value
    ensures !Truthy(h.forwardedFor) && !Truthy(h.realIp) && !Truthy(h.cfConnectingIp) ==>
      id == "unknown"
  {
    if Truthy(h.forwardedFor) then
      SplitFirst(h.forwardedFor.value, ',');
      Trim(Split(h.forwardedFor.value, ',')[0])
    else if Truthy(h.realIp) then h.realIp.value
    else if Truthy(h.cfConnectingIp) then h.cfConnectingIp.value
    else "unknown"
  }
}
