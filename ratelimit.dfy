/**
 * `checkRateLimit`: a fixed-window limiter keyed by client address. Each key
 * holds an attempt count and the instant its window ends; within a window at
 * most five attempts are let through, and the first call after the window
 * ends opens a new one. The clock is a parameter (milliseconds).
 */
module RateLimit {

  /** Attempts let through per window. */
  const MaxAttempts: int := 5

  /** Length of a window in milliseconds: ten minutes. */
  const WindowMs: int := 10 * 60 * 1000

  /** What the store holds for one key. */
  datatype Entry = Entry(attempts: int, resetTime: int)

  type Store = map<string, Entry>

  /** The store key of a client address. */
  function Key(ip: string): (k: string)
    ensures |k| == |ip| + 6 && k[..6] == "login_" && k[6..] == ip
  {
    "login_" + ip
  }

  /** Distinct addresses never share an entry. */
  lemma KeyInjective(ip1: string, ip2: string)
    ensures Key(ip1) == Key(ip2) <==> ip1 == ip2
  {
    if Key(ip1) == Key(ip2) {
      assert ip1 == Key(ip1)[6..] == Key(ip2)[6..] == ip2;
    }
  }

  /** The outcome of one check: whether the attempt may proceed, and the new store. */
  datatype Decision = Decision(allowed: bool, store: Store)

  /** The limiter refuses exactly when a live window has used up its attempts. */
  predicate Exhausted(store: Store, ip: string, now: int) {
    Key(ip) in store && now <= store[Key(ip)].resetTime && store[Key(ip)].attempts >= MaxAttempts
  }

  /** One call of `checkRateLimit(ip)` at instant `now`, on the store as a value. */
  function Decide(store: Store, ip: string, now: int): (d: Decision)
    ensures d.allowed <==> !Exhausted(store, ip, now)
    ensures !d.allowed ==> d.store == store
    ensures Key(ip) in d.store
    ensures forall k :: k != Key(ip) ==> (k in d.store <==> k in store)
    ensures forall k :: k in store && k != Key(ip) ==> d.store[k] == store[k]
    ensures (Key(ip) !in store || now > store[Key(ip)].resetTime) ==>
              d.store[Key(ip)] == Entry(1, now + WindowMs)
    ensures d.allowed && Key(ip) in store && now <= store[Key(ip)].resetTime ==>
              d.store[Key(ip)] == store[Key(ip)].(attempts := store[Key(ip)].attempts + 1)
  {
    var key := Key(ip);
    if key !in store || now > store[key].resetTime then
      Decision(true, store[key := Entry(1, now + WindowMs)])
    else if store[key].attempts >= MaxAttempts then
      Decision(false, store)
    else
      Decision(true, store[key := store[key].(attempts := store[key].attempts + 1)])
  }

  /** Every stored count lies between one and the maximum. */
  predicate Bounded(store: Store) {
    forall k :: k in store ==> 1 <= store[k].attempts <= MaxAttempts
  }

  /** A check never pushes a count past the maximum. */
  lemma DecideKeepsBounded(store: Store, ip: string, now: int)
    requires Bounded(store)
    ensures Bounded(Decide(store, ip, now).store)
  {
  }

  /** The store as a mutable object: the module-level map of the library. */
  class RateLimiter {
    var store: Store

    ghost predicate Valid()
      reads this
    {
      Bounded(store)
    }

    constructor ()
      ensures store == map[] && Valid()
    {
      store := map[];
    }

    /** `checkRateLimit(ip)` with the clock reading `now`. */
    method CheckRateLimit(ip: string, now: int) returns (allowed: bool)
      requires Valid()
      modifies this
      ensures Valid()
      ensures allowed == Decide(old(store), ip, now).allowed
      ensures store == Decide(old(store), ip, now).store
    {
      var key := "login_" + ip;
      if key !in store || now > store[key].resetTime {
        store := store[key := Entry(1, now + WindowMs)];
        return true;
      }
      var limit := store[key];
      if limit.attempts >= MaxAttempts {
        return false;
      }
      store := store[key := limit.(attempts := limit.attempts + 1)];
      allowed := true;
      DecideKeepsBounded(old(store), ip, now);
    }
  }

  /** The answers to successive checks for one address at the given instants. */
  function Run(store: Store, ip: string, times: seq<int>): (answers: seq<bool>)
    ensures |answers| == |times|
    decreases |times|
  {
    if times == [] then []
    else
      var d := Decide(store, ip, times[0]);
      [d.allowed] + Run(d.store, ip, times[1..])
  }

  /** Inside a live window that has used `a` attempts, the `k`-th further call is let through iff `a + k < 5`. */
  lemma {:induction false} RunInWindow(store: Store, ip: string, times: seq<int>)
    requires Key(ip) in store && 1 <= store[Key(ip)].attempts <= MaxAttempts
    requires forall i :: 0 <= i < |times| ==> times[i] <= store[Key(ip)].resetTime
    ensures forall k :: 0 <= k < |times| ==>
              Run(store, ip, times)[k] == (store[Key(ip)].attempts + k < MaxAttempts)
    decreases |times|
  {
    if times != [] {
      var d := Decide(store, ip, times[0]);
      RunInWindow(d.store, ip, times[1..]);
      forall k | 0 <= k < |times|
        ensures Run(store, ip, times)[k] == (store[Key(ip)].attempts + k < MaxAttempts)
      {
        if k > 0 { assert Run(store, ip, times)[k] == Run(d.store, ip, times[1..])[k - 1]; }
      }
    }
  }

  /**
   * A fresh address (or one whose window has ended) gets exactly five attempts in
   * the ten minutes that follow its first one: calls one to five are let through
   * and every later call in the window is refused.
   */
  lemma {:induction false} FiveAttemptsPerWindow(store: Store, ip: string, times: seq<int>)
    requires times != [] && (Key(ip) !in store || times[0] > store[Key(ip)].resetTime)
    requires forall i :: 0 <= i < |times| ==> times[i] <= times[0] + WindowMs
    ensures forall k :: 0 <= k < |times| ==> Run(store, ip, times)[k] == (k < MaxAttempts)
  {
    var d := Decide(store, ip, times[0]);
    RunInWindow(d.store, ip, times[1..]);
    forall k | 0 <= k < |times| ensures Run(store, ip, times)[k] == (k < MaxAttempts) {
      if k > 0 { assert Run(store, ip, times)[k] == Run(d.store, ip, times[1..])[k - 1]; }
    }
  }

  /** Once a window has ended, the next call is let through and starts a new window with one attempt. */
  lemma WindowReset(store: Store, ip: string, now: int)
    requires Key(ip) in store && now > store[Key(ip)].resetTime
    ensures Decide(store, ip, now).allowed
    ensures Decide(store, ip, now).store == store[Key(ip) := Entry(1, now + WindowMs)]
  {
  }
}
