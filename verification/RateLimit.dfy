/** The in-memory per-key sliding-window limiter (internal/httpx/ratelimit.go).
    Instants and durations are integers (nanoseconds); each call is given the
    clock reading it took before it acquired the lock. */
module RateLimit {

  /** `count` events per `window`. */
  datatype Rate = Rate(count: int, window: int)

  datatype State = State(events: map<string, seq<int>>, lastSweep: int)

  /** The log of one key; a missing map entry reads as the empty log. */
  function Bucket(events: map<string, seq<int>>, key: string): seq<int> {
    if key in events then events[key] else []
  }

  /** What is left of a log when its leading stamps not after `cutoff` are dropped. */
  function Pruned(ev: seq<int>, cutoff: int): seq<int> {
    if ev != [] && ev[0] <= cutoff then Pruned(ev[1..], cutoff) else ev
  }

  /** Pruning removes a prefix of stamps not after `cutoff` and stops at the first later one. */
  lemma {:induction false} PrunedIsSuffix(ev: seq<int>, cutoff: int) returns (n: nat)
    ensures n <= |ev| && Pruned(ev, cutoff) == ev[n..]
    ensures forall i :: 0 <= i < n ==> ev[i] <= cutoff
    ensures n < |ev| ==> cutoff < ev[n]
  {
    if ev != [] && ev[0] <= cutoff {
      var m := PrunedIsSuffix(ev[1..], cutoff);
      n := m + 1;
      assert ev[1..][m..] == ev[n..];
      forall i | 0 <= i < n ensures ev[i] <= cutoff {
        assert i > 0 ==> ev[i] == ev[1..][i - 1];
      }
    } else {
      n := 0;
    }
  }

  /** Every log pruned, and the keys whose log became empty removed. */
  function Swept(events: map<string, seq<int>>, cutoff: int): map<string, seq<int>> {
    map k | k in events && Pruned(events[k], cutoff) != [] :: Pruned(events[k], cutoff)
  }

  /** The state after one call and its answer. */
  function AllowStep(rate: Rate, s: State, key: string, now: int): (State, bool) {
    var cutoff := now - rate.window;
    var ev := Pruned(Bucket(s.events, key), cutoff);
    if |ev| >= rate.count then
      (State(s.events[key := ev], s.lastSweep), false)
    else
      var events := s.events[key := ev + [now]];
      if now - s.lastSweep > rate.window
      then (State(Swept(events, cutoff), now), true)
      else (State(events, s.lastSweep), true)
  }

  ghost predicate IsExpiredHead(ev: seq<int>, cutoff: int, n: int)
    requires 0 <= n <= |ev|
  {
    (forall i :: 0 <= i < n ==> ev[i] <= cutoff) && (n < |ev| ==> cutoff < ev[n])
  }

  /** `kept` is `ev` without its leading stamps not after `cutoff`. */
  ghost predicate IsPruned(ev: seq<int>, cutoff: int, kept: seq<int>) {
    exists n :: 0 <= n <= |ev| && kept == ev[n..] && IsExpiredHead(ev, cutoff, n)
  }

  lemma PrunedIsPruned(ev: seq<int>, cutoff: int)
    ensures IsPruned(ev, cutoff, Pruned(ev, cutoff))
  {
    var n := PrunedIsSuffix(ev, cutoff);
    assert IsExpiredHead(ev, cutoff, n);
  }

  /** The log of `k` after a call for `key` that left `kept` of its own log, and before any sweep. */
  function LogBeforeSweep(s: State, key: string, now: int, ok: bool, kept: seq<int>, k: string): seq<int> {
    if k != key then Bucket(s.events, k) else if ok then kept + [now] else kept
  }

  /** A refused call prunes the log of its key and changes nothing else. */
  lemma RefusedCall(rate: Rate, s: State, key: string, now: int, k: string)
    requires !AllowStep(rate, s, key, now).1
    ensures var (s', _) := AllowStep(rate, s, key, now);
      var kept := Pruned(Bucket(s.events, key), now - rate.window);
      && s'.lastSweep == s.lastSweep
      && Bucket(s'.events, k) == LogBeforeSweep(s, key, now, false, kept, k)
      && (k in s'.events <==> k == key || k in s.events)
  {
  }

  /** An admitted call is added to that log; if the last sweep is no more than a window ago, that is all. */
  lemma AdmittedCall(rate: Rate, s: State, key: string, now: int, k: string)
    requires AllowStep(rate, s, key, now).1 && now - s.lastSweep <= rate.window
    ensures var (s', _) := AllowStep(rate, s, key, now);
      var kept := Pruned(Bucket(s.events, key), now - rate.window);
      && s'.lastSweep == s.lastSweep
      && Bucket(s'.events, k) == LogBeforeSweep(s, key, now, true, kept, k)
      && (k in s'.events <==> k == key || k in s.events)
  {
  }

  lemma SweptLog(events: map<string, seq<int>>, cutoff: int, k: string)
    ensures Bucket(Swept(events, cutoff), k) == Pruned(Bucket(events, k), cutoff)
    ensures k in Swept(events, cutoff) <==> Pruned(Bucket(events, k), cutoff) != []
  {
  }

  lemma SweepingStep(rate: Rate, s: State, key: string, now: int)
    requires AllowStep(rate, s, key, now).1 && now - s.lastSweep > rate.window
    ensures var kept := Pruned(Bucket(s.events, key), now - rate.window);
      AllowStep(rate, s, key, now).0 == State(Swept(s.events[key := kept + [now]], now - rate.window), now)
  {
  }

  lemma LogAdded(s: State, key: string, now: int, kept: seq<int>, k: string)
    ensures Bucket(s.events[key := kept + [now]], k) == LogBeforeSweep(s, key, now, true, kept, k)
  {
  }

  /** Otherwise all logs are pruned, and those that are left empty removed. */
  lemma SweepingCall(rate: Rate, s: State, key: string, now: int, k: string)
    requires AllowStep(rate, s, key, now).1 && now - s.lastSweep > rate.window
    ensures var (s', _) := AllowStep(rate, s, key, now);
      var kept := Pruned(Bucket(s.events, key), now - rate.window);
      var log := LogBeforeSweep(s, key, now, true, kept, k);
      && s'.lastSweep == now
      && IsPruned(log, now - rate.window, Bucket(s'.events, k))
      && (k in s'.events <==> Bucket(s'.events, k) != [])
  {
    var cutoff := now - rate.window;
    var kept := Pruned(Bucket(s.events, key), cutoff);
    var log := LogBeforeSweep(s, key, now, true, kept, k);
    PrunedIsPruned(log, cutoff);
    SweepingStep(rate, s, key, now);
    LogAdded(s, key, now, kept, k);
    SweptLog(s.events[key := kept + [now]], cutoff, k);
  }

  /** A call is admitted exactly if fewer than `count` stamps are left when the leading stamps of its log are
      dropped that are not after the start of its window. */
  lemma AdmittedIff(rate: Rate, s: State, key: string, now: int)
    ensures var kept := Pruned(Bucket(s.events, key), now - rate.window);
      && IsPruned(Bucket(s.events, key), now - rate.window, kept)
      && (AllowStep(rate, s, key, now).1 <==> |kept| < rate.count)
  {
    PrunedIsPruned(Bucket(s.events, key), now - rate.window);
  }

  class Limiter {
    const rate: Rate
    var events: map<string, seq<int>>
    var lastSweep: int

    ghost function View(): State
      reads this
    {
      State(events, lastSweep)
    }

    constructor (rate: Rate, now: int)
      ensures this.rate == rate && View() == State(map[], now)
    {
      this.rate := rate;
      events := map[];
      lastSweep := now;
    }

    static method Prune(ev: seq<int>, cutoff: int) returns (kept: seq<int>)
      ensures kept == Pruned(ev, cutoff)
    {
      kept := ev;
      while kept != [] && kept[0] <= cutoff
        invariant Pruned(kept, cutoff) == Pruned(ev, cutoff)
        decreases |kept|
      {
        kept := kept[1..];
      }
    }

    /** The loop over all keys at the end of an admitted call; the order of the keys is arbitrary. */
    method Sweep(cutoff: int)
      modifies this`events
      ensures events == Swept(old(events), cutoff)
    {
      ghost var before := events;
      var todo := events.Keys;
      while todo != {}
        invariant todo <= events.Keys <= before.Keys
        invariant forall k :: k in todo ==> events[k] == before[k]
        invariant forall k :: k in before && k !in todo ==>
          if Pruned(before[k], cutoff) == [] then k !in events
          else k in events && events[k] == Pruned(before[k], cutoff)
        decreases |todo|
      {
        var k :| k in todo;
        var kept := Prune(events[k], cutoff);
        if kept == [] {
          events := events - {k};
        } else {
          events := events[k := kept];
        }
        todo := todo - {k};
      }
    }

    method Allow(key: string, now: int) returns (ok: bool)
      modifies this
      ensures (View(), ok) == AllowStep(rate, old(View()), key, now)
    {
      var cutoff := now - rate.window;
      var ev := Prune(if key in events then events[key] else [], cutoff);
      if |ev| >= rate.count {
        events := events[key := ev];
        return false;
      }
      events := events[key := ev + [now]];
      if now - lastSweep > rate.window {
        Sweep(cutoff);
        lastSweep := now;
      }
      return true;
    }
  }
}
