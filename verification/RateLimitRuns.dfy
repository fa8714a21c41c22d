/** Runs of the limiter: any number of calls for any mixture of keys, in the
    order in which they acquire the lock. */
module RateLimitRuns {
  import opened RateLimit

  datatype Call = Call(key: string, now: int)

  function Init(t0: int): State {
    State(map[], t0)
  }

  /** The state after a run that starts from a new limiter. */
  function After(rate: Rate, t0: int, calls: seq<Call>): State {
    if calls == [] then Init(t0)
    else
      var c := calls[|calls| - 1];
      AllowStep(rate, After(rate, t0, calls[..|calls| - 1]), c.key, c.now).0
  }

  /** The answer to the last call of a run. */
  predicate Verdict(rate: Rate, t0: int, calls: seq<Call>)
    requires calls != []
  {
    var c := calls[|calls| - 1];
    AllowStep(rate, After(rate, t0, calls[..|calls| - 1]), c.key, c.now).1
  }

  /** The stamps of the calls for `key` that the run admitted, in order. */
  function Admitted(rate: Rate, t0: int, calls: seq<Call>, key: string): seq<int> {
    if calls == [] then []
    else
      var c := calls[|calls| - 1];
      var earlier := Admitted(rate, t0, calls[..|calls| - 1], key);
      if c.key == key && Verdict(rate, t0, calls) then earlier + [c.now] else earlier
  }

  /** How many stamps lie after `lo` and not after `hi`. */
  function CountIn(ev: seq<int>, lo: int, hi: int): nat {
    if ev == [] then 0
    else CountIn(ev[..|ev| - 1], lo, hi) + if lo < ev[|ev| - 1] <= hi then 1 else 0
  }

  // ---- the naive limiter -------------------------------------------------

  /** What a limiter admits that keeps every admitted stamp for ever and looks
      only at the stamps in (now - window, now]. */
  function NaiveAdmitted(rate: Rate, calls: seq<Call>, key: string): seq<int>
    decreases |calls|, 1
  {
    if calls == [] then []
    else
      var c := calls[|calls| - 1];
      var earlier := NaiveAdmitted(rate, calls[..|calls| - 1], key);
      if c.key == key && NaiveVerdict(rate, calls) then earlier + [c.now] else earlier
  }

  predicate NaiveVerdict(rate: Rate, calls: seq<Call>)
    requires calls != []
    decreases |calls|, 0
  {
    var c := calls[|calls| - 1];
    CountIn(NaiveAdmitted(rate, calls[..|calls| - 1], c.key), c.now - rate.window, c.now) < rate.count
  }

  // ---- clocks ------------------------------------------------------------

  /** Every stamp trails the stamps processed before it by at most `skew`. */
  ghost predicate WithinSkew(calls: seq<Call>, skew: int) {
    forall i, j :: 0 <= i < j < |calls| ==> calls[i].now - skew <= calls[j].now
  }

  ghost predicate Nondecreasing(calls: seq<Call>) {
    WithinSkew(calls, 0)
  }

  lemma SkewPrefix(before: seq<Call>, c: Call, skew: int)
    requires WithinSkew(before + [c], skew)
    ensures WithinSkew(before, skew)
    ensures forall i :: 0 <= i < |before| ==> before[i].now - skew <= c.now
  {
    var calls := before + [c];
    assert calls[|before|] == c;
    assert forall i :: 0 <= i < |before| ==> calls[i] == before[i];
  }

  /** Some call of the run has a stamp of at least `t`. */
  ghost predicate Reached(calls: seq<Call>, t: int) {
    exists i :: 0 <= i < |calls| && t <= calls[i].now
  }

  // ---- what a log has forgotten -------------------------------------------

  /** `ev` is what remains of `adm` when stamps are dropped that a clock reading of the run put outside the window. */
  ghost predicate Forgets(rate: Rate, calls: seq<Call>, adm: seq<int>, ev: seq<int>) {
    && |ev| <= |adm|
    && ev == adm[|adm| - |ev|..]
    && forall i :: 0 <= i < |adm| - |ev| ==> Reached(calls, adm[i] + rate.window)
  }

  lemma ReachedGrows(calls: seq<Call>, c: Call, t: int)
    ensures Reached(calls, t) ==> Reached(calls + [c], t)
    ensures t <= c.now ==> Reached(calls + [c], t)
  {
    if Reached(calls, t) {
      var i :| 0 <= i < |calls| && t <= calls[i].now;
      assert (calls + [c])[i] == calls[i];
    }
    assert (calls + [c])[|calls|] == c;
  }

  /** Pruning with the cutoff of one more call only forgets stamps that call put outside the window. */
  lemma PruneForgets(rate: Rate, calls: seq<Call>, c: Call, adm: seq<int>, ev: seq<int>)
    requires Forgets(rate, calls, adm, ev)
    ensures Forgets(rate, calls + [c], adm, ev)
    ensures Forgets(rate, calls + [c], adm, Pruned(ev, c.now - rate.window))
  {
    var n := PrunedIsSuffix(ev, c.now - rate.window);
    var d := |adm| - |ev|;
    assert ev[n..] == adm[d + n..];
    forall i | 0 <= i < d + n ensures Reached(calls + [c], adm[i] + rate.window) {
      ReachedGrows(calls, c, adm[i] + rate.window);
      assert i >= d ==> adm[i] == ev[i - d];
    }
  }

  lemma AdmitForgets(rate: Rate, calls: seq<Call>, adm: seq<int>, ev: seq<int>, now: int)
    requires Forgets(rate, calls, adm, ev)
    ensures Forgets(rate, calls, adm + [now], ev + [now])
  {
    assert (adm + [now])[|adm| - |ev|..] == ev + [now];
  }

  lemma SweptBucket(events: map<string, seq<int>>, cutoff: int, key: string)
    ensures Bucket(Swept(events, cutoff), key) == Pruned(Bucket(events, key), cutoff)
  {
  }

  /** Pruning once more with the cutoff of the last call. */
  lemma SweepAgain(rate: Rate, before: seq<Call>, c: Call, adm: seq<int>, ev: seq<int>)
    requires Forgets(rate, before + [c], adm, ev)
    ensures Forgets(rate, before + [c], adm, Pruned(ev, c.now - rate.window))
  {
    var calls := before + [c];
    var n := PrunedIsSuffix(ev, c.now - rate.window);
    var d := |adm| - |ev|;
    assert ev[n..] == adm[d + n..];
    forall i | 0 <= i < d + n ensures Reached(calls, adm[i] + rate.window) {
      if i >= d {
        assert adm[i] == ev[i - d];
        assert calls[|before|] == c;
      }
    }
  }

  /** The log of any key after a call: its own call prunes and perhaps appends, a sweep prunes (again). */
  lemma StepBucket(rate: Rate, s: State, c: Call, key: string)
    ensures var (s', ok) := AllowStep(rate, s, c.key, c.now);
      var cutoff := c.now - rate.window;
      var ev := Bucket(s.events, key);
      var mine := if c.key != key then ev else if ok then Pruned(ev, cutoff) + [c.now] else Pruned(ev, cutoff);
      Bucket(s'.events, key) == mine || Bucket(s'.events, key) == Pruned(mine, cutoff)
  {
    var cutoff := c.now - rate.window;
    SweptBucket(s.events[c.key := Pruned(Bucket(s.events, c.key), cutoff) + [c.now]], cutoff, key);
  }

  /** One call keeps the relation between the history of any key and its log. */
  lemma StepForgets(rate: Rate, before: seq<Call>, c: Call, s: State, adm: seq<int>, key: string, ok: bool)
    requires Forgets(rate, before, adm, Bucket(s.events, key))
    requires ok == AllowStep(rate, s, c.key, c.now).1
    ensures Forgets(rate, before + [c], if ok && c.key == key then adm + [c.now] else adm,
                    Bucket(AllowStep(rate, s, c.key, c.now).0.events, key))
  {
    var calls, ev := before + [c], Bucket(s.events, key);
    var pruned := Pruned(ev, c.now - rate.window);
    PruneForgets(rate, before, c, adm, ev);
    StepBucket(rate, s, c, key);
    if c.key != key {
      SweepAgain(rate, before, c, adm, ev);
    } else if ok {
      AdmitForgets(rate, calls, adm, pruned, c.now);
      SweepAgain(rate, before, c, adm + [c.now], pruned + [c.now]);
    } else {
      SweepAgain(rate, before, c, adm, pruned);
    }
  }

  /** The functions over runs, unrolled for the last call. */
  lemma LastCall(rate: Rate, t0: int, before: seq<Call>, c: Call, key: string)
    ensures var (s', ok) := AllowStep(rate, After(rate, t0, before), c.key, c.now);
      && After(rate, t0, before + [c]) == s'
      && Verdict(rate, t0, before + [c]) == ok
      && Admitted(rate, t0, before + [c], key)
         == (var adm := Admitted(rate, t0, before, key); if ok && c.key == key then adm + [c.now] else adm)
  {
    assert (before + [c])[..|before + [c]| - 1] == before;
  }

  lemma LastVerdict(rate: Rate, t0: int, before: seq<Call>, c: Call)
    ensures Verdict(rate, t0, before + [c])
      == (|Pruned(Bucket(After(rate, t0, before).events, c.key), c.now - rate.window)| < rate.count)
  {
    assert (before + [c])[..|before + [c]| - 1] == before;
  }

  lemma NaiveLastVerdict(rate: Rate, before: seq<Call>, c: Call)
    ensures NaiveVerdict(rate, before + [c])
      == (CountIn(NaiveAdmitted(rate, before, c.key), c.now - rate.window, c.now) < rate.count)
  {
    assert (before + [c])[..|before + [c]| - 1] == before;
  }

  /** In every run, for every key, the log is the admitted history with only expired stamps
      forgotten, whatever the sweeps of other calls did to it. */
  lemma {:induction false} LogForgetsOnlyExpired(rate: Rate, t0: int, calls: seq<Call>, key: string)
    ensures Forgets(rate, calls, Admitted(rate, t0, calls, key), Bucket(After(rate, t0, calls).events, key))
  {
    if calls != [] {
      var before, c := calls[..|calls| - 1], calls[|calls| - 1];
      assert calls == before + [c];
      LogForgetsOnlyExpired(rate, t0, before, key);
      StepForgets(rate, before, c, After(rate, t0, before), Admitted(rate, t0, before, key), key,
                  Verdict(rate, t0, calls));
      LastCall(rate, t0, before, c, key);
    }
  }

  // ---- the window bound under clock skew ----------------------------------

  ghost predicate Spaced(adm: seq<int>, count: int, gap: int) {
    forall i, j :: 0 <= i < j < |adm| && count <= j - i ==> gap <= adm[j] - adm[i]
  }

  lemma StepSpaced(rate: Rate, before: seq<Call>, c: Call, adm: seq<int>, ev: seq<int>, skew: int)
    requires WithinSkew(before + [c], skew) && 0 <= skew
    requires Forgets(rate, before, adm, ev) && Spaced(adm, rate.count, rate.window - skew)
    requires |Pruned(ev, c.now - rate.window)| < rate.count
    ensures Spaced(adm + [c.now], rate.count, rate.window - skew)
  {
    var calls := before + [c];
    PruneForgets(rate, before, c, adm, ev);
    var kept := Pruned(ev, c.now - rate.window);
    forall i | 0 <= i < |adm| && rate.count <= |adm| - i
      ensures rate.window - skew <= c.now - adm[i]
    {
      assert Reached(calls, adm[i] + rate.window);
      var k :| 0 <= k < |calls| && adm[i] + rate.window <= calls[k].now;
      assert calls[|before|] == c;
    }
  }

  /** With stamps that trail by at most `skew`, an admitted event and the one `count` admitted
      events of its key before it are at least `window - skew` apart. */
  lemma {:induction false} AdmittedAreSpaced(rate: Rate, t0: int, calls: seq<Call>, key: string, skew: int)
    requires WithinSkew(calls, skew) && 0 <= skew
    ensures Spaced(Admitted(rate, t0, calls, key), rate.count, rate.window - skew)
  {
    if calls != [] {
      var before, c := calls[..|calls| - 1], calls[|calls| - 1];
      assert calls == before + [c];
      SkewPrefix(before, c, skew);
      AdmittedAreSpaced(rate, t0, before, key, skew);
      LastCall(rate, t0, before, c, key);
      if Admitted(rate, t0, calls, key) != Admitted(rate, t0, before, key) {
        LogForgetsOnlyExpired(rate, t0, before, key);
        LastVerdict(rate, t0, before, c);
        StepSpaced(rate, before, c, Admitted(rate, t0, before, key),
                   Bucket(After(rate, t0, before).events, key), skew);
      }
    }
  }

  /** The first stamp in (lo, hi] has all the others at or after it. */
  lemma {:induction false} FirstIn(ev: seq<int>, lo: int, hi: int) returns (i: nat)
    requires 0 < CountIn(ev, lo, hi)
    ensures i < |ev| && lo < ev[i] <= hi && CountIn(ev, lo, hi) <= |ev| - i
  {
    var last := |ev| - 1;
    if CountIn(ev[..last], lo, hi) == 0 {
      i := last;
    } else {
      i := FirstIn(ev[..last], lo, hi);
    }
  }

  /** Two positions of a sequence that hold more than `n` of its stamps in (lo, hi]. */
  lemma {:induction false} CountInSpread(ev: seq<int>, lo: int, hi: int, n: int) returns (i: nat, j: nat)
    requires 0 <= n < CountIn(ev, lo, hi)
    ensures i <= j < |ev| && n <= j - i
    ensures lo < ev[i] <= hi && lo < ev[j] <= hi
  {
    var last := |ev| - 1;
    if lo < ev[last] <= hi {
      j := last;
      i := FirstIn(ev, lo, hi);
    } else {
      i, j := CountInSpread(ev[..last], lo, hi, n);
    }
  }

  lemma {:induction false} NothingAdmitted(rate: Rate, t0: int, calls: seq<Call>, key: string)
    requires rate.count <= 0
    ensures Admitted(rate, t0, calls, key) == []
  {
    if calls != [] {
      NothingAdmitted(rate, t0, calls[..|calls| - 1], key);
    }
  }

  /** No half-open interval of length `window - skew` holds more than `count` admitted events of one
      key; with an exact clock (skew 0) that is the window itself. */
  lemma WindowBound(rate: Rate, t0: int, calls: seq<Call>, key: string, skew: int, lo: int)
    requires WithinSkew(calls, skew) && 0 <= skew && 0 <= rate.count
    ensures CountIn(Admitted(rate, t0, calls, key), lo, lo + (rate.window - skew)) <= rate.count
  {
    var adm := Admitted(rate, t0, calls, key);
    if CountIn(adm, lo, lo + (rate.window - skew)) > rate.count {
      var i, j := CountInSpread(adm, lo, lo + (rate.window - skew), rate.count);
      AdmittedAreSpaced(rate, t0, calls, key, skew);
      if i == j {
        NothingAdmitted(rate, t0, calls, key);
      }
    }
  }

  // ---- the bound is attained -----------------------------------------------

  lemma NaiveLast(rate: Rate, before: seq<Call>, c: Call, key: string)
    ensures NaiveAdmitted(rate, before + [c], key)
      == (var adm := NaiveAdmitted(rate, before, key);
          if c.key == key && CountIn(NaiveAdmitted(rate, before, c.key), c.now - rate.window, c.now) < rate.count
          then adm + [c.now] else adm)
  {
    assert (before + [c])[..|before + [c]| - 1] == before;
  }

  function Repeat<T>(x: T, n: nat): (xs: seq<T>)
    ensures |xs| == n
    ensures forall i :: 0 <= i < n ==> xs[i] == x
  {
    if n == 0 then [] else Repeat(x, n - 1) + [x]
  }

  /** A log of equal stamps is pruned as a whole or not at all. */
  lemma RepeatPruned(t: int, n: nat, cutoff: int)
    ensures Pruned(Repeat(t, n), cutoff) == if t <= cutoff then [] else Repeat(t, n)
  {
    var m := PrunedIsSuffix(Repeat(t, n), cutoff);
  }

  lemma {:induction false} RepeatCount(t: int, n: nat, lo: int, hi: int)
    requires lo < t <= hi
    ensures CountIn(Repeat(t, n), lo, hi) == n
  {
    if n > 0 {
      RepeatCount(t, n - 1, lo, hi);
      assert Repeat(t, n)[..n - 1] == Repeat(t, n - 1);
    }
  }

  /** As many calls for one key as may be admitted, one for another key a window later, and a late one. */
  function TightRun(rate: Rate, key: string, other: string, now: int): seq<Call> {
    Repeat(Call(key, 0), if rate.count > 0 then rate.count else 0) + [Call(other, rate.window)] + [Call(key, now)]
  }

  // The limiter: the log of one key filled to the count, swept by another key, and one late call.

  /** The run has left the limiter with `n` events of the key, all at instant 0, and nothing else. */
  ghost predicate Filled(rate: Rate, calls: seq<Call>, key: string, n: nat) {
    && After(rate, -1, calls) == State(if n == 0 then map[] else map[key := Repeat(0, n)], -1)
    && Admitted(rate, -1, calls, key) == Repeat(0, n)
  }

  lemma FillStep(rate: Rate, key: string, n: nat)
    requires n < rate.count && 0 < rate.window
    ensures AllowStep(rate, State(if n == 0 then map[] else map[key := Repeat(0, n)], -1), key, 0)
      == (State(map[key := Repeat(0, n + 1)], -1), true)
  {
    RepeatPruned(0, n, -rate.window);
    assert map[key := Repeat(0, n)][key := Repeat(0, n + 1)] == map[key := Repeat(0, n + 1)];
  }

  lemma {:induction false} FillUp(rate: Rate, key: string, n: nat)
    requires n <= rate.count && 0 < rate.window
    ensures Filled(rate, Repeat(Call(key, 0), n), key, n)
  {
    if n > 0 {
      FillUp(rate, key, n - 1);
      FillStep(rate, key, n - 1);
      LastCall(rate, -1, Repeat(Call(key, 0), n - 1), Call(key, 0), key);
    }
  }

  /** A call for another key, a window later, sweeps the full log away. */
  lemma SweepStep(rate: Rate, key: string, other: string)
    requires 0 < rate.count && 0 < rate.window && key != other
    ensures AllowStep(rate, State(map[key := Repeat(0, rate.count)], -1), other, rate.window)
      == (State(map[other := [rate.window]], rate.window), true)
  {
    RepeatPruned(0, rate.count, 0);
    assert [] + [rate.window] == [rate.window];
    assert Swept(map[key := Repeat(0, rate.count)][other := [rate.window]], 0) == map[other := [rate.window]];
  }

  lemma LimiterAdmitsAll(rate: Rate, key: string, other: string, now: int)
    requires 0 < rate.count && 0 < rate.window && key != other
    ensures Admitted(rate, -1, TightRun(rate, key, other, now), key) == Repeat(0, rate.count) + [now]
  {
    var full := Repeat(Call(key, 0), rate.count);
    FillUp(rate, key, rate.count);
    SweepStep(rate, key, other);
    LastCall(rate, -1, full, Call(other, rate.window), key);
    LastCall(rate, -1, full + [Call(other, rate.window)], Call(key, now), key);
  }

  // The naive limiter on the same calls.

  lemma NaiveAdmitsOne(rate: Rate, calls: seq<Call>, before: seq<Call>, c: Call, adm: seq<int>)
    requires calls == before + [c]
    requires NaiveAdmitted(rate, before, c.key) == adm && CountIn(adm, c.now - rate.window, c.now) < rate.count
    ensures NaiveAdmitted(rate, calls, c.key) == adm + [c.now]
  {
    NaiveLast(rate, before, c, c.key);
  }

  lemma {:induction false} NaiveFillUp(rate: Rate, key: string, n: nat)
    requires n <= rate.count && 0 < rate.window
    ensures NaiveAdmitted(rate, Repeat(Call(key, 0), n), key) == Repeat(0, n)
  {
    if n > 0 {
      NaiveFillUp(rate, key, n - 1);
      RepeatCount(0, n - 1, -rate.window, 0);
      NaiveAdmitsOne(rate, Repeat(Call(key, 0), n), Repeat(Call(key, 0), n - 1), Call(key, 0), Repeat(0, n - 1));
    }
  }

  lemma NaiveRefuses(rate: Rate, before: seq<Call>, mid: Call, c: Call, adm: seq<int>)
    requires NaiveAdmitted(rate, before, c.key) == adm && mid.key != c.key
    requires rate.count <= CountIn(adm, c.now - rate.window, c.now)
    ensures !NaiveVerdict(rate, before + [mid] + [c])
  {
    NaiveLast(rate, before, mid, c.key);
    NaiveLastVerdict(rate, before + [mid], c);
  }

  lemma NaiveRefusesLast(rate: Rate, key: string, other: string, now: int)
    requires 0 < rate.count && 0 <= now < rate.window && key != other
    ensures TightRun(rate, key, other, now) != [] && !NaiveVerdict(rate, TightRun(rate, key, other, now))
  {
    NaiveFillUp(rate, key, rate.count);
    RepeatCount(0, rate.count, now - rate.window, now);
    NaiveRefuses(rate, Repeat(Call(key, 0), rate.count), Call(other, rate.window), Call(key, now),
                 Repeat(0, rate.count));
  }

  lemma TightSkew(rate: Rate, key: string, other: string, skew: int)
    requires 0 < skew <= rate.window
    ensures WithinSkew(TightRun(rate, key, other, rate.window - skew), skew)
  {
  }

  /** The bound is attained, for every count, window and skew: in this run a sweep triggered by another
      key forgets stamps that a late call still has in its window, so the limiter admits `count + 1` events
      that span `window - skew`; the naive limiter refuses the last of them. */
  lemma SkewBoundIsTight(rate: Rate, key: string, other: string, skew: int)
    requires 0 < rate.count && 0 < skew <= rate.window && key != other
    ensures var calls := TightRun(rate, key, other, rate.window - skew);
      && WithinSkew(calls, skew)
      && Admitted(rate, -1, calls, key) == Repeat(0, rate.count) + [rate.window - skew]
      && calls != [] && !NaiveVerdict(rate, calls)
  {
    LimiterAdmitsAll(rate, key, other, rate.window - skew);
    NaiveRefusesLast(rate, key, other, rate.window - skew);
    TightSkew(rate, key, other, skew);
  }

  // ---- agreement with the naive limiter ------------------------------------

  ghost predicate Sorted(adm: seq<int>, last: int) {
    && (forall i :: 0 <= i < |adm| ==> adm[i] <= last)
    && (forall i, j :: 0 <= i < j < |adm| ==> adm[i] <= adm[j])
  }

  lemma SortedGrows(adm: seq<int>, last: int, now: int)
    requires Sorted(adm, last) && last <= now
    ensures Sorted(adm, now) && Sorted(adm + [last], now)
  {
  }

  lemma {:induction false} AdmittedAreSorted(rate: Rate, t0: int, calls: seq<Call>, key: string, now: int)
    requires Nondecreasing(calls)
    requires calls != [] ==> calls[|calls| - 1].now <= now
    ensures Sorted(Admitted(rate, t0, calls, key), now)
  {
    if calls != [] {
      var before, c := calls[..|calls| - 1], calls[|calls| - 1];
      if before != [] {
        assert before[|before| - 1] == calls[|calls| - 2];
      }
      AdmittedAreSorted(rate, t0, before, key, c.now);
      SortedGrows(Admitted(rate, t0, before, key), c.now, now);
    }
  }

  /** On a sorted history the stamps in the window are exactly those after the expired prefix. */
  lemma {:induction false} CountSorted(adm: seq<int>, n: nat, lo: int, hi: int)
    requires n <= |adm|
    requires forall i :: 0 <= i < n ==> adm[i] <= lo
    requires forall i :: n <= i < |adm| ==> lo < adm[i] <= hi
    ensures CountIn(adm, lo, hi) == |adm| - n
  {
    if adm != [] {
      var last := |adm| - 1;
      CountSorted(adm[..last], if n == |adm| then last else n, lo, hi);
    }
  }

  /** With a sorted history and an exact clock, pruning the log leaves as many stamps as a count over
      the whole history finds in the window. */
  lemma PrunedCounts(rate: Rate, before: seq<Call>, c: Call, adm: seq<int>, ev: seq<int>)
    requires Nondecreasing(before + [c])
    requires Sorted(adm, c.now) && Forgets(rate, before, adm, ev)
    ensures |Pruned(ev, c.now - rate.window)| == CountIn(adm, c.now - rate.window, c.now)
  {
    var calls := before + [c];
    var cutoff := c.now - rate.window;
    var n := PrunedIsSuffix(ev, cutoff);
    var d := |adm| - |ev|;
    forall i | 0 <= i < d + n ensures adm[i] <= cutoff {
      if i < d {
        assert Reached(before, adm[i] + rate.window);
        var k :| 0 <= k < |before| && adm[i] + rate.window <= before[k].now;
        assert calls[k] == before[k] && calls[|before|] == c;
      } else {
        assert adm[i] == ev[i - d];
      }
    }
    forall i | d + n <= i < |adm| ensures cutoff < adm[i] <= c.now {
      assert adm[d + n] == ev[n];
    }
    CountSorted(adm, d + n, cutoff, c.now);
  }

  /** One call: given that the two limiters have admitted the same history, they answer alike. */
  lemma SameVerdict(rate: Rate, t0: int, before: seq<Call>, c: Call)
    requires Nondecreasing(before + [c])
    requires Admitted(rate, t0, before, c.key) == NaiveAdmitted(rate, before, c.key)
    ensures Verdict(rate, t0, before + [c]) == NaiveVerdict(rate, before + [c])
  {
    SkewPrefix(before, c, 0);
    LogForgetsOnlyExpired(rate, t0, before, c.key);
    AdmittedAreSorted(rate, t0, before, c.key, c.now);
    PrunedCounts(rate, before, c, Admitted(rate, t0, before, c.key),
                 Bucket(After(rate, t0, before).events, c.key));
    LastVerdict(rate, t0, before, c);
    NaiveLastVerdict(rate, before, c);
  }

  lemma SameStep(rate: Rate, t0: int, before: seq<Call>, c: Call, key: string)
    requires Nondecreasing(before + [c])
    requires Admitted(rate, t0, before, key) == NaiveAdmitted(rate, before, key)
    requires Admitted(rate, t0, before, c.key) == NaiveAdmitted(rate, before, c.key)
    ensures Admitted(rate, t0, before + [c], key) == NaiveAdmitted(rate, before + [c], key)
  {
    SameVerdict(rate, t0, before, c);
    LastCall(rate, t0, before, c, key);
    NaiveLast(rate, before, c, key);
  }

  lemma {:induction false} SameHistory(rate: Rate, t0: int, calls: seq<Call>, key: string)
    requires Nondecreasing(calls)
    ensures Admitted(rate, t0, calls, key) == NaiveAdmitted(rate, calls, key)
  {
    if calls != [] {
      var before, c := calls[..|calls| - 1], calls[|calls| - 1];
      SameHistory(rate, t0, before, key);
      SameHistory(rate, t0, before, c.key);
      assert before + [c] == calls;
      SameStep(rate, t0, before, c, key);
    }
  }

  /** Over every run with a nondecreasing clock the limiter answers exactly as the naive one, and it
      has admitted the same events of every key: neither the pruning of heads only nor the
      amortized sweep can be observed. */
  lemma AgreesWithNaive(rate: Rate, t0: int, calls: seq<Call>, key: string)
    requires Nondecreasing(calls)
    ensures calls != [] ==> Verdict(rate, t0, calls) == NaiveVerdict(rate, calls)
    ensures Admitted(rate, t0, calls, key) == NaiveAdmitted(rate, calls, key)
  {
    SameHistory(rate, t0, calls, key);
    if calls != [] {
      var before, c := calls[..|calls| - 1], calls[|calls| - 1];
      assert before + [c] == calls;
      SkewPrefix(before, c, 0);
      SameHistory(rate, t0, before, c.key);
      SameVerdict(rate, t0, before, c);
    }
  }

  /** A call that sweeps leaves only nonempty logs that start inside the window. */
  lemma SweepKeepsLiveKeys(rate: Rate, s: State, key: string, now: int, other: string)
    requires AllowStep(rate, s, key, now).1 && now - s.lastSweep > rate.window
    ensures var s' := AllowStep(rate, s, key, now).0;
      s'.lastSweep == now
      && (other in s'.events ==> s'.events[other] != [] && now - rate.window < s'.events[other][0])
  {
    var cutoff := now - rate.window;
    var events := s.events[key := Pruned(Bucket(s.events, key), cutoff) + [now]];
    if other in events {
      var n := PrunedIsSuffix(events[other], cutoff);
    }
  }

  lemma StepIsBounded(rate: Rate, s: State, c: Call, key: string)
    requires |Bucket(s.events, key)| <= rate.count
    ensures |Bucket(AllowStep(rate, s, c.key, c.now).0.events, key)| <= rate.count
  {
    var cutoff := c.now - rate.window;
    var ev := Bucket(s.events, key);
    StepBucket(rate, s, c, key);
    var n := PrunedIsSuffix(ev, cutoff);
    var m := PrunedIsSuffix(Pruned(ev, cutoff), cutoff);
    var k := PrunedIsSuffix(Pruned(ev, cutoff) + [c.now], cutoff);
  }

  /** No log ever holds more than `count` stamps, whatever the clock does. */
  lemma {:induction false} LogsAreBounded(rate: Rate, t0: int, calls: seq<Call>, key: string)
    requires 0 <= rate.count
    ensures |Bucket(After(rate, t0, calls).events, key)| <= rate.count
  {
    if calls != [] {
      var before := calls[..|calls| - 1];
      LogsAreBounded(rate, t0, before, key);
      StepIsBounded(rate, After(rate, t0, before), calls[|calls| - 1], key);
    }
  }
}
