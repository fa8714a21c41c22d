/** How long tokens live: what their stored expiry means for the gate, how far it
    can be away, and what rotations do to it over runs of handlers. */
module PortalExpiry {
  import opened Wrappers
  import opened Text
  import opened Numbers
  import opened Store
  import opened Time
  import opened Portal
  import opened PortalRuns

  // ---- validity of issued tokens ------------------------------------------------------

  lemma IssuedExpiry(tokens: Tokens, sub: string, note: string, ttl: Duration, draw: Draw, fails: bool)
    ensures var r := IssueToken(tokens, sub, note, ttl, draw, fails).1;
      r.Some? ==> draw.exp + ttl - SECOND < r.value.expiresAt <= draw.exp + ttl
                  && r.value.expiresAt % SECOND == 0
  {
  }

  /** A token validly issued: in whole seconds, and for no longer than the maximum from the clock reading
      its expiry was computed from. */
  ghost predicate WithinMaximum(opt: Options, reply: Reply, draw: Draw) {
    reply.Issued? ==> draw.exp - SECOND < reply.meta.expiresAt <= draw.exp + opt.maxTokenTTL
                      && reply.meta.expiresAt % SECOND == 0
  }

  /** With a validated configuration neither issuing nor rotating gives a token more than the maximum. */
  lemma ValidityIsBounded(opt: Options, tokens: Tokens, sub: string, note: string, ttl: string, jti: string,
                          now: Instant, draw: Draw, f: Faults)
    requires opt.Validated()
    ensures WithinMaximum(opt, IssueStep(opt, tokens, sub, note, ttl, now, draw, f).1, draw)
    ensures WithinMaximum(opt, RotateStep(opt, tokens, sub, jti, now, draw, f).1, draw)
  {
    var checked := CheckForm(opt, note, ttl);
    if checked.Ok? {
      AcceptedValidity(opt, ttl);
      IssuedExpiry(tokens, sub, checked.value.0, checked.value.1, draw, f.create);
    }
    var own := OwnToken(tokens, sub, jti, f.get);
    if own.Some? {
      IssuedExpiry(Revoked(tokens, jti, now), sub, own.value.note,
                   RotatedTTL(opt, own.value.expiresAt, now), draw, f.create);
    }
  }

  lemma SecondsShift(whole: int, t: int)
    requires whole % SECOND == 0
    ensures WholeSeconds(whole + t) == whole + WholeSeconds(t)
    ensures WholeSeconds(t) == 0 <==> 0 <= t < SECOND
  {
  }

  /** A rotation within the maximum keeps the expiry up to the whole seconds that the handler took between
      reading the clock for the remaining validity and for the new expiry: it is the same instant
      exactly when that took less than a second. */
  lemma RotationKeepsExpiry(opt: Options, tokens: Tokens, sub: string, jti: string, now: Instant, draw: Draw, f: Faults)
    requires RotateStep(opt, tokens, sub, jti, now, draw, f).1.Issued?
    requires tokens[jti].expiresAt % SECOND == 0
    requires 0 < tokens[jti].expiresAt - now <= if opt.maxTokenTTL > 0 then opt.maxTokenTTL else MAX_INT64
    ensures var before := tokens[jti].expiresAt;
      var after := RotateStep(opt, tokens, sub, jti, now, draw, f).1.meta.expiresAt;
      && after == before + WholeSeconds(draw.exp - now)
      && (after == before <==> 0 <= draw.exp - now < SECOND)
  {
    var before := tokens[jti].expiresAt;
    assert RotatedTTL(opt, before, now) == before - now;
    SecondsShift(before, draw.exp - now);
    assert before + (draw.exp - now) == draw.exp + (before - now);
  }

  // ---- the stored expiry and the one that is reported -----------------------------------

  /** From now on the gate accepts the token exactly until `expiresAt`. */
  ghost predicate WorksUntil(tokens: Tokens, jti: string, expiresAt: int) {
    forall t: Instant :: Accepts(tokens, jti, t) <==> t < expiresAt
  }

  lemma WrapsToThePast(x: int)
    requires MAX_INT64 < x <= 2 * MAX_INT64
    ensures Wrap64(x) < 0
  {
    assert x - MIN_INT64 == 0x1_0000_0000_0000_0000 + (x + MIN_INT64);
  }

  /** A row stores its expiry as a 64-bit number, which is the expiry exactly when that fits. */
  lemma StoredExpiry(tokens: Tokens, jti: string, expiresAt: int, exp: Instant)
    requires jti in tokens && tokens[jti].revokedAt.None? && tokens[jti].expiresAt == Wrap64(expiresAt)
    requires 0 <= exp && 0 <= expiresAt <= 2 * MAX_INT64
    ensures WorksUntil(tokens, jti, expiresAt) <==> expiresAt <= MAX_INT64
    ensures expiresAt > MAX_INT64 ==> !Accepts(tokens, jti, exp)
  {
    if expiresAt <= MAX_INT64 {
      WrapInRange(expiresAt);
    } else {
      WrapsToThePast(expiresAt);
      assert !Accepts(tokens, jti, exp) && exp < expiresAt;
    }
  }

  lemma InsertedWorks(opt: Options, tokens: Tokens, sub: string, note: string, ttl: Duration, draw: Draw, fails: bool,
                      later: seq<Step>)
    requires IssueToken(tokens, sub, note, ttl, draw, fails).1.Some? && 0 <= draw.exp
    requires forall i :: 0 <= i < |later| ==> Spares(later[i], draw.jti, sub)
    ensures var (tokens', meta) := IssueToken(tokens, sub, note, ttl, draw, fails);
      var expiresAt, end := meta.value.expiresAt, After(opt, tokens', later);
      && (WorksUntil(end, draw.jti, expiresAt) <==> expiresAt <= MAX_INT64)
      && (expiresAt > MAX_INT64 ==> !Accepts(end, draw.jti, draw.exp))
  {
    var (tokens', meta) := IssueToken(tokens, sub, note, ttl, draw, fails);
    SparedIsKept(opt, tokens', later, draw.jti);
    StoredExpiry(After(opt, tokens', later), draw.jti, meta.value.expiresAt, draw.exp);
  }

  /** Whether a token that a handler has just answered with works until the expiry that the answer states,
      as long as nothing revokes it: exactly when that fits 64-bit nanoseconds (until April 2262). If it
      does not, the token is dead from the start. */
  ghost predicate WorksAsStated(opt: Options, tokens: Tokens, reply: Reply, draw: Draw, later: seq<Step>)
    requires reply.Issued?
  {
    var end := After(opt, tokens, later);
    && (WorksUntil(end, draw.jti, reply.meta.expiresAt) <==> reply.meta.expiresAt <= MAX_INT64)
    && (reply.meta.expiresAt > MAX_INT64 ==> !Accepts(end, draw.jti, draw.exp))
  }

  lemma IssuedTokenWorks(opt: Options, tokens: Tokens, sub: string, note: string, ttl: string,
                         now: Instant, draw: Draw, f: Faults, later: seq<Step>)
    requires IssueStep(opt, tokens, sub, note, ttl, now, draw, f).1.Issued? && 0 <= draw.exp
    requires forall i :: 0 <= i < |later| ==> Spares(later[i], draw.jti, sub)
    ensures var (tokens', reply) := IssueStep(opt, tokens, sub, note, ttl, now, draw, f);
      WorksAsStated(opt, tokens', reply, draw, later)
  {
    var (text, d) := CheckForm(opt, note, ttl).value;
    InsertedWorks(opt, tokens, sub, text, d, draw, f.create, later);
  }

  lemma RotatedTokenWorks(opt: Options, tokens: Tokens, sub: string, jti: string,
                          now: Instant, draw: Draw, f: Faults, later: seq<Step>)
    requires RotateStep(opt, tokens, sub, jti, now, draw, f).1.Issued? && 0 <= draw.exp
    requires forall i :: 0 <= i < |later| ==> Spares(later[i], draw.jti, sub)
    ensures var (tokens', reply) := RotateStep(opt, tokens, sub, jti, now, draw, f);
      WorksAsStated(opt, tokens', reply, draw, later)
  {
    InsertedWorks(opt, Revoked(tokens, jti, now), sub, tokens[jti].note, RotatedTTL(opt, tokens[jti].expiresAt, now),
                  draw, f.create, later);
  }

  const YEAR_2027: Instant := 1_800_000_000 * SECOND

  /** With a validated default of 100000 days, a token issued in 2027 is reported as issued and is never
      accepted. */
  lemma IssuedTokenIsDead()
    ensures var opt, draw := Options(5, 100000 * DAY, 100000 * DAY), Draw("a", YEAR_2027, YEAR_2027);
      var (tokens, reply) := IssueStep(opt, EMPTY, "alice", "", "", YEAR_2027, draw, NO_FAULTS);
      && opt.Validated() && reply.Issued? && YEAR_2027 < reply.meta.expiresAt
      && !Accepts(tokens, "a", YEAR_2027)
  {
    var opt, draw := Options(5, 100000 * DAY, 100000 * DAY), Draw("a", YEAR_2027, YEAR_2027);
    assert ActiveOf(EMPTY, "alice", YEAR_2027) == {};
    assert CheckForm(opt, "", "") == Ok(("", 100000 * DAY));
    assert "a" != "" && "a" !in EMPTY;
    IssuedTokenWorks(opt, EMPTY, "alice", "", "", YEAR_2027, draw, NO_FAULTS, []);
  }

  // ---- chains of rotations ----------------------------------------------------------------

  /** The last clock reading of a handler. */
  function LastReading(step: Step): Instant {
    match step
    case Issue(_, _, _, _, draw, _) => draw.exp
    case Rotate(_, _, _, draw, _) => draw.exp
    case _ => step.now
  }

  /** Handlers one after the other, after 1970, each reading a clock that does not go back. */
  ghost predicate InOrder(steps: seq<Step>) {
    && (forall i :: 0 <= i < |steps| ==> 0 <= steps[i].now <= LastReading(steps[i]))
    && (forall i, j :: 0 <= i < j < |steps| ==> LastReading(steps[i]) <= steps[j].now)
  }

  /** A stored expiry is in whole seconds and at most the maximum away, or it did not fit and is past. */
  predicate PlausibleExpiry(opt: Options, expiresAt: int, now: int) {
    expiresAt < 0 || (expiresAt % SECOND == 0 && expiresAt <= now + opt.maxTokenTTL)
  }

  ghost predicate Plausible(opt: Options, tokens: Tokens, now: int) {
    forall jti :: jti in tokens ==> PlausibleExpiry(opt, tokens[jti].expiresAt, now)
  }

  lemma WholeSecondsBounds(t: int)
    ensures t - SECOND < WholeSeconds(t) <= t && WholeSeconds(t) % SECOND == 0
  {
  }

  lemma StoredIsPlausible(opt: Options, exp: Instant, ttl: Duration)
    requires 0 <= exp && 0 < ttl <= opt.maxTokenTTL
    ensures PlausibleExpiry(opt, Wrap64(WholeSeconds(exp + ttl)), exp)
  {
    var expiresAt := WholeSeconds(exp + ttl);
    WholeSecondsBounds(exp + ttl);
    assert 0 <= expiresAt;
    if expiresAt <= MAX_INT64 {
      WrapInRange(expiresAt);
    } else {
      WrapsToThePast(expiresAt);
    }
  }

  lemma InsertIsPlausible(opt: Options, tokens: Tokens, sub: string, note: string, ttl: Duration,
                          draw: Draw, fails: bool)
    requires Plausible(opt, tokens, draw.exp) && 0 <= draw.exp && ttl <= opt.maxTokenTTL
    ensures Plausible(opt, IssueToken(tokens, sub, note, ttl, draw, fails).0, draw.exp)
  {
    if IssueToken(tokens, sub, note, ttl, draw, fails).1.Some? {
      StoredIsPlausible(opt, draw.exp, ttl);
    }
  }

  lemma StepIsPlausible(opt: Options, tokens: Tokens, step: Step)
    requires opt.Validated() && Plausible(opt, tokens, step.now) && 0 <= step.now <= LastReading(step)
    ensures Plausible(opt, Effect(opt, tokens, step), LastReading(step))
  {
    match step
    case Issue(sub, note, ttl, now, draw, f) =>
      if CheckForm(opt, note, ttl).Ok? {
        var (text, d) := CheckForm(opt, note, ttl).value;
        AcceptedValidity(opt, ttl);
        InsertIsPlausible(opt, tokens, sub, text, d, draw, f.create);
      }
    case Rotate(sub, jti, now, draw, f) =>
      if OwnToken(tokens, sub, jti, f.get).Some? {
        InsertIsPlausible(opt, Revoked(tokens, jti, now), sub, tokens[jti].note,
                          RotatedTTL(opt, tokens[jti].expiresAt, now), draw, f.create);
      }
    case _ =>
  }

  /** In every reachable table, with a validated configuration, no stored expiry is further away than the
      maximum. */
  lemma {:induction false} ReachableIsPlausible(opt: Options, steps: seq<Step>, now: int)
    requires opt.Validated() && InOrder(steps)
    requires steps != [] ==> LastReading(steps[|steps| - 1]) <= now
    ensures Plausible(opt, After(opt, EMPTY, steps), now)
  {
    if steps != [] {
      var init, step := steps[..|steps| - 1], steps[|steps| - 1];
      if init != [] {
        assert init[|init| - 1] == steps[|steps| - 2];
      }
      ReachableIsPlausible(opt, init, step.now);
      StepIsPlausible(opt, After(opt, EMPTY, init), step);
    }
  }

  /** The step rotates the token `jti` and issues another for it. */
  predicate Replaces(opt: Options, tokens: Tokens, step: Step, jti: string) {
    step.Rotate? && step.jti == jti
    && RotateStep(opt, tokens, step.sub, step.jti, step.now, step.draw, step.f).1.Issued?
  }

  /** The token that carries on after one step, and by how much its expiry has moved. */
  function HeirStep(opt: Options, tokens: Tokens, step: Step, heir: string): string {
    if Replaces(opt, tokens, step, heir) then step.draw.jti else heir
  }

  function DriftStep(opt: Options, tokens: Tokens, step: Step, heir: string): int {
    if Replaces(opt, tokens, step, heir) then WholeSeconds(step.draw.exp - step.now) else 0
  }

  ghost predicate InTimeStep(opt: Options, tokens: Tokens, step: Step, heir: string) {
    Replaces(opt, tokens, step, heir) ==>
      && step.now < tokens[heir].expiresAt
      && tokens[heir].expiresAt + WholeSeconds(step.draw.exp - step.now) <= MAX_INT64
  }

  /** The id that the token `jti` has come to after a run, through all rotations of it and of what
      replaced it; whatever else happens in between. */
  function Heir(opt: Options, tokens: Tokens, jti: string, steps: seq<Step>): string {
    if steps == [] then jti
    else
      var init := steps[..|steps| - 1];
      HeirStep(opt, After(opt, tokens, init), steps[|steps| - 1], Heir(opt, tokens, jti, init))
  }

  /** The whole seconds that the handlers of these rotations took, added up. */
  function Drift(opt: Options, tokens: Tokens, jti: string, steps: seq<Step>): int {
    if steps == [] then 0
    else
      var init := steps[..|steps| - 1];
      Drift(opt, tokens, jti, init)
      + DriftStep(opt, After(opt, tokens, init), steps[|steps| - 1], Heir(opt, tokens, jti, init))
  }

  /** Each of these rotations comes before the expiry of what it replaces, and the new expiry fits. */
  ghost predicate InTime(opt: Options, tokens: Tokens, jti: string, steps: seq<Step>) {
    steps != [] ==>
      var init := steps[..|steps| - 1];
      && InTime(opt, tokens, jti, init)
      && InTimeStep(opt, After(opt, tokens, init), steps[|steps| - 1], Heir(opt, tokens, jti, init))
  }

  /** One rotation in a reachable table. */
  lemma RotationInTime(opt: Options, tokens: Tokens, step: Step, jti: string)
    requires opt.Validated() && Plausible(opt, tokens, step.now) && 0 <= step.now <= LastReading(step)
    requires Replaces(opt, tokens, step, jti) && step.now < tokens[jti].expiresAt
    requires tokens[jti].expiresAt + WholeSeconds(step.draw.exp - step.now) <= MAX_INT64
    ensures var t := Effect(opt, tokens, step);
      step.draw.jti in t && t[step.draw.jti].expiresAt == tokens[jti].expiresAt + WholeSeconds(step.draw.exp - step.now)
  {
    RotationKeepsExpiry(opt, tokens, step.sub, jti, step.now, step.draw, step.f);
    var expiresAt := tokens[jti].expiresAt + WholeSeconds(step.draw.exp - step.now);
    assert RotateStep(opt, tokens, step.sub, jti, step.now, step.draw, step.f).1.meta.expiresAt == expiresAt;
    WrapInRange(expiresAt);
  }

  /** No handler changes the expiry of a row. */
  lemma StepKeepsExpiry(opt: Options, tokens: Tokens, step: Step, jti: string)
    requires jti in tokens
    ensures var t := Effect(opt, tokens, step); jti in t && t[jti].expiresAt == tokens[jti].expiresAt
  {
    StepIsOps(opt, tokens, step);
    KeepsRejecting(tokens, OpsOf(opt, tokens, step), jti);
  }

  lemma InOrderPrefix(past: seq<Step>, steps: seq<Step>, step: Step)
    requires InOrder(past + steps + [step])
    ensures InOrder(past + steps) && 0 <= step.now <= LastReading(step)
    ensures past + steps != [] ==> LastReading((past + steps)[|past + steps| - 1]) <= step.now
  {
    var all := past + steps + [step];
    assert all[|past + steps|] == step;
    assert forall i :: 0 <= i < |past + steps| ==> all[i] == (past + steps)[i];
  }

  lemma {:induction false} AfterConcat(opt: Options, tokens: Tokens, past: seq<Step>, steps: seq<Step>)
    ensures After(opt, tokens, past + steps) == After(opt, After(opt, tokens, past), steps)
  {
    if steps == [] {
      assert past + steps == past;
    } else {
      assert (past + steps)[..|past + steps| - 1] == past + steps[..|steps| - 1];
      AfterConcat(opt, tokens, past, steps[..|steps| - 1]);
    }
  }

  lemma ChainStep(opt: Options, tokens: Tokens, step: Step, heir: string)
    requires opt.Validated() && Plausible(opt, tokens, step.now) && 0 <= step.now <= LastReading(step)
    requires heir in tokens && InTimeStep(opt, tokens, step, heir)
    ensures var t, heir' := Effect(opt, tokens, step), HeirStep(opt, tokens, step, heir);
      heir' in t && t[heir'].expiresAt == tokens[heir].expiresAt + DriftStep(opt, tokens, step, heir)
  {
    if Replaces(opt, tokens, step, heir) {
      RotationInTime(opt, tokens, step, heir);
    } else {
      StepKeepsExpiry(opt, tokens, step, heir);
    }
  }

  /** The functions over chains, unrolled for the last step. */
  lemma LastStep(opt: Options, tokens: Tokens, jti: string, init: seq<Step>, step: Step)
    ensures var t, heir := After(opt, tokens, init), Heir(opt, tokens, jti, init);
      && After(opt, tokens, init + [step]) == Effect(opt, t, step)
      && Heir(opt, tokens, jti, init + [step]) == HeirStep(opt, t, step, heir)
      && Drift(opt, tokens, jti, init + [step]) == Drift(opt, tokens, jti, init) + DriftStep(opt, t, step, heir)
      && (InTime(opt, tokens, jti, init + [step]) <==> InTime(opt, tokens, jti, init) && InTimeStep(opt, t, step, heir))
  {
    assert (init + [step])[..|init|] == init;
  }

  lemma PlausibleAfter(opt: Options, past: seq<Step>, init: seq<Step>, step: Step)
    requires opt.Validated() && InOrder(past + init + [step])
    ensures Plausible(opt, After(opt, After(opt, EMPTY, past), init), step.now)
    ensures InOrder(past + init) && 0 <= step.now <= LastReading(step)
  {
    InOrderPrefix(past, init, step);
    ReachableIsPlausible(opt, past + init, step.now);
    AfterConcat(opt, EMPTY, past, init);
  }

  /** With a validated configuration, follow any token through any further run, in which any users,
      administrators and the gate act between its rotations: as long as each rotation is in time, the
      expiry moves by the whole seconds that these handlers took and by nothing else. */
  lemma {:induction false} ChainKeepsExpiry(opt: Options, past: seq<Step>, jti: string, steps: seq<Step>)
    requires opt.Validated() && InOrder(past + steps) && jti in After(opt, EMPTY, past)
    requires InTime(opt, After(opt, EMPTY, past), jti, steps)
    ensures var tokens := After(opt, EMPTY, past);
      var heir := Heir(opt, tokens, jti, steps);
      && heir in After(opt, tokens, steps)
      && After(opt, tokens, steps)[heir].expiresAt == tokens[jti].expiresAt + Drift(opt, tokens, jti, steps)
  {
    if steps != [] {
      var tokens := After(opt, EMPTY, past);
      var init, step := steps[..|steps| - 1], steps[|steps| - 1];
      assert init + [step] == steps;
      assert past + init + [step] == past + steps;
      PlausibleAfter(opt, past, init, step);
      LastStep(opt, tokens, jti, init, step);
      ChainKeepsExpiry(opt, past, jti, init);
      ChainStep(opt, After(opt, tokens, init), step, Heir(opt, tokens, jti, init));
    }
  }

  /** A rotation that reads its two clocks within a second. */
  predicate Fast(step: Step) {
    step.Rotate? ==> 0 <= step.draw.exp - step.now < SECOND
  }

  lemma FastStep(opt: Options, tokens: Tokens, step: Step, heir: string)
    requires Fast(step)
    ensures DriftStep(opt, tokens, step, heir) == 0
  {
  }

  /** With such rotations the expiry never moves. */
  lemma {:induction false} FastChainsDoNotDrift(opt: Options, tokens: Tokens, jti: string, steps: seq<Step>)
    requires forall i :: 0 <= i < |steps| ==> Fast(steps[i])
    ensures Drift(opt, tokens, jti, steps) == 0
  {
    if steps != [] {
      var init := steps[..|steps| - 1];
      FastChainsDoNotDrift(opt, tokens, jti, init);
      FastStep(opt, After(opt, tokens, init), steps[|steps| - 1], Heir(opt, tokens, jti, init));
    }
  }

  /** What the comment on `rotate` promises: the remaining validity of an active token, the default
      validity otherwise. */
  function PromisedTTL(opt: Options, meta: TokenMeta, now: Instant): Duration {
    if meta.Active(now) then Sub(meta.expiresAt, now) else DefaultTTL(opt)
  }

  /** With a validated configuration the handler departs from that promise exactly for a token that was
      revoked before it expired (it keeps the remaining validity unless above the maximum) and for an
      active token with more than the maximum left; each unless the two values happen to coincide. */
  lemma RotateDepartsFromPromise(opt: Options, meta: TokenMeta, now: Instant)
    requires opt.Validated()
    ensures var remaining := Sub(meta.expiresAt, now);
      RotatedTTL(opt, meta.expiresAt, now) != PromisedTTL(opt, meta, now)
      <==> if meta.revokedAt.Some? then 0 < remaining <= opt.maxTokenTTL && remaining != opt.tokenTTL
           else remaining > opt.maxTokenTTL
  {
  }

  lemma AtoiTen()
    ensures TrimSpace("10") == "10" && Atoi("10") == Some(10)
  {
    var s := "10";
    assert s[..1] == "1" && s[..1][..0] == "";
    assert Decimal(s[..1]) == 1;
  }

  /** A user issues a token for ten days and revokes it an hour later. */
  function RevokedEarly(): seq<Step> {
    [Issue("alice", "", "10", 0, Draw("a", 0, 0), NO_FAULTS), Withdraw("alice", "a", HOUR, NO_FAULTS)]
  }

  const EXAMPLE: Options := Options(5, 30 * DAY, 90 * DAY)

  const REVOKED_EARLY: TokenMeta := TokenMeta("a", "alice", "", 0, 10 * DAY, Some(HOUR), None)

  lemma RevokedEarlyTable()
    ensures After(EXAMPLE, EMPTY, RevokedEarly()) == map["a" := REVOKED_EARLY]
  {
    var issue, withdraw := RevokedEarly()[0], RevokedEarly()[1];
    AtoiTen();
    AcceptedValidity(EXAMPLE, "10");
    WrapInRange(10 * DAY);
    assert CheckForm(EXAMPLE, "", "10") == Ok(("", 10 * DAY));
    assert ActiveOf(EMPTY, "alice", 0) == {};
    var issued := TokenMeta("a", "alice", "", 0, 10 * DAY, None, None);
    assert Effect(EXAMPLE, EMPTY, issue) == map["a" := issued];
    assert Effect(EXAMPLE, map["a" := issued], withdraw) == map["a" := issued.(revokedAt := Some(HOUR))];
    assert RevokedEarly()[..1] == [issue] && [issue][..0] == [];
    assert After(EXAMPLE, EMPTY, [issue]) == map["a" := issued];
  }

  /** With a working database, a user with no active token can rotate any token. */
  lemma RotatesWithRoom(opt: Options, tokens: Tokens, sub: string, jti: string, now: Instant, draw: Draw)
    requires sub != "" && jti in tokens && tokens[jti].subject == sub && opt.maxTokensPerUser > 0
    requires ActiveOf(tokens, sub, now) == {} && draw.jti != "" && draw.jti !in tokens
    ensures var reply := RotateStep(opt, tokens, sub, jti, now, draw, NO_FAULTS).1;
      && reply.Issued?
      && reply.meta.expiresAt == WholeSeconds(draw.exp + RotatedTTL(opt, tokens[jti].expiresAt, now))
  {
  }

  lemma RotateRevokedEarly(tokens: Tokens)
    requires tokens == map["a" := REVOKED_EARLY]
    ensures var reply := RotateStep(EXAMPLE, tokens, "alice", "a", HOUR, Draw("b", HOUR, HOUR), NO_FAULTS).1;
      && PromisedTTL(EXAMPLE, tokens["a"], HOUR) == 30 * DAY
      && reply.Issued? && reply.meta.expiresAt == 10 * DAY
  {
    assert ActiveOf(tokens, "alice", HOUR) == {};
    assert "b" !in tokens by { assert "b"[0] != "a"[0]; }
    RotatesWithRoom(EXAMPLE, tokens, "alice", "a", HOUR, Draw("b", HOUR, HOUR));
  }

  /** Rotating it then gives a token for the nine days and 23 hours it had left; the comment promises the
      default of thirty days, since the token is no longer active. */
  lemma RotateRevokedExample()
    ensures var tokens := After(EXAMPLE, EMPTY, RevokedEarly());
      var reply := RotateStep(EXAMPLE, tokens, "alice", "a", HOUR, Draw("b", HOUR, HOUR), NO_FAULTS).1;
      && "a" in tokens && PromisedTTL(EXAMPLE, tokens["a"], HOUR) == 30 * DAY
      && reply.Issued? && reply.meta.expiresAt == 10 * DAY
  {
    RevokedEarlyTable();
    RotateRevokedEarly(After(EXAMPLE, EMPTY, RevokedEarly()));
  }
}
