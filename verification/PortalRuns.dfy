/** Runs of the portal and admin handlers over one token table, each handler as
    one step: the per-user cap, and what revocation and rotation mean for the gate. */
module PortalRuns {
  import opened Wrappers
  import opened Store
  import opened Time
  import opened Portal

  datatype Step =
    | Issue(sub: string, note: string, ttl: string, now: Instant, draw: Draw, f: Faults)
    | Rotate(sub: string, jti: string, now: Instant, draw: Draw, f: Faults)
    | Withdraw(sub: string, jti: string, now: Instant, f: Faults)
    | AdminRevoke(jti: string, now: Instant)
    | AdminRevokeAll(sub: string, now: Instant)
    | MarkUsed(jti: string, now: Instant)

  function Effect(opt: Options, tokens: Tokens, step: Step): Tokens {
    match step
    case Issue(sub, note, ttl, now, draw, f) => IssueStep(opt, tokens, sub, note, ttl, now, draw, f).0
    case Rotate(sub, jti, now, draw, f) => RotateStep(opt, tokens, sub, jti, now, draw, f).0
    case Withdraw(sub, jti, now, f) => RevokeStep(tokens, sub, jti, now, f).0
    case AdminRevoke(jti, now) => Revoked(tokens, jti, now)
    case AdminRevokeAll(sub, now) => AllRevoked(tokens, sub, now)
    case MarkUsed(jti, now) => Used(tokens, jti, now)
  }

  /** The table after a run. */
  function After(opt: Options, tokens: Tokens, steps: seq<Step>): Tokens {
    if steps == [] then tokens
    else Effect(opt, After(opt, tokens, steps[..|steps| - 1]), steps[|steps| - 1])
  }

  ghost predicate Clocked(steps: seq<Step>) {
    forall i, j :: 0 <= i < j < |steps| ==> steps[i].now <= steps[j].now
  }

  // ---- active tokens under one statement ------------------------------------------

  lemma {:induction false} SubsetSize<T>(a: set<T>, b: set<T>)
    requires a <= b
    ensures |a| <= |b|
  {
    assert b == a + (b - a);
  }

  lemma ActiveShrinks(tokens: Tokens, sub: string, t: int, u: int)
    requires t <= u
    ensures ActiveOf(tokens, sub, u) <= ActiveOf(tokens, sub, t)
    ensures |ActiveOf(tokens, sub, u)| <= |ActiveOf(tokens, sub, t)|
  {
    SubsetSize(ActiveOf(tokens, sub, u), ActiveOf(tokens, sub, t));
  }

  lemma RevokedActive(tokens: Tokens, jti: string, at: Instant, sub: string, t: int)
    ensures ActiveOf(Revoked(tokens, jti, at), sub, t) == ActiveOf(tokens, sub, t) - {jti}
    ensures |ActiveOf(Revoked(tokens, jti, at), sub, t)|
      == |ActiveOf(tokens, sub, t)| - if jti in ActiveOf(tokens, sub, t) then 1 else 0
  {
  }

  lemma AllRevokedActive(tokens: Tokens, subject: string, at: Instant, sub: string, t: int)
    ensures ActiveOf(AllRevoked(tokens, subject, at), sub, t) == if sub == subject then {} else ActiveOf(tokens, sub, t)
  {
  }

  lemma UsedActive(tokens: Tokens, jti: string, at: Instant, sub: string, t: int)
    ensures ActiveOf(Used(tokens, jti, at), sub, t) == ActiveOf(tokens, sub, t)
  {
  }

  /** A new token adds at most itself to the active tokens of its subject, and nothing to those of others. */
  lemma IssuedActive(tokens: Tokens, owner: string, note: string, ttl: Duration, draw: Draw, fails: bool,
                     sub: string, t: int)
    ensures var tokens' := IssueToken(tokens, owner, note, ttl, draw, fails).0;
      && |ActiveOf(tokens', sub, t)| <= |ActiveOf(tokens, sub, t)| + 1
      && (sub != owner ==> ActiveOf(tokens', sub, t) == ActiveOf(tokens, sub, t))
  {
    var tokens' := IssueToken(tokens, owner, note, ttl, draw, fails).0;
    assert ActiveOf(tokens', sub, t) <= ActiveOf(tokens, sub, t) + {draw.jti};
    SubsetSize(ActiveOf(tokens', sub, t), ActiveOf(tokens, sub, t) + {draw.jti});
  }

  // ---- the per-user cap -------------------------------------------------------------

  /** The step is a handler of the subject that may add a token. */
  predicate Adds(step: Step, sub: string) {
    (step.Issue? || step.Rotate?) && step.sub == sub
  }

  /** A step that leaves a subject with more active tokens than before is an issue or rotation of that
      subject, and leaves at most the maximum. */
  ghost predicate GrowsUnderCap(opt: Options, tokens: Tokens, tokens': Tokens, sub: string, now: int, adds: bool) {
    var before, after := |ActiveOf(tokens, sub, now)|, |ActiveOf(tokens', sub, now)|;
    after <= before || (adds && after <= opt.maxTokensPerUser)
  }

  lemma IssueGrowth(opt: Options, tokens: Tokens, owner: string, note: string, ttl: string,
                    now: Instant, draw: Draw, f: Faults, sub: string)
    requires opt.maxTokensPerUser > 0
    ensures GrowsUnderCap(opt, tokens, IssueStep(opt, tokens, owner, note, ttl, now, draw, f).0, sub, now, owner == sub)
  {
    var checked := CheckForm(opt, note, ttl);
    if checked.Ok? {
      IssuedActive(tokens, owner, checked.value.0, checked.value.1, draw, f.create, sub, now);
    }
  }

  /** Rotating an active token frees its slot before the new one takes it; rotating an inactive one is
      counted like an issue. */
  lemma RotateGrowth(opt: Options, tokens: Tokens, owner: string, jti: string,
                     now: Instant, draw: Draw, f: Faults, sub: string)
    requires opt.maxTokensPerUser > 0
    ensures GrowsUnderCap(opt, tokens, RotateStep(opt, tokens, owner, jti, now, draw, f).0, sub, now, owner == sub)
  {
    var own := OwnToken(tokens, owner, jti, f.get);
    if own.Some? {
      RevokedActive(tokens, jti, now, sub, now);
      IssuedActive(Revoked(tokens, jti, now), owner, own.value.note,
                   RotatedTTL(opt, own.value.expiresAt, now), draw, f.create, sub, now);
    }
  }

  lemma StepGrowth(opt: Options, tokens: Tokens, step: Step, sub: string)
    requires opt.maxTokensPerUser > 0
    ensures GrowsUnderCap(opt, tokens, Effect(opt, tokens, step), sub, step.now, Adds(step, sub))
  {
    match step
    case Issue(owner, note, ttl, now, draw, f) => IssueGrowth(opt, tokens, owner, note, ttl, now, draw, f, sub);
    case Rotate(owner, jti, now, draw, f) => RotateGrowth(opt, tokens, owner, jti, now, draw, f, sub);
    case Withdraw(_, jti, now, _) => RevokedActive(tokens, jti, now, sub, now);
    case AdminRevoke(jti, now) => RevokedActive(tokens, jti, now, sub, now);
    case AdminRevokeAll(owner, now) => AllRevokedActive(tokens, owner, now, sub, now);
    case MarkUsed(jti, now) => UsedActive(tokens, jti, now, sub, now);
  }

  /** In every state reachable by handlers run one after the other under a nondecreasing clock, with or
      without failing statements, no subject has more active tokens than the maximum, now or later. */
  lemma {:induction false} CapHolds(opt: Options, steps: seq<Step>, sub: string, t: int)
    requires opt.maxTokensPerUser > 0 && Clocked(steps)
    requires steps != [] ==> steps[|steps| - 1].now <= t
    ensures |ActiveOf(After(opt, EMPTY, steps), sub, t)| <= opt.maxTokensPerUser
  {
    if steps != [] {
      var init, step := steps[..|steps| - 1], steps[|steps| - 1];
      if init != [] {
        assert init[|init| - 1] == steps[|steps| - 2];
      }
      CapHolds(opt, init, sub, step.now);
      StepGrowth(opt, After(opt, EMPTY, init), step, sub);
      ActiveShrinks(After(opt, EMPTY, steps), sub, step.now, t);
    }
  }

  // ---- handlers as statements: what the gate sees -----------------------------------

  /** The statements that a step executed with effect. */
  function OpsOf(opt: Options, tokens: Tokens, step: Step): seq<Op> {
    match step
    case Issue(sub, note, ttl, now, draw, f) =>
      (match IssueStep(opt, tokens, sub, note, ttl, now, draw, f).1
       case Issued(meta) => [Create(meta)]
       case _ => [])
    case Rotate(sub, jti, now, draw, f) =>
      (match RotateStep(opt, tokens, sub, jti, now, draw, f)
       case (_, Issued(meta)) => [Op.Revoke(jti, now), Create(meta)]
       case (tokens', _) => if tokens' == tokens then [] else [Op.Revoke(jti, now)])
    case Withdraw(sub, jti, now, f) =>
      if RevokeStep(tokens, sub, jti, now, f).1 == Flash(TokenRevoked) then [Op.Revoke(jti, now)] else []
    case AdminRevoke(jti, now) => [Op.Revoke(jti, now)]
    case AdminRevokeAll(sub, now) => [RevokeAll(sub, now)]
    case MarkUsed(jti, now) => [Use(jti, now)]
  }

  lemma RunOne(tokens: Tokens, op: Op)
    ensures Run(tokens, [op]) == Apply(tokens, op)
  {
    assert [op][..0] == [];
  }

  lemma RunTwo(tokens: Tokens, first: Op, second: Op)
    ensures Run(tokens, [first, second]) == Apply(Apply(tokens, first), second)
  {
    assert [first, second][..1] == [first];
    RunOne(tokens, first);
  }

  lemma RotateIsOps(opt: Options, tokens: Tokens, step: Step)
    requires step.Rotate?
    ensures Effect(opt, tokens, step) == Run(tokens, OpsOf(opt, tokens, step))
  {
    var ops := OpsOf(opt, tokens, step);
    if |ops| == 1 {
      RunOne(tokens, ops[0]);
    } else if |ops| == 2 {
      RunTwo(tokens, ops[0], ops[1]);
    }
  }

  lemma StepIsOps(opt: Options, tokens: Tokens, step: Step)
    ensures Effect(opt, tokens, step) == Run(tokens, OpsOf(opt, tokens, step))
  {
    if step.Rotate? {
      RotateIsOps(opt, tokens, step);
    } else {
      var ops := OpsOf(opt, tokens, step);
      if ops != [] {
        RunOne(tokens, ops[0]);
        assert ops == [ops[0]];
      }
    }
  }

  function OpsOfRun(opt: Options, tokens: Tokens, steps: seq<Step>): seq<Op> {
    if steps == [] then []
    else
      var init := steps[..|steps| - 1];
      OpsOfRun(opt, tokens, init) + OpsOf(opt, After(opt, tokens, init), steps[|steps| - 1])
  }

  lemma {:induction false} RunConcat(tokens: Tokens, ops: seq<Op>, more: seq<Op>)
    ensures Run(tokens, ops + more) == Run(Run(tokens, ops), more)
  {
    if more == [] {
      assert ops + more == ops;
    } else {
      assert (ops + more)[..|ops + more| - 1] == ops + more[..|more| - 1];
      RunConcat(tokens, ops, more[..|more| - 1]);
    }
  }

  /** Every run of handlers is a run of statements. */
  lemma {:induction false} RunIsOps(opt: Options, tokens: Tokens, steps: seq<Step>)
    ensures After(opt, tokens, steps) == Run(tokens, OpsOfRun(opt, tokens, steps))
  {
    if steps != [] {
      var init, step := steps[..|steps| - 1], steps[|steps| - 1];
      RunIsOps(opt, tokens, init);
      StepIsOps(opt, After(opt, tokens, init), step);
      RunConcat(tokens, OpsOfRun(opt, tokens, init), OpsOf(opt, After(opt, tokens, init), step));
    }
  }

  /** After any run of handlers on an empty database the gate accepts a token exactly when the
      statements created it, did not revoke it since, and its stored expiry lies ahead. */
  lemma GateAfterPortal(opt: Options, steps: seq<Step>, jti: string, now: int)
    ensures Accepts(After(opt, EMPTY, steps), jti, now)
      <==> exists i :: RunAccepts(OpsOfRun(opt, EMPTY, steps), jti, now, i)
  {
    RunIsOps(opt, EMPTY, steps);
    AcceptedIffLive(OpsOfRun(opt, EMPTY, steps), jti, now);
  }

  lemma RevokedForever(opt: Options, tokens: Tokens, steps: seq<Step>, jti: string)
    requires jti in tokens && tokens[jti].revokedAt.Some?
    ensures var t := After(opt, tokens, steps); jti in t && t[jti].revokedAt.Some?
  {
    RunIsOps(opt, tokens, steps);
    KeepsRejecting(tokens, OpsOfRun(opt, tokens, steps), jti);
  }

  /** The step revokes neither this token nor all tokens of its subject. */
  predicate Spares(step: Step, jti: string, subject: string) {
    match step
    case Rotate(_, id, _, _, _) => id != jti
    case Withdraw(_, id, _, _) => id != jti
    case AdminRevoke(id, _) => id != jti
    case AdminRevokeAll(sub, _) => sub != subject
    case Issue(_, _, _, _, _, _) => true
    case MarkUsed(_, _) => true
  }

  lemma StepSpares(opt: Options, tokens: Tokens, step: Step, jti: string)
    requires jti in tokens && Spares(step, jti, tokens[jti].subject)
    ensures var t := Effect(opt, tokens, step);
      && jti in t && t[jti].subject == tokens[jti].subject
      && t[jti].revokedAt == tokens[jti].revokedAt && t[jti].expiresAt == tokens[jti].expiresAt
  {
  }

  /** A token keeps its state through any run that spares it. */
  lemma {:induction false} SparedIsKept(opt: Options, tokens: Tokens, steps: seq<Step>, jti: string)
    requires jti in tokens && forall i :: 0 <= i < |steps| ==> Spares(steps[i], jti, tokens[jti].subject)
    ensures var t := After(opt, tokens, steps);
      && jti in t && t[jti].subject == tokens[jti].subject
      && t[jti].revokedAt == tokens[jti].revokedAt && t[jti].expiresAt == tokens[jti].expiresAt
  {
    if steps != [] {
      SparedIsKept(opt, tokens, steps[..|steps| - 1], jti);
      StepSpares(opt, After(opt, tokens, steps[..|steps| - 1]), steps[|steps| - 1], jti);
    }
  }

  /** The two rows after a rotation that issued a token. */
  lemma RotatedRows(opt: Options, tokens: Tokens, sub: string, jti: string, now: Instant, draw: Draw, f: Faults)
    requires RotateStep(opt, tokens, sub, jti, now, draw, f).1.Issued?
    ensures var tokens' := RotateStep(opt, tokens, sub, jti, now, draw, f).0;
      && jti in tokens && jti in tokens' && tokens'[jti].revokedAt.Some?
      && draw.jti !in tokens && draw.jti in tokens'
      && tokens'[draw.jti].subject == sub && tokens'[draw.jti].revokedAt.None?
      && tokens'[draw.jti].expiresAt == Wrap64(WholeSeconds(draw.exp + RotatedTTL(opt, tokens[jti].expiresAt, now)))
  {
  }

  /** Once a rotation has answered with a new token, the old one is rejected for ever, whatever users,
      administrators and the gate do next; the new one is accepted until its stored expiry as long as
      nothing revokes it. */
  lemma RotatedTokenIsDead(opt: Options, tokens: Tokens, sub: string, jti: string, now: Instant, draw: Draw, f: Faults,
                           later: seq<Step>, t: int)
    requires RotateStep(opt, tokens, sub, jti, now, draw, f).1.Issued?
    ensures var tokens' := RotateStep(opt, tokens, sub, jti, now, draw, f).0;
      && !Accepts(After(opt, tokens', later), jti, t)
      && draw.jti != jti
      && ((forall i :: 0 <= i < |later| ==> Spares(later[i], draw.jti, sub)) ==>
            (Accepts(After(opt, tokens', later), draw.jti, t)
             <==> t < Wrap64(WholeSeconds(draw.exp + RotatedTTL(opt, tokens[jti].expiresAt, now)))))
  {
    var tokens' := RotateStep(opt, tokens, sub, jti, now, draw, f).0;
    RotatedRows(opt, tokens, sub, jti, now, draw, f);
    RevokedForever(opt, tokens', later, jti);
    if forall i :: 0 <= i < |later| ==> Spares(later[i], draw.jti, sub) {
      SparedIsKept(opt, tokens', later, draw.jti);
    }
  }

  /** A token that its owner has revoked is never accepted again, whatever follows. */
  lemma WithdrawnTokenIsDead(opt: Options, tokens: Tokens, sub: string, jti: string, now: Instant, f: Faults,
                             later: seq<Step>, t: int)
    requires sub != "" && !f.get && !f.revoke && jti in tokens && tokens[jti].subject == sub
    ensures var tokens' := RevokeStep(tokens, sub, jti, now, f).0;
      !Accepts(After(opt, tokens', later), jti, t)
  {
    RevokedForever(opt, RevokeStep(tokens, sub, jti, now, f).0, later, jti);
  }

  /** Nor is one that an administrator has revoked, by its id or with all tokens of its subject. */
  lemma AdminRevocationIsFinal(opt: Options, tokens: Tokens, jti: string, now: Instant, later: seq<Step>, t: int)
    requires jti in tokens
    ensures !Accepts(After(opt, Effect(opt, tokens, AdminRevoke(jti, now)), later), jti, t)
    ensures !Accepts(After(opt, Effect(opt, tokens, AdminRevokeAll(tokens[jti].subject, now)), later), jti, t)
  {
    RevokedForever(opt, Effect(opt, tokens, AdminRevoke(jti, now)), later, jti);
    RevokedForever(opt, Effect(opt, tokens, AdminRevokeAll(tokens[jti].subject, now)), later, jti);
  }

  /** A mark of use changes nothing but the last use of its token. */
  lemma MarkShowsUse(opt: Options, tokens: Tokens, jti: string, now: Instant)
    ensures Effect(opt, tokens, MarkUsed(jti, now))
      == if jti in tokens then tokens[jti := tokens[jti].(lastUsed := Some(now))] else tokens
  {
  }

  /** The answer about another subject's token is the answer about a token that does not exist, and
      neither rotating nor revoking it has an effect. */
  lemma ForeignLooksMissing(opt: Options, tokens: Tokens, sub: string, jti: string, now: Instant, draw: Draw, f: Faults)
    requires sub != "" && jti in tokens && tokens[jti].subject != sub
    ensures RotateStep(opt, tokens, sub, jti, now, draw, f) == (tokens, NoSuchToken)
    ensures RevokeStep(tokens, sub, jti, now, f) == (tokens, NoSuchToken)
    ensures RotateStep(opt, tokens - {jti}, sub, jti, now, draw, f).1 == NoSuchToken
    ensures RevokeStep(tokens - {jti}, sub, jti, now, f).1 == NoSuchToken
  {
  }

  lemma {:induction false} StatementsKeepKeys(ops: seq<Op>)
    ensures Keyed(Run(EMPTY, ops))
  {
    if ops != [] {
      StatementsKeepKeys(ops[..|ops| - 1]);
    }
  }

  /** Every row of a reachable table is stored under its own id. */
  lemma RunIsKeyed(opt: Options, steps: seq<Step>)
    ensures Keyed(After(opt, EMPTY, steps))
  {
    RunIsOps(opt, EMPTY, steps);
    StatementsKeepKeys(OpsOfRun(opt, EMPTY, steps));
  }
}
