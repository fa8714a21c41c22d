/** The token table (internal/store/sqlite.go, internal/store/store.go) as a map
    from token id to row; one statement is one atomic step. Instants are
    nanoseconds since the Unix epoch. */
module Store {
  import opened Wrappers
  import opened Time

  /** A clock reading; UnixNano can represent it (until the year 2262). */
  type Instant = Int64

  /** Two's-complement wrap-around of a 64-bit integer. */
  function Wrap64(x: int): Int64 {
    (x - MIN_INT64) % 0x1_0000_0000_0000_0000 + MIN_INT64
  }

  lemma WrapInRange(x: int)
    requires MIN_INT64 <= x <= MAX_INT64
    ensures Wrap64(x) == x
  {
  }

  /** Wrapping around takes away a multiple of two to the power of 64. */
  lemma WrapIsCongruent(x: int) returns (k: int)
    ensures x == Wrap64(x) + k * 0x1_0000_0000_0000_0000
  {
    k := (x - MIN_INT64) / 0x1_0000_0000_0000_0000;
  }

  datatype TokenMeta = TokenMeta(
    jti: string,
    subject: string,
    note: string,
    issuedAt: int,
    expiresAt: int,
    revokedAt: Option<int>,
    lastUsed: Option<int>)
  {
    /** Neither revoked nor expired. */
    predicate Active(now: int) {
      revokedAt.None? && now < expiresAt
    }
  }

  type Tokens = map<string, TokenMeta>

  datatype StoreError = NotFound | EmptyId | Conflict

  function WrapOpt(t: Option<int>): Option<int> {
    match t
    case None => None
    case Some(x) => Some(Wrap64(x))
  }

  /** A row keeps every time as a 64-bit UnixNano. */
  function Row(m: TokenMeta): TokenMeta {
    m.(issuedAt := Wrap64(m.issuedAt), expiresAt := Wrap64(m.expiresAt),
       revokedAt := WrapOpt(m.revokedAt), lastUsed := WrapOpt(m.lastUsed))
  }

  /** What fits is stored as it is. */
  lemma RowKeepsWhatFits(m: TokenMeta)
    ensures Row(m) == m.(issuedAt := Row(m).issuedAt, expiresAt := Row(m).expiresAt,
                         revokedAt := Row(m).revokedAt, lastUsed := Row(m).lastUsed)
    ensures MIN_INT64 <= m.issuedAt <= MAX_INT64 ==> Row(m).issuedAt == m.issuedAt
    ensures MIN_INT64 <= m.expiresAt <= MAX_INT64 ==> Row(m).expiresAt == m.expiresAt
    ensures m.revokedAt.None? ==> Row(m).revokedAt.None?
    ensures m.revokedAt.Some? && MIN_INT64 <= m.revokedAt.value <= MAX_INT64 ==> Row(m).revokedAt == m.revokedAt
    ensures m.lastUsed.None? ==> Row(m).lastUsed.None?
    ensures m.lastUsed.Some? && MIN_INT64 <= m.lastUsed.value <= MAX_INT64 ==> Row(m).lastUsed == m.lastUsed
  {
  }

  // ---- the statements as functions of the table ------------------------------

  function Created(tokens: Tokens, m: TokenMeta): Tokens {
    if m.jti == "" || m.jti in tokens then tokens else tokens[m.jti := Row(m)]
  }

  /** Overwrites an earlier revocation time. */
  function Revoked(tokens: Tokens, jti: string, at: Instant): Tokens {
    if jti in tokens then tokens[jti := tokens[jti].(revokedAt := Some(at))] else tokens
  }

  /** Keeps an earlier revocation time. */
  function AllRevoked(tokens: Tokens, subject: string, at: Instant): Tokens {
    map jti | jti in tokens ::
      if tokens[jti].subject == subject && tokens[jti].revokedAt.None?
      then tokens[jti].(revokedAt := Some(at)) else tokens[jti]
  }

  function Used(tokens: Tokens, jti: string, at: Instant): Tokens {
    if jti in tokens then tokens[jti := tokens[jti].(lastUsed := Some(at))] else tokens
  }

  /** The ids of the subject's tokens that are active at `now`. */
  function ActiveOf(tokens: Tokens, subject: string, now: int): set<string> {
    set jti | jti in tokens && tokens[jti].subject == subject && tokens[jti].Active(now)
  }

  /** The rows the WHERE clause of CountActiveBySubject selects. */
  function Selected(tokens: Tokens, subject: string, now: Instant): set<string> {
    set jti | jti in tokens && tokens[jti].subject == subject
              && tokens[jti].revokedAt == None && tokens[jti].expiresAt > Wrap64(now)
  }

  /** The SQL count is the number of tokens that `Active` accepts. */
  lemma CountAgreesWithActive(tokens: Tokens, subject: string, now: Instant)
    ensures Selected(tokens, subject, now) == ActiveOf(tokens, subject, now)
  {
    WrapInRange(now);
  }

  class SQLite {
    var tokens: Tokens

    constructor ()
      ensures tokens == map[]
    {
      tokens := map[];
    }

    method CreateToken(m: TokenMeta) returns (err: Option<StoreError>)
      modifies this
      ensures tokens == Created(old(tokens), m)
      ensures err == if m.jti == "" then Some(EmptyId)
                     else if m.jti in old(tokens) then Some(Conflict) else None
    {
      if m.jti == "" {
        return Some(EmptyId);
      }
      if m.jti in tokens {
        return Some(Conflict);
      }
      tokens := tokens[m.jti := Row(m)];
      return None;
    }

    method GetToken(jti: string) returns (r: Result<TokenMeta, StoreError>)
      ensures r == if jti in tokens then Ok(tokens[jti]) else Err(NotFound)
    {
      if jti !in tokens {
        return Err(NotFound);
      }
      return Ok(tokens[jti]);
    }

    method CountActiveBySubject(subject: string, now: Instant) returns (n: nat)
      ensures n == |ActiveOf(tokens, subject, now)|
    {
      CountAgreesWithActive(tokens, subject, now);
      n := |Selected(tokens, subject, now)|;
    }

    method RevokeToken(jti: string, at: Instant) returns (err: Option<StoreError>)
      modifies this
      ensures tokens == Revoked(old(tokens), jti, at)
      ensures err == if jti in old(tokens) then None else Some(NotFound)
    {
      if jti !in tokens {
        return Some(NotFound);
      }
      tokens := tokens[jti := tokens[jti].(revokedAt := Some(at))];
      return None;
    }

    /** Returns how many tokens were newly revoked. */
    method RevokeAllBySubject(subject: string, at: Instant) returns (n: nat)
      modifies this
      ensures tokens == AllRevoked(old(tokens), subject, at)
      ensures n == |set jti | jti in old(tokens) && old(tokens)[jti].subject == subject
                              && old(tokens)[jti].revokedAt.None?|
    {
      n := |set jti | jti in tokens && tokens[jti].subject == subject && tokens[jti].revokedAt.None?|;
      tokens := AllRevoked(tokens, subject, at);
    }

    method MarkUsed(jti: string, at: Instant) returns (err: Option<StoreError>)
      modifies this
      ensures tokens == Used(old(tokens), jti, at)
      ensures err == if jti in old(tokens) then None else Some(NotFound)
    {
      if jti !in tokens {
        return Some(NotFound);
      }
      tokens := tokens[jti := tokens[jti].(lastUsed := Some(at))];
      return None;
    }
  }

  // ---- runs of statements: revocation and expiry are final ---------------------

  datatype Op =
    | Create(m: TokenMeta)
    | Revoke(id: string, at: Instant)
    | RevokeAll(sub: string, at: Instant)
    | Use(id: string, at: Instant)

  function Apply(tokens: Tokens, op: Op): Tokens {
    match op
    case Create(m) => Created(tokens, m)
    case Revoke(jti, at) => Revoked(tokens, jti, at)
    case RevokeAll(sub, at) => AllRevoked(tokens, sub, at)
    case Use(jti, at) => Used(tokens, jti, at)
  }

  const EMPTY: Tokens := map[]

  /** The table after a run of statements. */
  function Run(tokens: Tokens, ops: seq<Op>): Tokens {
    if ops == [] then tokens else Apply(Run(tokens, ops[..|ops| - 1]), ops[|ops| - 1])
  }

  /** What one statement does to a row that is there: a revocation sets the revocation time of what it
      names, by subject only where there is none, a use sets the last use, and nothing else changes. */
  lemma RowAfter(tokens: Tokens, op: Op, jti: string)
    requires jti in tokens
    ensures jti in Apply(tokens, op)
    ensures var row, row' := tokens[jti], Apply(tokens, op)[jti];
      && row' == row.(revokedAt := row'.revokedAt, lastUsed := row'.lastUsed)
      && row'.revokedAt == (if op.Revoke? && op.id == jti then Some(op.at)
                            else if op.RevokeAll? && op.sub == row.subject && row.revokedAt.None? then Some(op.at)
                            else row.revokedAt)
      && row'.lastUsed == (if op.Use? && op.id == jti then Some(op.at) else row.lastUsed)
  {
  }

  /** The only new row a statement adds is that of a creation whose id is not empty. */
  lemma RowAdded(tokens: Tokens, op: Op, jti: string)
    requires jti !in tokens
    ensures jti in Apply(tokens, op) <==> op.Create? && op.m.jti == jti && jti != ""
    ensures jti in Apply(tokens, op) ==> Apply(tokens, op)[jti] == Row(op.m)
  {
  }

  /** The store's part of the gate's verifyPAT: the row exists and is active. */
  predicate Accepts(tokens: Tokens, jti: string, now: int) {
    jti in tokens && tokens[jti].Active(now)
  }

  predicate Creates(op: Op, jti: string) {
    op.Create? && op.m.jti == jti
  }

  /** Operation `i` is the first that inserts the token `jti`: its first creation, since a later one
      conflicts with the primary key. */
  ghost predicate FirstCreate(ops: seq<Op>, jti: string, i: int) {
    && 0 <= i < |ops| && Creates(ops[i], jti) && jti != ""
    && forall j :: 0 <= j < i ==> !Creates(ops[j], jti)
  }

  /** The operation revokes the token `jti` of `subject`. */
  predicate Revokes(op: Op, jti: string, subject: string) {
    (op.Revoke? && op.id == jti) || (op.RevokeAll? && op.sub == subject)
  }

  /** No operation after the creation at step `i` revokes the token. */
  ghost predicate Unrevoked(ops: seq<Op>, jti: string, i: int)
    requires 0 <= i < |ops| && ops[i].Create?
  {
    forall j :: i < j < |ops| ==> !Revokes(ops[j], jti, ops[i].m.subject)
  }

  /** Read off the run alone: `jti` was created at step `i` unrevoked, never revoked since, and the
      expiry stored with it lies after `now`. */
  ghost predicate RunAccepts(ops: seq<Op>, jti: string, now: int, i: int) {
    && FirstCreate(ops, jti, i)
    && ops[i].m.revokedAt.None? && now < Wrap64(ops[i].m.expiresAt)
    && Unrevoked(ops, jti, i)
  }

  /** What the run up to now says about a token that is in the table. */
  ghost predicate Traced(ops: seq<Op>, tokens: Tokens, jti: string, i: int) {
    && FirstCreate(ops, jti, i) && jti in tokens
    && tokens[jti].subject == ops[i].m.subject
    && tokens[jti].expiresAt == Wrap64(ops[i].m.expiresAt)
    && (tokens[jti].revokedAt.None? <==> ops[i].m.revokedAt.None? && Unrevoked(ops, jti, i))
  }

  lemma StepTraced(ops: seq<Op>, op: Op, tokens: Tokens, jti: string, i: int)
    requires Traced(ops, tokens, jti, i)
    ensures Traced(ops + [op], Apply(tokens, op), jti, i)
  {
    var ops' := ops + [op];
    assert forall j :: 0 <= j < |ops| ==> ops'[j] == ops[j];
    assert ops'[|ops|] == op;
    assert Unrevoked(ops', jti, i) <==> Unrevoked(ops, jti, i) && !Revokes(op, jti, ops[i].m.subject);
  }

  ghost predicate NeverCreated(ops: seq<Op>, jti: string) {
    forall j :: 0 <= j < |ops| ==> !Creates(ops[j], jti)
  }

  /** In every run, a token is in the table exactly when it was created, and its row keeps the subject
      and expiry of its creation and tells whether a revocation followed. */
  lemma {:induction false} RowsAreTraced(ops: seq<Op>, jti: string)
    ensures jti in Run(EMPTY, ops) ==> exists i :: Traced(ops, Run(EMPTY, ops), jti, i)
    ensures jti !in Run(EMPTY, ops) ==> jti == "" || NeverCreated(ops, jti)
  {
    if ops != [] {
      var init, op := ops[..|ops| - 1], ops[|ops| - 1];
      assert ops == init + [op];
      RowsAreTraced(init, jti);
      if jti in Run(EMPTY, init) {
        var i :| Traced(init, Run(EMPTY, init), jti, i);
        StepTraced(init, op, Run(EMPTY, init), jti, i);
      } else {
        assert forall j :: 0 <= j < |init| ==> ops[j] == init[j];
        assert jti in Run(EMPTY, ops) ==> Traced(ops, Run(EMPTY, ops), jti, |init|);
      }
    }
  }

  lemma FirstCreateIsUnique(ops: seq<Op>, jti: string, i: int, k: int)
    requires FirstCreate(ops, jti, i) && FirstCreate(ops, jti, k)
    ensures i == k
  {
  }

  /** After any run of statements the gate accepts a token exactly when it was created, has not been
      revoked since by id or with its subject, and has not expired. */
  lemma AcceptedIffLive(ops: seq<Op>, jti: string, now: int)
    ensures Accepts(Run(EMPTY, ops), jti, now) <==> exists i :: RunAccepts(ops, jti, now, i)
  {
    RowsAreTraced(ops, jti);
    if jti in Run(EMPTY, ops) {
      var i :| Traced(ops, Run(EMPTY, ops), jti, i);
      if Accepts(Run(EMPTY, ops), jti, now) {
        assert RunAccepts(ops, jti, now, i);
      }
      if k :| RunAccepts(ops, jti, now, k) {
        FirstCreateIsUnique(ops, jti, i, k);
      }
    }
  }

  /** A row is never deleted, never unrevoked, and keeps its expiry and its subject. */
  lemma {:induction false} KeepsRejecting(tokens: Tokens, later: seq<Op>, jti: string)
    requires jti in tokens
    ensures var t := Run(tokens, later);
      && jti in t && t[jti].expiresAt == tokens[jti].expiresAt && t[jti].subject == tokens[jti].subject
      && (tokens[jti].revokedAt.Some? ==> t[jti].revokedAt.Some?)
  {
    if later != [] {
      KeepsRejecting(tokens, later[..|later| - 1], jti);
    }
  }

  /** The active tokens of a subject, which the cap counts, are those that the gate accepts. */
  lemma ActiveIffAccepted(tokens: Tokens, subject: string, now: int, jti: string)
    ensures jti in ActiveOf(tokens, subject, now)
      <==> Accepts(tokens, jti, now) && tokens[jti].subject == subject
    ensures Accepts(tokens, jti, now)
      <==> jti in tokens && tokens[jti].revokedAt == None && now < tokens[jti].expiresAt
  {
  }

  lemma {:induction false} UnusedIsKept(tokens: Tokens, jti: string, later: seq<Op>)
    requires jti in tokens && forall i :: 0 <= i < |later| ==> !(later[i].Use? && later[i].id == jti)
    ensures var t := Run(tokens, later); jti in t && t[jti].lastUsed == tokens[jti].lastUsed
  {
    if later != [] {
      UnusedIsKept(tokens, jti, later[..|later| - 1]);
      RowAfter(Run(tokens, later[..|later| - 1]), later[|later| - 1], jti);
    }
  }

  /** A use is shown until the next one: the last use of a token is the time of the last use statement
      since its creation. */
  lemma LastUseIsShown(tokens: Tokens, jti: string, at: Instant, later: seq<Op>)
    requires jti in tokens && forall i :: 0 <= i < |later| ==> !(later[i].Use? && later[i].id == jti)
    ensures var t := Run(Used(tokens, jti, at), later); jti in t && t[jti].lastUsed == Some(at)
  {
    RowAfter(tokens, Use(jti, at), jti);
    UnusedIsKept(Used(tokens, jti, at), jti, later);
  }

  /** Rejection is final: whatever follows, a token that exists and is rejected (for revocation or
      expiry) is never accepted again at the same or a later instant. */
  lemma RejectionIsFinal(tokens: Tokens, later: seq<Op>, jti: string, now: int, t: int)
    requires jti in tokens && !Accepts(tokens, jti, now) && now <= t
    ensures !Accepts(Run(tokens, later), jti, t)
  {
    KeepsRejecting(tokens, later, jti);
  }

  /** The two revocations differ in what they do to an earlier revocation time: by id it is
      overwritten, by subject it is kept. */
  lemma RevocationTimes(tokens: Tokens, jti: string, first: Instant, second: Instant)
    requires jti in tokens
    ensures Revoked(Revoked(tokens, jti, first), jti, second)[jti].revokedAt == Some(second)
    ensures AllRevoked(Revoked(tokens, jti, first), tokens[jti].subject, second)[jti].revokedAt == Some(first)
  {
  }
}
