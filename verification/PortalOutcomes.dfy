/** What each portal handler achieves, and exactly when: read off its request,
    the table and the statements that fail. */
module PortalOutcomes {
  import opened Wrappers
  import opened Text
  import opened Numbers
  import opened Store
  import opened Time
  import opened Portal

  /** `whole` is the last whole second not after `t`. */
  predicate CutTo(whole: int, t: int) {
    whole % SECOND == 0 && whole <= t < whole + SECOND
  }

  /** The metadata of a new token of `sub`, valid for `ttl` from the clock reading of the draw, joined the
      table, which stores it in 64 bits, and nothing else changed. */
  ghost predicate Adds(tokens: Tokens, tokens': Tokens, meta: TokenMeta,
                       sub: string, note: string, ttl: Duration, draw: Draw)
  {
    && draw.jti !in tokens && tokens' == tokens[draw.jti := Row(meta)]
    && meta.jti == draw.jti && meta.subject == sub && meta.note == note
    && CutTo(meta.issuedAt, draw.iat) && CutTo(meta.expiresAt, draw.exp + ttl)
    && meta.revokedAt.None? && meta.lastUsed.None?
  }

  /** The count leaves room for one more token, or there is no maximum. */
  predicate HasRoom(opt: Options, tokens: Tokens, sub: string, now: Instant, f: Faults) {
    opt.maxTokensPerUser > 0 ==> !f.count && |ActiveOf(tokens, sub, now)| < opt.maxTokensPerUser
  }

  /** The new row can be inserted. */
  predicate CanInsert(tokens: Tokens, draw: Draw, f: Faults) {
    !f.create && draw.jti != "" && draw.jti !in tokens
  }

  /** The validity field is blank or a number of days that the configuration allows. */
  predicate GoodValidity(opt: Options, form: string) {
    var text := TrimSpace(form);
    text == "" || (Atoi(text).Some? && GoodDays(opt, Atoi(text).value))
  }

  lemma InsertAdds(tokens: Tokens, sub: string, note: string, ttl: Duration, draw: Draw, f: Faults)
    requires sub != "" && 0 < ttl
    ensures var (tokens', meta) := IssueToken(tokens, sub, note, ttl, draw, f.create);
      && (meta.Some? <==> CanInsert(tokens, draw, f))
      && (meta.Some? ==> Adds(tokens, tokens', meta.value, sub, note, ttl, draw))
      && (meta.None? ==> tokens' == tokens)
  {
  }

  /** Issuing succeeds exactly when there is a session, the note has at most 200 bytes, the validity is
      good, the user is below the maximum and the database works; otherwise nothing changes. */
  lemma IssueSucceedsIff(opt: Options, tokens: Tokens, sub: string, note: string, ttl: string,
                         now: Instant, draw: Draw, f: Faults)
    ensures var (tokens', reply) := IssueStep(opt, tokens, sub, note, ttl, now, draw, f);
      && (reply.Issued? <==> sub != "" && ByteLen(TrimSpace(note)) <= 200 && GoodValidity(opt, ttl)
                             && HasRoom(opt, tokens, sub, now, f) && CanInsert(tokens, draw, f))
      && (reply.Issued? ==>
            Adds(tokens, tokens', reply.meta, sub, TrimSpace(note), ParseTTLDays(opt, ttl).value, draw))
      && (!reply.Issued? ==> tokens' == tokens)
  {
    AcceptedValidity(opt, ttl);
    if sub != "" && ParseTTLDays(opt, ttl).Ok? {
      InsertAdds(tokens, sub, TrimSpace(note), ParseTTLDays(opt, ttl).value, draw, f);
    }
  }

  /** The count was taken and is at the maximum. */
  predicate IsFull(opt: Options, tokens: Tokens, sub: string, now: Instant, f: Faults, msg: Message) {
    && 0 < opt.maxTokensPerUser <= |ActiveOf(tokens, sub, now)| && !f.count
    && msg == TooMany(|ActiveOf(tokens, sub, now)|, opt.maxTokensPerUser)
  }

  /** When `issue` answers what. */
  predicate IssueRow(opt: Options, tokens: Tokens, sub: string, note: string, ttl: string,
                     now: Instant, draw: Draw, f: Faults, reply: Reply)
  {
    var short, good := ByteLen(TrimSpace(note)) <= 200, GoodValidity(opt, ttl);
    match reply
    case ToLogin => sub == ""
    case Flash(NoteTooLong) => sub != "" && !short
    case Flash(BadValidity(e)) => sub != "" && short && !good && Explains(opt, ttl, e)
    case Flash(msg) => sub != "" && short && good && IsFull(opt, tokens, sub, now, f, msg)
    case ServerError =>
      && sub != "" && short && good
      && ((opt.maxTokensPerUser > 0 && f.count)
          || (HasRoom(opt, tokens, sub, now, f) && !CanInsert(tokens, draw, f)))
    case Issued(_) => sub != "" && short && good && HasRoom(opt, tokens, sub, now, f) && CanInsert(tokens, draw, f)
    case NoSuchToken => false
  }

  lemma IssueReplies(opt: Options, tokens: Tokens, sub: string, note: string, ttl: string,
                     now: Instant, draw: Draw, f: Faults)
    ensures IssueRow(opt, tokens, sub, note, ttl, now, draw, f,
                     IssueStep(opt, tokens, sub, note, ttl, now, draw, f).1)
  {
    AcceptedValidity(opt, ttl);
    RefusalsAreExplained(opt, ttl);
  }

  /** The rotation gets as far as revoking: the token is the user's own and active, or there is room for
      one more. */
  predicate MayRotate(opt: Options, tokens: Tokens, sub: string, jti: string, now: Instant, f: Faults) {
    && sub != "" && !f.get && jti in tokens && tokens[jti].subject == sub
    && (tokens[jti].Active(now) || HasRoom(opt, tokens, sub, now, f))
    && !f.revoke
  }

  /** A rotation that may not happen changes nothing; one that may revokes the old token whatever
      comes, and succeeds exactly when the new row can be inserted, with the note of the old one. */
  lemma RotateSucceedsIff(opt: Options, tokens: Tokens, sub: string, jti: string, now: Instant, draw: Draw, f: Faults)
    ensures var (tokens', reply) := RotateStep(opt, tokens, sub, jti, now, draw, f);
      && (reply.Issued? <==> MayRotate(opt, tokens, sub, jti, now, f) && CanInsert(tokens, draw, f))
      && (!MayRotate(opt, tokens, sub, jti, now, f) ==> tokens' == tokens)
      && (MayRotate(opt, tokens, sub, jti, now, f) ==>
            var before := tokens[jti := tokens[jti].(revokedAt := Some(now))];
            if reply.Issued?
            then Adds(before, tokens', reply.meta, sub, tokens[jti].note,
                      RotatedTTL(opt, tokens[jti].expiresAt, now), draw)
            else tokens' == before && reply == ServerError)
  {
    if MayRotate(opt, tokens, sub, jti, now, f) {
      InsertAdds(Revoked(tokens, jti, now), sub, tokens[jti].note, RotatedTTL(opt, tokens[jti].expiresAt, now),
                 draw, f);
    }
  }

  predicate IsOwn(tokens: Tokens, sub: string, jti: string, f: Faults) {
    !f.get && jti in tokens && tokens[jti].subject == sub
  }

  /** When `rotate` answers what. */
  predicate RotateRow(opt: Options, tokens: Tokens, sub: string, jti: string,
                      now: Instant, draw: Draw, f: Faults, reply: Reply)
  {
    var own := IsOwn(tokens, sub, jti, f);
    match reply
    case ToLogin => sub == ""
    case NoSuchToken => sub != "" && !own
    case Flash(msg) => sub != "" && own && !tokens[jti].Active(now) && IsFull(opt, tokens, sub, now, f, msg)
    case ServerError =>
      && sub != "" && own
      && ((!tokens[jti].Active(now) && opt.maxTokensPerUser > 0 && f.count)
          || (f.revoke && (tokens[jti].Active(now) || HasRoom(opt, tokens, sub, now, f)))
          || (MayRotate(opt, tokens, sub, jti, now, f) && !CanInsert(tokens, draw, f)))
    case Issued(_) => MayRotate(opt, tokens, sub, jti, now, f) && CanInsert(tokens, draw, f)
  }

  lemma RotateReplies(opt: Options, tokens: Tokens, sub: string, jti: string, now: Instant, draw: Draw, f: Faults)
    ensures RotateRow(opt, tokens, sub, jti, now, draw, f, RotateStep(opt, tokens, sub, jti, now, draw, f).1)
  {
  }

  /** The user's own token, and the database works. */
  predicate MayRevoke(tokens: Tokens, sub: string, jti: string, f: Faults) {
    sub != "" && IsOwn(tokens, sub, jti, f) && !f.revoke
  }

  /** Revoking succeeds exactly for the user's own token, whatever its state, and sets its revocation time;
      otherwise nothing changes, and the answer tells why. */
  lemma RevokeSucceedsIff(tokens: Tokens, sub: string, jti: string, now: Instant, f: Faults)
    ensures var (tokens', reply) := RevokeStep(tokens, sub, jti, now, f);
      && (reply == Flash(TokenRevoked) <==> MayRevoke(tokens, sub, jti, f))
      && tokens' == (if MayRevoke(tokens, sub, jti, f) then tokens[jti := tokens[jti].(revokedAt := Some(now))]
                     else tokens)
      && (reply == ToLogin <==> sub == "")
      && (reply == NoSuchToken <==> sub != "" && !IsOwn(tokens, sub, jti, f))
      && (reply == ServerError <==> sub != "" && IsOwn(tokens, sub, jti, f) && f.revoke)
  {
  }
}
