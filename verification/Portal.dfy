/** The portal's token handlers (internal/portal/handlers.go, portal.go) and the
    time fields of internal/token/token.go `Issue`. A handler is given the
    session's subject ("" without a session), its form values, its clock
    readings, the random token id, and which database statements fail. */
module Portal {
  import opened Wrappers
  import opened Text
  import opened Numbers
  import opened Store
  import opened Time

  const FALLBACK_TTL: int := 30 * DAY
  const CENTURY_DAYS: int := 36500

  /** `maxTokensPerUser <= 0` and `maxTokenTTL <= 0` mean unlimited. */
  datatype Options = Options(maxTokensPerUser: int, tokenTTL: Duration, maxTokenTTL: Duration)
  {
    /** What configuration validation guarantees: 0 < default_ttl <= max_ttl. */
    predicate Validated() {
      0 < tokenTTL <= maxTokenTTL
    }
  }

  function DefaultTTL(opt: Options): (ttl: Duration)
    ensures 0 < ttl
    ensures opt.maxTokenTTL > 0 && opt.tokenTTL <= opt.maxTokenTTL ==> ttl <= opt.maxTokenTTL
    ensures opt.tokenTTL > 0 ==> ttl == opt.tokenTTL
    ensures opt.tokenTTL <= 0 ==> ttl == if opt.maxTokenTTL > 0 then opt.maxTokenTTL else 30 * 24 * 3600 * SECOND
  {
    if opt.tokenTTL > 0 then opt.tokenTTL
    else if opt.maxTokenTTL > 0 then opt.maxTokenTTL
    else FALLBACK_TTL
  }

  // ---- the validity field ------------------------------------------------------

  datatype TTLError = NotWholeDays | AboveMax(days: int) | AboveCentury

  /** parseTTLDays. The conversion to a duration is done in 64-bit arithmetic. */
  function ParseTTLDays(opt: Options, form: string): Result<Duration, TTLError> {
    var text := TrimSpace(form);
    if text == "" then Ok(DefaultTTL(opt))
    else
      match Atoi(text)
      case None => Err(NotWholeDays)
      case Some(days) =>
        if days < 1 then Err(NotWholeDays)
        else if opt.maxTokenTTL > 0 && days > opt.maxTokenTTL / DAY then Err(AboveMax(opt.maxTokenTTL / DAY))
        else if opt.maxTokenTTL <= 0 && days > CENTURY_DAYS then Err(AboveCentury)
        else Ok(Wrap64(Wrap64(days * 24) * HOUR))
  }

  /** The most days the form accepts. */
  function DayLimit(opt: Options): nat {
    if opt.maxTokenTTL > 0 then opt.maxTokenTTL / DAY else CENTURY_DAYS
  }

  lemma DaysFit(opt: Options, days: int)
    requires 1 <= days <= DayLimit(opt)
    ensures Wrap64(Wrap64(days * 24) * HOUR) == days * DAY
    ensures opt.maxTokenTTL > 0 ==> days * DAY <= opt.maxTokenTTL
  {
    assert days <= 106751;
    WrapInRange(days * 24);
    WrapInRange(days * 24 * HOUR);
  }

  /** At least one day, and within the maximum, or 36500 days if there is none. */
  predicate GoodDays(opt: Options, days: int) {
    1 <= days && if opt.maxTokenTTL > 0 then days * DAY <= opt.maxTokenTTL else days <= 36500
  }

  /** Why a form is refused. */
  predicate Explains(opt: Options, form: string, e: TTLError) {
    var days := Atoi(TrimSpace(form));
    match e
    case NotWholeDays => days.None? || days.value < 1
    case AboveMax(max) =>
      && days.Some? && 1 <= days.value && opt.maxTokenTTL < days.value * DAY
      && 0 < opt.maxTokenTTL && max * DAY <= opt.maxTokenTTL < (max + 1) * DAY
    case AboveCentury => days.Some? && opt.maxTokenTTL <= 0 && 36500 < days.value
  }

  lemma RefusalsAreExplained(opt: Options, form: string)
    ensures var r := ParseTTLDays(opt, form); r.Err? ==> TrimSpace(form) != "" && Explains(opt, form, r.error)
  {
  }

  /** A form is accepted exactly when it is blank or a number of days from 1 to the limit; the
      duration is then exact, since no accepted number overflows, positive, and within the maximum. */
  lemma AcceptedValidity(opt: Options, form: string)
    ensures var text := TrimSpace(form); var r := ParseTTLDays(opt, form);
      && (r.Ok? <==> text == "" || (Atoi(text).Some? && GoodDays(opt, Atoi(text).value)))
      && (r.Ok? && text == "" ==> r.value == DefaultTTL(opt))
      && (r.Ok? && text != "" ==> r.value == Atoi(text).value * DAY)
      && (r.Ok? ==> 0 < r.value)
      && (r.Ok? && opt.maxTokenTTL > 0 && (text != "" || opt.tokenTTL <= opt.maxTokenTTL) ==>
            r.value <= opt.maxTokenTTL)
  {
    var text := TrimSpace(form);
    match Atoi(text)
    case None =>
    case Some(days) =>
      if 1 <= days <= DayLimit(opt) {
        DaysFit(opt, days);
      }
  }

  lemma AtoiOverCentury()
    ensures TrimSpace("36501") == "36501" && Atoi("36501") == Some(36501)
  {
    var s := "36501";
    assert s[..4] == "3650" && s[..3] == "365" && s[..2] == "36" && s[..1] == "3" && s[..0] == "";
    assert Decimal(s[..1]) == 3 by { assert s[..1][..0] == ""; }
    assert Decimal(s[..2]) == 36 by { assert s[..2][..1] == s[..1]; }
    assert Decimal(s[..3]) == 365 by { assert s[..3][..2] == s[..2]; }
    assert Decimal(s[..4]) == 3650 by { assert s[..4][..3] == s[..3]; }
  }

  /** A maximum of more than 36500 days admits a form that asks for one day more than that. */
  lemma OverCenturyIsAccepted(opt: Options)
    requires DayLimit(opt) > CENTURY_DAYS
    ensures ParseTTLDays(opt, "36501") == Ok(36501 * DAY)
  {
    AtoiOverCentury();
    AcceptedValidity(opt, "36501");
  }

  /** The 100-year cap holds for every accepted form, blank ones included, exactly when it holds for the
      days that may be asked for and for the default. */
  lemma CenturyCapHolds(opt: Options)
    ensures (forall form :: ParseTTLDays(opt, form).Ok? ==> ParseTTLDays(opt, form).value <= CENTURY_DAYS * DAY)
      <==> DayLimit(opt) <= CENTURY_DAYS && DefaultTTL(opt) <= CENTURY_DAYS * DAY
  {
    forall form | ParseTTLDays(opt, form).Ok? && DayLimit(opt) <= CENTURY_DAYS && DefaultTTL(opt) <= CENTURY_DAYS * DAY
      ensures ParseTTLDays(opt, form).value <= CENTURY_DAYS * DAY
    {
      AcceptedValidity(opt, form);
    }
    assert TrimSpace("") == "" && ParseTTLDays(opt, "") == Ok(DefaultTTL(opt));
    if DayLimit(opt) > CENTURY_DAYS {
      OverCenturyIsAccepted(opt);
    }
  }

  /** Where the promise fails: a validated configuration under which one may ask for 36501 days. */
  lemma CenturyCapFails()
    ensures var opt := Options(5, 30 * DAY, 40000 * DAY);
      opt.Validated() && ParseTTLDays(opt, "36501") == Ok(36501 * DAY)
  {
    OverCenturyIsAccepted(Options(5, 30 * DAY, 40000 * DAY));
  }

  /** And one under which a blank form alone exceeds the cap. */
  lemma CenturyCapFailsForDefault()
    ensures var opt := Options(5, 36500 * DAY + HOUR, 36500 * DAY + HOUR);
      opt.Validated() && DayLimit(opt) == CENTURY_DAYS && ParseTTLDays(opt, "") == Ok(36500 * DAY + HOUR)
  {
  }

  // ---- issuing -------------------------------------------------------------------

  /** jwt.NumericDate keeps whole seconds. */
  function WholeSeconds(t: int): int {
    t / SECOND * SECOND
  }

  /** What one Issue call draws: the random id and its clock readings for the issue and expiry times. */
  datatype Draw = Draw(jti: string, iat: Instant, exp: Instant)

  /** Which database statements of a handler fail. */
  datatype Faults = Faults(get: bool, count: bool, revoke: bool, create: bool)

  const NO_FAULTS: Faults := Faults(false, false, false, false)

  datatype Message =
    | NoteTooLong
    | BadValidity(error: TTLError)
    | TooMany(count: int, max: int)
    | TokenRevoked

  datatype Reply =
    | ToLogin
    | Flash(msg: Message)
    | NoSuchToken
    | ServerError
    | Issued(meta: TokenMeta)

  /** Issue and issueToken: the metadata of a new token, and the table with its row. */
  function IssueToken(tokens: Tokens, sub: string, note: string, ttl: Duration, draw: Draw, fails: bool)
    : (Tokens, Option<TokenMeta>)
  {
    if sub == "" || ttl <= 0 then (tokens, None)
    else
      var meta := TokenMeta(draw.jti, sub, note, WholeSeconds(draw.iat), WholeSeconds(draw.exp + ttl), None, None);
      if fails || draw.jti == "" || draw.jti in tokens then (tokens, None)
      else (Created(tokens, meta), Some(meta))
  }

  /** Whether the handler stops because the subject already has the maximum of active tokens. */
  predicate AtCap(opt: Options, tokens: Tokens, sub: string, now: Instant) {
    opt.maxTokensPerUser > 0 && |ActiveOf(tokens, sub, now)| >= opt.maxTokensPerUser
  }

  /** The form checks of `issue`: the note and the validity, or what to tell the user. */
  function CheckForm(opt: Options, note: string, ttl: string): Result<(string, Duration), Message> {
    var text := TrimSpace(note);
    if ByteLen(text) > 200 then Err(NoteTooLong)
    else
      match ParseTTLDays(opt, ttl)
      case Err(e) => Err(BadValidity(e))
      case Ok(d) => Ok((text, d))
  }

  function IssueStep(opt: Options, tokens: Tokens, sub: string, note: string, ttl: string,
                     now: Instant, draw: Draw, f: Faults): (Tokens, Reply) {
    if sub == "" then (tokens, ToLogin)
    else
      match CheckForm(opt, note, ttl)
      case Err(msg) => (tokens, Flash(msg))
      case Ok((text, d)) =>
        if opt.maxTokensPerUser > 0 && f.count then (tokens, ServerError)
        else if AtCap(opt, tokens, sub, now) then
          (tokens, Flash(TooMany(|ActiveOf(tokens, sub, now)|, opt.maxTokensPerUser)))
        else
          match IssueToken(tokens, sub, text, d, draw, f.create)
          case (tokens', Some(meta)) => (tokens', Issued(meta))
          case (tokens', None) => (tokens', ServerError)
  }

  /** The validity a rotation gives the new token. */
  function RotatedTTL(opt: Options, expiresAt: int, now: Instant): (ttl: Duration)
    ensures 0 < Sub(expiresAt, now) && (opt.maxTokenTTL <= 0 || Sub(expiresAt, now) <= opt.maxTokenTTL) ==>
      ttl == Sub(expiresAt, now)
    ensures Sub(expiresAt, now) <= 0 || 0 < opt.maxTokenTTL < Sub(expiresAt, now) ==> ttl == DefaultTTL(opt)
  {
    var remaining := Sub(expiresAt, now);
    if remaining <= 0 || (opt.maxTokenTTL > 0 && remaining > opt.maxTokenTTL) then DefaultTTL(opt) else remaining
  }

  /** ownToken: only the subject's own tokens can be told from missing ones. */
  function OwnToken(tokens: Tokens, sub: string, jti: string, fails: bool): Option<TokenMeta> {
    if !fails && jti in tokens && tokens[jti].subject == sub then Some(tokens[jti]) else None
  }

  function RotateStep(opt: Options, tokens: Tokens, sub: string, jti: string,
                      now: Instant, draw: Draw, f: Faults): (Tokens, Reply) {
    if sub == "" then (tokens, ToLogin)
    else
      match OwnToken(tokens, sub, jti, f.get)
      case None => (tokens, NoSuchToken)
      case Some(meta) =>
        var inactive := opt.maxTokensPerUser > 0 && !meta.Active(now);
        if inactive && f.count then (tokens, ServerError)
        else if inactive && AtCap(opt, tokens, sub, now) then
          (tokens, Flash(TooMany(|ActiveOf(tokens, sub, now)|, opt.maxTokensPerUser)))
        else if f.revoke then (tokens, ServerError)
        else
          match IssueToken(Revoked(tokens, jti, now), sub, meta.note, RotatedTTL(opt, meta.expiresAt, now),
                           draw, f.create)
          case (tokens', Some(m)) => (tokens', Issued(m))
          case (tokens', None) => (tokens', ServerError)
  }

  function RevokeStep(tokens: Tokens, sub: string, jti: string, now: Instant, f: Faults): (Tokens, Reply) {
    if sub == "" then (tokens, ToLogin)
    else if OwnToken(tokens, sub, jti, f.get).None? then (tokens, NoSuchToken)
    else if f.revoke then (tokens, ServerError)
    else (Revoked(tokens, jti, now), Flash(TokenRevoked))
  }

  /** Every row is stored under its own id. */
  ghost predicate Keyed(tokens: Tokens) {
    forall jti :: jti in tokens ==> tokens[jti].jti == jti
  }

  class Server {
    const opt: Options
    const store: SQLite

    constructor (opt: Options, store: SQLite)
      ensures this.opt == opt && this.store == store
    {
      this.opt := opt;
      this.store := store;
    }

    method NewToken(sub: string, note: string, ttl: Duration, draw: Draw, fails: bool) returns (r: Option<TokenMeta>)
      modifies store
      ensures (store.tokens, r) == IssueToken(old(store.tokens), sub, note, ttl, draw, fails)
    {
      if sub == "" || ttl <= 0 || fails {
        return None;
      }
      var meta := TokenMeta(draw.jti, sub, note, WholeSeconds(draw.iat), WholeSeconds(draw.exp + ttl), None, None);
      var err := store.CreateToken(meta);
      if err.Some? {
        return None;
      }
      return Some(meta);
    }

    method Issue(sub: string, note: string, ttl: string, now: Instant, draw: Draw, f: Faults) returns (reply: Reply)
      modifies store
      ensures (store.tokens, reply) == IssueStep(opt, old(store.tokens), sub, note, ttl, now, draw, f)
    {
      if sub == "" {
        return ToLogin;
      }
      var text := TrimSpace(note);
      if ByteLen(text) > 200 {
        return Flash(NoteTooLong);
      }
      var validity := ParseTTLDays(opt, ttl);
      if validity.Err? {
        return Flash(BadValidity(validity.error));
      }
      if opt.maxTokensPerUser > 0 {
        if f.count {
          return ServerError;
        }
        var count := store.CountActiveBySubject(sub, now);
        if count >= opt.maxTokensPerUser {
          return Flash(TooMany(count, opt.maxTokensPerUser));
        }
      }
      var meta := NewToken(sub, text, validity.value, draw, f.create);
      if meta.None? {
        return ServerError;
      }
      return Issued(meta.value);
    }

    method Own(sub: string, jti: string, fails: bool) returns (r: Option<TokenMeta>)
      ensures r == OwnToken(store.tokens, sub, jti, fails)
    {
      if fails {
        return None;
      }
      var got := store.GetToken(jti);
      if got.Ok? && got.value.subject == sub {
        return Some(got.value);
      }
      return None;
    }

    method Rotate(sub: string, jti: string, now: Instant, draw: Draw, f: Faults) returns (reply: Reply)
      requires Keyed(store.tokens)
      modifies store
      ensures (store.tokens, reply) == RotateStep(opt, old(store.tokens), sub, jti, now, draw, f)
    {
      if sub == "" {
        return ToLogin;
      }
      var own := Own(sub, jti, f.get);
      if own.None? {
        return NoSuchToken;
      }
      var meta := own.value;
      var remaining := Sub(meta.expiresAt, now);
      if remaining <= 0 || (opt.maxTokenTTL > 0 && remaining > opt.maxTokenTTL) {
        remaining := DefaultTTL(opt);
      }
      if opt.maxTokensPerUser > 0 && !meta.Active(now) {
        if f.count {
          return ServerError;
        }
        var count := store.CountActiveBySubject(sub, now);
        if count >= opt.maxTokensPerUser {
          return Flash(TooMany(count, opt.maxTokensPerUser));
        }
      }
      if f.revoke {
        return ServerError;
      }
      var err := store.RevokeToken(meta.jti, now);
      var issued := NewToken(sub, meta.note, remaining, draw, f.create);
      if issued.None? {
        return ServerError;
      }
      return Issued(issued.value);
    }

    method Revoke(sub: string, jti: string, now: Instant, f: Faults) returns (reply: Reply)
      requires Keyed(store.tokens)
      modifies store
      ensures (store.tokens, reply) == RevokeStep(old(store.tokens), sub, jti, now, f)
    {
      if sub == "" {
        return ToLogin;
      }
      var own := Own(sub, jti, f.get);
      if own.None? {
        return NoSuchToken;
      }
      if f.revoke {
        return ServerError;
      }
      var err := store.RevokeToken(own.value.jti, now);
      return Flash(TokenRevoked);
    }
  }
}
