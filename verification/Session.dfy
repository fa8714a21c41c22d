/** Signed cookie sessions (internal/session/session.go) and the flash messages
    that the portal keeps in them (internal/portal/handlers.go). The message
    authentication code and the JSON encoding are parameters. */
module Session {
  import opened Wrappers
  import opened Bytes
  import opened Text
  import opened Time
  import Base64

  const TTL: int := 12 * HOUR

  /** The zero time.Time, the first of January of the year 1. */
  const ZERO_TIME: int := -62_135_596_800 * SECOND

  /** A clock reading: not before the zero time. */
  type Instant = t: int | ZERO_TIME <= t witness 0

  type Values = map<string, string>

  datatype Session = Session(values: Values, expires: int)

  function NewSession(values: Values, now: Instant): Session {
    Session(values, now + TTL)
  }

  /** The signed cookie body; `expires` is in whole seconds. */
  datatype Payload = Payload(values: Values, expires: int)

  datatype CookieOp = Flash(msg: string, now: Instant) | Pop(now: Instant)

  /** `mac` signs, `marshal` and `unmarshal` are the JSON encoding of a payload. */
  datatype Codec = Codec(mac: Bytes -> Bytes, marshal: Payload -> Bytes, unmarshal: Bytes -> Option<Payload>)
  {
    /** Decoding undoes encoding. */
    ghost predicate Faithful() {
      forall p: Payload :: unmarshal(marshal(p)) == Some(p)
    }

    /** Get: the session in a cookie, if it is authentic and has not expired. */
    function Get(cookie: Option<string>, now: Instant): Option<Session> {
      if cookie.None? || cookie.value == "" then None
      else
        match Cut(cookie.value, '.')
        case None => None
        case Some((body, sig)) =>
          match (Base64.Decode(body), Base64.Decode(sig))
          case (Some(raw), Some(got)) =>
            if mac(raw) != got then None
            else
              (match unmarshal(raw)
               case None => None
               case Some(p) =>
                 if p.values == map[] || now >= p.expires * SECOND then None
                 else Some(Session(p.values, p.expires * SECOND)))
          case _ => None
    }

    function ExpiryOf(s: Session, now: Instant): int {
      if s.expires == ZERO_TIME then now + TTL else s.expires
    }

    function Sign(p: Payload): string {
      Base64.Encode(marshal(p)) + "." + Base64.Encode(mac(marshal(p)))
    }

    /** Set: the cookie for a session; a zero expiry becomes twelve hours from now. */
    function Set(s: Session, now: Instant): string {
      Sign(Payload(s.values, ExpiryOf(s, now) / SECOND))
    }

    /** The first '.' separates body and signature, so a signed payload is read back, until it expires. */
    lemma GetSigned(p: Payload, now: Instant)
      requires Faithful()
      ensures Get(Some(Sign(p)), now)
        == if p.values != map[] && now < p.expires * SECOND then Some(Session(p.values, p.expires * SECOND)) else None
    {
      Base64.EncodeInAlphabet(marshal(p));
      Base64.DecodeEncode(marshal(p));
      Base64.DecodeEncode(mac(marshal(p)));
      CutFindsFirst(Base64.Encode(marshal(p)), Base64.Encode(mac(marshal(p))), '.');
    }

    /** Get after Set returns the same nonempty values with the expiry cut to whole seconds, exactly as
        long as that instant lies ahead; the zero time is replaced by twelve hours from then. */
    lemma GetSet(s: Session, written: Instant, now: Instant)
      requires Faithful()
      ensures var zero := -62_135_596_800 * SECOND;
        var expires := (if s.expires == zero then written + 12 * 3600 * SECOND else s.expires) / SECOND * SECOND;
        Get(Some(Set(s, written)), now)
        == if s.values != map[] && now < expires then Some(Session(s.values, expires)) else None
    {
      GetSigned(Payload(s.values, ExpiryOf(s, written) / SECOND), now);
    }

    /** The cookie is `body.sig`, `sig` is the signature of what `body` encodes, and that is the payload. */
    ghost predicate Authentic(c: string, body: string, sig: string, raw: Bytes, p: Payload) {
      && c == body + "." + sig && '.' !in body
      && Base64.Decode(body) == Some(raw)
      && Base64.Decode(sig) == Some(mac(raw))
      && unmarshal(raw) == Some(p)
    }

    /** The payload has values, has not expired, and is this session. */
    ghost predicate IsLive(p: Payload, now: Instant, s: Session) {
      p.values == s.values != map[] && now < p.expires * SECOND == s.expires
    }

    /** Whatever the cookie, and whoever made it: it carries a session exactly if it is authentic, has
        values and has not expired; the session is then what its payload says. */
    lemma GetIff(c: string, now: Instant, s: Session)
      ensures Get(Some(c), now) == Some(s)
        <==> exists body, sig, raw, p :: Authentic(c, body, sig, raw, p) && IsLive(p, now, s)
      ensures Get(None, now) == None
    {
      if body, sig, raw, p :| Authentic(c, body, sig, raw, p) && IsLive(p, now, s) {
        CutFindsFirst(body, sig, '.');
        assert c == body + ['.'] + sig;
      }
      if Get(Some(c), now) == Some(s) {
        var (body, sig) := Cut(c, '.').value;
        var raw := Base64.Decode(body).value;
        var p := unmarshal(raw).value;
        assert Authentic(c, body, sig, raw, p) && IsLive(p, now, s);
      }
    }

    /** A cookie whose second part is not the signature of its first carries no session. */
    lemma ForgedIsRejected(body: string, sig: string, now: Instant)
      requires '.' !in body
      requires Base64.Decode(body).None? || Base64.Decode(sig) != Some(mac(Base64.Decode(body).value))
      ensures Get(Some(body + "." + sig), now) == None
    {
      CutFindsFirst(body, sig, '.');
      assert body + "." + sig == body + ['.'] + sig;
    }

    // ---- flash messages --------------------------------------------------------------

    /** flash: the cookie afterwards. */
    function FlashStep(cookie: Option<string>, msg: string, now: Instant): Option<string> {
      match Get(cookie, now)
      case None => cookie
      case Some(s) => Some(Set(Session(s.values["flash" := msg], s.expires), now))
    }

    /** popFlash: the cookie afterwards and the message. */
    function PopStep(cookie: Option<string>, now: Instant): (Option<string>, string) {
      match Get(cookie, now)
      case None => (cookie, "")
      case Some(s) =>
        if "flash" !in s.values || s.values["flash"] == "" then (cookie, "")
        else (Some(Set(Session(s.values - {"flash"}, s.expires), now)), s.values["flash"])
    }

    function StepCookie(cookie: Option<string>, op: CookieOp): Option<string> {
      match op
      case Flash(msg, now) => FlashStep(cookie, msg, now)
      case Pop(now) => PopStep(cookie, now).0
    }

    /** The browser's cookie after a run of requests. */
    function After(cookie: Option<string>, ops: seq<CookieOp>): Option<string> {
      if ops == [] then cookie else StepCookie(After(cookie, ops[..|ops| - 1]), ops[|ops| - 1])
    }

    ghost predicate Signs(p: Payload, cookie: Option<string>, values: Values, expires: int) {
      cookie == Some(Sign(p)) && p.values - {"flash"} == values - {"flash"} && p.expires == expires
    }

    /** The cookie carries `values`, a flash message apart, and expires at second `expires`. */
    ghost predicate Carries(cookie: Option<string>, values: Values, expires: int) {
      exists p: Payload :: Signs(p, cookie, values, expires)
    }

    /** A cookie without a session is left as it is and shows no message. */
    lemma NoSessionNoFlash(cookie: Option<string>, msg: string, now: Instant)
      requires Get(cookie, now).None?
      ensures FlashStep(cookie, msg, now) == cookie && PopStep(cookie, now) == (cookie, "")
    {
    }

    /** Nor is one rewritten whose session holds no message, or an empty one. */
    lemma NoMessageNoRewrite(cookie: Option<string>, now: Instant)
      requires Get(cookie, now).Some?
      requires var values := Get(cookie, now).value.values; "flash" !in values || values["flash"] == ""
      ensures PopStep(cookie, now) == (cookie, "")
    {
    }

    /** Rewriting a session that was read keeps its expiry. */
    lemma Rewrite(p: Payload, values: Values, now: Instant)
      requires now < p.expires * SECOND
      ensures Set(Session(values, p.expires * SECOND), now) == Sign(Payload(values, p.expires))
    {
    }

    lemma FlashCarries(p: Payload, cookie: Option<string>, msg: string, now: Instant, values: Values, expires: int)
      requires Faithful() && Signs(p, cookie, values, expires)
      ensures Carries(FlashStep(cookie, msg, now), values, expires)
    {
      GetSigned(p, now);
      var after := Payload(p.values["flash" := msg], p.expires);
      if Get(cookie, now).Some? {
        Rewrite(p, after.values, now);
        assert after.values - {"flash"} == p.values - {"flash"};
        assert Signs(after, FlashStep(cookie, msg, now), values, expires);
      }
    }

    lemma PopCarries(p: Payload, cookie: Option<string>, now: Instant, values: Values, expires: int)
      requires Faithful() && Signs(p, cookie, values, expires)
      ensures Carries(PopStep(cookie, now).0, values, expires)
    {
      GetSigned(p, now);
      var after := Payload(p.values - {"flash"}, p.expires);
      if PopStep(cookie, now).0 != cookie {
        Rewrite(p, after.values, now);
        assert after.values - {"flash"} == p.values - {"flash"};
        assert Signs(after, PopStep(cookie, now).0, values, expires);
      }
    }

    lemma StepCarries(cookie: Option<string>, op: CookieOp, values: Values, expires: int)
      requires Faithful() && Carries(cookie, values, expires)
      ensures Carries(StepCookie(cookie, op), values, expires)
    {
      var p: Payload :| Signs(p, cookie, values, expires);
      if op.Flash? {
        FlashCarries(p, cookie, op.msg, op.now, values, expires);
      } else {
        PopCarries(p, cookie, op.now, values, expires);
      }
    }

    lemma {:induction false} RunCarries(cookie: Option<string>, ops: seq<CookieOp>, values: Values, expires: int)
      requires Faithful() && Carries(cookie, values, expires)
      ensures Carries(After(cookie, ops), values, expires)
    {
      if ops != [] {
        RunCarries(cookie, ops[..|ops| - 1], values, expires);
        StepCarries(After(cookie, ops[..|ops| - 1]), ops[|ops| - 1], values, expires);
      }
    }

    /** After any sequence of flash and popFlash, at any times, the session that was set is still the
        same in every value but the flash message; it is alive exactly until its original expiry cut
        to whole seconds, and so is never extended. */
    lemma SessionIsNeverExtended(s: Session, written: Instant, ops: seq<CookieOp>, now: Instant)
      requires Faithful()
      requires exists key :: key in s.values && key != "flash"
      ensures var expires := ExpiryOf(s, written) / SECOND * SECOND;
        var got := Get(After(Some(Set(s, written)), ops), now);
        && (got.Some? <==> now < expires)
        && (got.Some? ==> got.value.expires == expires && got.value.values - {"flash"} == s.values - {"flash"})
    {
      var cookie, seconds := Some(Set(s, written)), ExpiryOf(s, written) / SECOND;
      assert Signs(Payload(s.values, seconds), cookie, s.values, seconds);
      RunCarries(cookie, ops, s.values, seconds);
      var p: Payload :| Signs(p, After(cookie, ops), s.values, seconds);
      GetSigned(p, now);
      var key :| key in s.values && key != "flash";
      assert key in s.values - {"flash"};
      assert key in p.values - {"flash"};
    }

    /** Who signs in at `t0` stays signed in as the same subject for twelve hours (up to the second),
        through any flash messages and however often pages are loaded, and no longer. */
    lemma SignInLastsTwelveHours(sub: string, idp: string, t0: Instant, written: Instant, ops: seq<CookieOp>,
                                 now: Instant)
      requires Faithful()
      ensures var got := Get(After(Some(Set(NewSession(map["sub" := sub, "idp" := idp], t0), written)), ops), now);
        && (now <= t0 + (12 * 3600 - 1) * SECOND ==> got.Some?)
        && (t0 + 12 * 3600 * SECOND <= now ==> got.None?)
        && (got.Some? ==> "sub" in got.value.values && got.value.values["sub"] == sub)
    {
      var s := NewSession(map["sub" := sub, "idp" := idp], t0);
      assert "sub" in s.values && "sub" != "flash" by { assert "sub"[0] != "flash"[0]; }
      assert "idp" != "sub" by { assert "idp"[0] != "sub"[0]; }
      SessionIsNeverExtended(s, written, ops, now);
      var got := Get(After(Some(Set(s, written)), ops), now);
      if got.Some? {
        assert "sub" in s.values - {"flash"} && (s.values - {"flash"})["sub"] == sub;
        assert "sub" in got.value.values - {"flash"};
        assert (got.value.values - {"flash"})["sub"] == got.value.values["sub"];
      }
    }

    /** A nonempty message that was flashed is shown exactly once. */
    lemma FlashIsShownOnce(p: Payload, msg: string, t0: Instant, t1: Instant, t2: Instant)
      requires Faithful() && msg != "" && (exists key :: key in p.values && key != "flash")
      requires t0 < p.expires * SECOND && t1 < p.expires * SECOND
      ensures var flashed := FlashStep(Some(Sign(p)), msg, t0);
        && PopStep(flashed, t1).1 == msg
        && PopStep(PopStep(flashed, t1).0, t2).1 == ""
    {
      var key :| key in p.values && key != "flash";
      var with := Payload(p.values["flash" := msg], p.expires);
      var without := Payload(with.values - {"flash"}, p.expires);
      GetSigned(p, t0);
      Rewrite(p, with.values, t0);
      GetSigned(with, t1);
      Rewrite(with, without.values, t1);
      GetSigned(without, t2);
      assert key in p.values && p.values != map[];
      assert "flash" in with.values && with.values != map[];
    }
  }

  // ---- the sign-in state cookie ------------------------------------------------------

  /** splitAuthCookie: "state.nonce.verifier". */
  function SplitAuthCookie(v: string): Option<(string, string, string)> {
    var parts := Split(v, '.');
    if |parts| != 3 then None else Some((parts[0], parts[1], parts[2]))
  }

  /** Exactly three parts without '.' between them are accepted. */
  lemma SplitAuthCookieIff(v: string, state: string, nonce: string, verifier: string)
    ensures SplitAuthCookie(v) == Some((state, nonce, verifier))
      <==> v == state + "." + nonce + "." + verifier && '.' !in state && '.' !in nonce && '.' !in verifier
  {
    var parts := [state, nonce, verifier];
    assert parts[1..] == [nonce, verifier] && parts[1..][1..] == [verifier];
    assert Join(parts[1..], '.') == nonce + ['.'] + verifier;
    assert Join(parts, '.') == state + ['.'] + (nonce + ['.'] + verifier);
    assert state + "." + nonce + "." + verifier == state + ['.'] + (nonce + ['.'] + verifier);
    if '.' !in state && '.' !in nonce && '.' !in verifier {
      SplitJoin(parts, '.');
    }
    if SplitAuthCookie(v) == Some((state, nonce, verifier)) {
      assert Split(v, '.') == parts;
      JoinSplit(v, '.');
    }
  }

  /** The three random values that `login` joins are recovered by `callback`. */
  lemma AuthCookieRoundTrip(state: Bytes, nonce: Bytes, verifier: Bytes)
    ensures var s, n, v := Base64.Encode(state), Base64.Encode(nonce), Base64.Encode(verifier);
      SplitAuthCookie(s + "." + n + "." + v) == Some((s, n, v))
  {
    var s, n, v := Base64.Encode(state), Base64.Encode(nonce), Base64.Encode(verifier);
    Base64.EncodeInAlphabet(state);
    Base64.EncodeInAlphabet(nonce);
    Base64.EncodeInAlphabet(verifier);
    SplitConcat(s + "." + n, v, '.');
    SplitConcat(s, n, '.');
    SplitWithoutSeparator(s, '.');
    SplitWithoutSeparator(n, '.');
    SplitWithoutSeparator(v, '.');
  }
}
