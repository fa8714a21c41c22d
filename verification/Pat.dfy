/** The framing of personal access tokens (internal/token/token.go): `zjum_`
    and the base64url encoding of a JWT. Parsing and checking the JWT itself,
    with its signature, issuer and expiry, is a parameter. */
module Pat {
  import opened Wrappers
  import opened Bytes
  import Base64

  const PREFIX: string := "zjum_"

  /** A Go string: every character stands for one byte. */
  predicate IsText(s: string) {
    forall i :: 0 <= i < |s| ==> s[i] as int < 256
  }

  function ToBytes(s: string): Bytes
    requires IsText(s)
  {
    seq(|s|, i requires 0 <= i < |s| => s[i] as int)
  }

  function ToText(bs: Bytes): string {
    seq(|bs|, i requires 0 <= i < |bs| => bs[i] as char)
  }

  lemma TextRoundTrip(s: string)
    requires IsText(s)
    ensures ToText(ToBytes(s)) == s
  {
  }

  /** The claims of a verified JWT that the gate uses. */
  datatype Claims = Claims(subject: string, jti: string, expiresAt: int)

  /** The framing part of Issue. */
  function Wrap(jwt: string): string
    requires IsText(jwt)
  {
    PREFIX + Base64.Encode(ToBytes(jwt))
  }

  /** The framing part of Verify: the JWT text inside, if there is one. */
  function Unwrap(pat: string): Option<string> {
    var raw := if PREFIX <= pat then pat[|PREFIX|..] else pat;
    if raw == "" then None
    else if '.' in raw then Some(raw)
    else
      match Base64.Decode(raw)
      case None => None
      case Some(bs) => Some(ToText(bs))
  }

  /** `check` stands for the JWT library with the configured keys, which reads the clock (`t`) to reject
      what has expired. */
  function Verify(check: (int, string) -> Option<Claims>, t: int, pat: string): Option<Claims> {
    match Unwrap(pat)
    case None => None
    case Some(jwt) => check(t, jwt)
  }

  /** Verify unwraps this text from that one: behind the prefix, where there is one, stands the text itself
      if it holds a '.', and its encoding if not. */
  ghost predicate Holds(pat: string, raw: string, text: string) {
    && (pat == "zjum_" + raw || (pat == raw && !("zjum_" <= pat))) && raw != ""
    && if '.' in raw then text == raw else Base64.Decode(raw).Some? && text == ToText(Base64.Decode(raw).value)
  }

  lemma UnwrapIff(pat: string, text: string)
    ensures Unwrap(pat) == Some(text) <==> exists raw :: Holds(pat, raw, text)
  {
    if raw :| Holds(pat, raw, text) {
      assert pat == "zjum_" + raw ==> pat[|"zjum_"|..] == raw;
    }
    if Unwrap(pat) == Some(text) {
      var raw := if "zjum_" <= pat then pat[|"zjum_"|..] else pat;
      assert "zjum_" <= pat ==> pat == "zjum_" + raw;
      assert Holds(pat, raw, text);
    }
  }

  lemma UnwrapWrap(text: string)
    requires IsText(text) && text != ""
    ensures Unwrap(Wrap(text)) == Some(text)
  {
    var enc := Base64.Encode(ToBytes(text));
    assert Wrap(text)[|PREFIX|..] == enc;
    Base64.EncodeInAlphabet(ToBytes(text));
    Base64.EncodeLength(ToBytes(text));
    Base64.DecodeEncode(ToBytes(text));
    TextRoundTrip(text);
  }

  /** The texts whose encoding happens to start with the prefix. */
  predicate EncodesToPrefix(text: string) {
    |text| >= 4 && text[0] as int == 206 && text[1] as int == 59 && text[2] as int == 166 && text[3] as int >= 252
  }

  lemma FirstChars(bs: Bytes)
    requires |bs| >= 4
    ensures |Base64.Encode(bs)| >= 6
    ensures Base64.Encode(bs)[..5] == [
        Base64.EncodeChar(bs[0] / 4), Base64.EncodeChar(bs[0] % 4 * 16 + bs[1] / 16),
        Base64.EncodeChar(bs[1] % 16 * 4 + bs[2] / 64), Base64.EncodeChar(bs[2] % 64),
        Base64.EncodeChar(bs[3] / 4)]
  {
    var rest := bs[3..];
    assert rest[0] == bs[3];
    assert Base64.Encode(rest)[0] == Base64.EncodeChar(bs[3] / 4);
    assert |Base64.Encode(rest)| >= 2;
  }

  lemma PrefixChars()
    ensures PREFIX == [Base64.EncodeChar(51), Base64.EncodeChar(35), Base64.EncodeChar(46),
                       Base64.EncodeChar(38), Base64.EncodeChar(63)]
  {
  }

  lemma Distinct(a: Base64.Sextet, b: Base64.Sextet)
    ensures Base64.EncodeChar(a) == Base64.EncodeChar(b) <==> a == b
  {
    Base64.CharRoundTrip(a);
    Base64.CharRoundTrip(b);
  }

  lemma EncodingStartsWithPrefix(text: string)
    requires IsText(text)
    ensures PREFIX <= Base64.Encode(ToBytes(text)) <==> EncodesToPrefix(text)
  {
    var bs := ToBytes(text);
    var enc := Base64.Encode(bs);
    Base64.EncodeLength(bs);
    if |bs| >= 4 {
      FirstChars(bs);
      PrefixChars();
      var ns: seq<Base64.Sextet> := [
        bs[0] / 4, bs[0] % 4 * 16 + bs[1] / 16, bs[1] % 16 * 4 + bs[2] / 64, bs[2] % 64, bs[3] / 4];
      assert PREFIX <= enc <==> enc[..5] == PREFIX;
      Distinct(ns[0], 51);
      Distinct(ns[1], 35);
      Distinct(ns[2], 46);
      Distinct(ns[3], 38);
      Distinct(ns[4], 63);
      assert enc[..5] == PREFIX <==> enc[0] == PREFIX[0] && enc[1] == PREFIX[1] && enc[2] == PREFIX[2]
                                     && enc[3] == PREFIX[3] && enc[4] == PREFIX[4];
    }
  }

  /** Without the prefix an encoding unwraps to its text exactly when it does not itself start with the
      prefix, which is a matter of the first four bytes of the text. */
  lemma UnprefixedUnwraps(text: string)
    requires IsText(text) && text != ""
    ensures Unwrap(Base64.Encode(ToBytes(text))) == Some(text) <==> !EncodesToPrefix(text)
  {
    var bs := ToBytes(text);
    var enc := Base64.Encode(bs);
    Base64.EncodeInAlphabet(bs);
    Base64.EncodeLength(bs);
    Base64.DecodeEncode(bs);
    TextRoundTrip(text);
    EncodingStartsWithPrefix(text);
    if PREFIX <= enc {
      var raw := enc[|PREFIX|..];
      assert '.' !in raw;
      Base64.DecodeLength(raw);
      if Base64.Decode(raw).Some? {
        assert |Base64.Decode(raw).value| < |text|;
        assert |ToText(Base64.Decode(raw).value)| < |text|;
      }
    }
  }

  /** Every JWT (it starts with "eyJ" and holds a '.') is recovered from all three forms that Verify
      tolerates, so all three get the same verdict from the JWT library. */
  lemma JwtUnwraps(jwt: string, check: (int, string) -> Option<Claims>, t: int)
    requires IsText(jwt) && "eyJ" <= jwt && '.' in jwt
    ensures Unwrap(Wrap(jwt)) == Unwrap(Base64.Encode(ToBytes(jwt))) == Unwrap(jwt) == Some(jwt)
    ensures Verify(check, t, Wrap(jwt)) == Verify(check, t, Base64.Encode(ToBytes(jwt))) == Verify(check, t, jwt)
      == check(t, jwt)
  {
    assert jwt[0] == 'e';
    UnwrapWrap(jwt);
    UnprefixedUnwraps(jwt);
  }
}
