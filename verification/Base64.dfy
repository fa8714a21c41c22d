/** Unpadded base64url (section 5 of RFC 4648) as encoding/base64 decodes it:
    carriage returns and newlines are skipped, and the unused bits of a last
    short group are not checked. */
module Base64 {
  import opened Wrappers
  import opened Bytes

  type Sextet = n: int | 0 <= n < 64

  function EncodeChar(n: Sextet): char {
    if n < 26 then 'A' + n as char
    else if n < 52 then 'a' + (n - 26) as char
    else if n < 62 then '0' + (n - 52) as char
    else if n == 62 then '-' else '_'
  }

  function DecodeChar(c: char): Option<Sextet> {
    if 'A' <= c <= 'Z' then Some(c as int - 'A' as int)
    else if 'a' <= c <= 'z' then Some(c as int - 'a' as int + 26)
    else if '0' <= c <= '9' then Some(c as int - '0' as int + 52)
    else if c == '-' then Some(62)
    else if c == '_' then Some(63)
    else None
  }

  lemma CharRoundTrip(n: Sextet)
    ensures DecodeChar(EncodeChar(n)) == Some(n)
  {
  }

  function Encode(bs: Bytes): string {
    if |bs| == 0 then ""
    else if |bs| == 1 then
      [EncodeChar(bs[0] / 4), EncodeChar(bs[0] % 4 * 16)]
    else if |bs| == 2 then
      [EncodeChar(bs[0] / 4), EncodeChar(bs[0] % 4 * 16 + bs[1] / 16), EncodeChar(bs[1] % 16 * 4)]
    else
      [EncodeChar(bs[0] / 4), EncodeChar(bs[0] % 4 * 16 + bs[1] / 16),
       EncodeChar(bs[1] % 16 * 4 + bs[2] / 64), EncodeChar(bs[2] % 64)] + Encode(bs[3..])
  }

  /** The characters that DecodeString does not skip. */
  function WithoutNewlines(s: string): string {
    if s == "" then ""
    else (if s[0] == '\r' || s[0] == '\n' then "" else [s[0]]) + WithoutNewlines(s[1..])
  }

  /** The values of the characters, if all of them belong to the alphabet. */
  function Sextets(s: string): Option<seq<Sextet>> {
    if s == "" then Some([])
    else
      match (DecodeChar(s[0]), Sextets(s[1..]))
      case (Some(n), Some(rest)) => Some([n] + rest)
      case _ => None
  }

  /** The three bytes of four sextets. */
  function Three(s0: Sextet, s1: Sextet, s2: Sextet, s3: Sextet): (bs: Bytes)
    ensures |bs| == 3
  {
    [s0 as int * 4 + s1 / 16, s1 as int % 16 * 16 + s2 / 4, s2 as int % 4 * 64 + s3]
  }

  /** The bytes of groups of four sextets, and of a last group of two or three. */
  function Regroup(ns: seq<Sextet>): Option<Bytes> {
    if |ns| == 0 then Some([])
    else if |ns| == 1 then None
    else
      var s0: int, s1: int := ns[0], ns[1];
      if |ns| == 2 then Some([s0 * 4 + s1 / 16])
      else
        var s2: int := ns[2];
        if |ns| == 3 then Some([s0 * 4 + s1 / 16, s1 % 16 * 16 + s2 / 4])
        else
          match Regroup(ns[4..])
          case None => None
          case Some(rest) => Some(Three(ns[0], ns[1], ns[2], ns[3]) + rest)
  }

  function Decode(s: string): Option<Bytes> {
    match Sextets(WithoutNewlines(s))
    case None => None
    case Some(ns) => Regroup(ns)
  }

  /** The sextets that Encode writes. */
  function Split(bs: Bytes): seq<Sextet> {
    if |bs| == 0 then []
    else if |bs| == 1 then [bs[0] / 4, bs[0] % 4 * 16]
    else if |bs| == 2 then [bs[0] / 4, bs[0] % 4 * 16 + bs[1] / 16, bs[1] % 16 * 4]
    else [bs[0] / 4, bs[0] % 4 * 16 + bs[1] / 16, bs[1] % 16 * 4 + bs[2] / 64, bs[2] % 64] + Split(bs[3..])
  }

  lemma GroupRoundTrip(b0: Byte, b1: Byte, b2: Byte)
    ensures Three(b0 / 4, b0 % 4 * 16 + b1 / 16, b1 % 16 * 4 + b2 / 64, b2 % 64) == [b0, b1, b2]
  {
  }

  lemma RegroupFour(a: Sextet, b: Sextet, c: Sextet, d: Sextet, ns: seq<Sextet>)
    requires Regroup(ns).Some?
    ensures Regroup([a, b, c, d] + ns) == Some(Three(a, b, c, d) + Regroup(ns).value)
  {
    var all := [a, b, c, d] + ns;
    assert all[0] == a && all[1] == b && all[2] == c && all[3] == d && all[4..] == ns;
  }

  lemma RegroupGroup(b0: Byte, b1: Byte, b2: Byte, ns: seq<Sextet>)
    requires Regroup(ns).Some?
    ensures Regroup([b0 / 4, b0 % 4 * 16 + b1 / 16, b1 % 16 * 4 + b2 / 64, b2 % 64] + ns)
      == Some([b0, b1, b2] + Regroup(ns).value)
  {
    GroupRoundTrip(b0, b1, b2);
    RegroupFour(b0 / 4, b0 % 4 * 16 + b1 / 16, b1 % 16 * 4 + b2 / 64, b2 % 64, ns);
  }

  lemma RegroupTail(b0: Byte, b1: Byte)
    ensures Regroup([b0 / 4, b0 % 4 * 16]) == Some([b0])
    ensures Regroup([b0 / 4, b0 % 4 * 16 + b1 / 16, b1 % 16 * 4]) == Some([b0, b1])
  {
    GroupRoundTrip(b0, b1, 0);
  }

  /** One group of three bytes in front of bytes that are recovered. */
  lemma RegroupSplitGroup(b0: Byte, b1: Byte, b2: Byte, rest: Bytes)
    requires Regroup(Split(rest)) == Some(rest)
    ensures Regroup(Split([b0, b1, b2] + rest)) == Some([b0, b1, b2] + rest)
  {
    var bs := [b0, b1, b2] + rest;
    assert bs[0] == b0 && bs[1] == b1 && bs[2] == b2 && bs[3..] == rest;
    RegroupGroup(b0, b1, b2, Split(rest));
  }

  lemma {:induction false} RegroupSplit(bs: Bytes)
    ensures Regroup(Split(bs)) == Some(bs)
  {
    if |bs| == 1 {
      RegroupTail(bs[0], 0);
      assert bs == [bs[0]];
    } else if |bs| == 2 {
      RegroupTail(bs[0], bs[1]);
      assert bs == [bs[0], bs[1]];
    } else if |bs| >= 3 {
      RegroupSplit(bs[3..]);
      RegroupSplitGroup(bs[0], bs[1], bs[2], bs[3..]);
      assert [bs[0], bs[1], bs[2]] + bs[3..] == bs;
    }
  }

  function Written(ns: seq<Sextet>): string {
    if ns == [] then "" else [EncodeChar(ns[0])] + Written(ns[1..])
  }

  lemma {:induction false} WrittenConcat(left: seq<Sextet>, right: seq<Sextet>)
    ensures Written(left + right) == Written(left) + Written(right)
  {
    if left == [] {
      assert left + right == right;
    } else {
      assert (left + right)[1..] == left[1..] + right;
      WrittenConcat(left[1..], right);
    }
  }

  lemma WrittenOne(a: Sextet)
    ensures Written([a]) == [EncodeChar(a)]
  {
    assert [a][1..] == [];
  }

  lemma WrittenFour(a: Sextet, b: Sextet, c: Sextet, d: Sextet)
    ensures Written([a, b]) == [EncodeChar(a), EncodeChar(b)]
    ensures Written([a, b, c]) == [EncodeChar(a), EncodeChar(b), EncodeChar(c)]
    ensures Written([a, b, c, d]) == [EncodeChar(a), EncodeChar(b), EncodeChar(c), EncodeChar(d)]
  {
    WrittenConcat([a], [b]);
    WrittenConcat([a, b], [c]);
    WrittenConcat([a, b, c], [d]);
    WrittenOne(a);
    WrittenOne(b);
    WrittenOne(c);
    WrittenOne(d);
    assert [a] + [b] == [a, b] && [a, b] + [c] == [a, b, c] && [a, b, c] + [d] == [a, b, c, d];
  }

  lemma {:induction false} EncodeIsWritten(bs: Bytes)
    ensures Encode(bs) == Written(Split(bs))
  {
    if |bs| == 1 {
      WrittenFour(bs[0] / 4, bs[0] % 4 * 16, 0, 0);
    } else if |bs| == 2 {
      WrittenFour(bs[0] / 4, bs[0] % 4 * 16 + bs[1] / 16, bs[1] % 16 * 4, 0);
    } else if |bs| >= 3 {
      var a, b, c, d := bs[0] / 4, bs[0] % 4 * 16 + bs[1] / 16, bs[1] % 16 * 4 + bs[2] / 64, bs[2] % 64;
      WrittenFour(a, b, c, d);
      WrittenConcat([a, b, c, d], Split(bs[3..]));
      EncodeIsWritten(bs[3..]);
    }
  }

  predicate InAlphabet(s: string) {
    forall i :: 0 <= i < |s| ==> DecodeChar(s[i]).Some?
  }

  lemma {:induction false} ReadWritten(ns: seq<Sextet>)
    ensures InAlphabet(Written(ns))
    ensures WithoutNewlines(Written(ns)) == Written(ns)
    ensures Sextets(Written(ns)) == Some(ns)
  {
    if ns != [] {
      CharRoundTrip(ns[0]);
      ReadWritten(ns[1..]);
      assert Written(ns)[1..] == Written(ns[1..]);
      assert ns == [ns[0]] + ns[1..];
    }
  }

  /** Decoding undoes encoding, for all byte strings. */
  lemma DecodeEncode(bs: Bytes)
    ensures Decode(Encode(bs)) == Some(bs)
  {
    EncodeIsWritten(bs);
    ReadWritten(Split(bs));
    RegroupSplit(bs);
  }

  /** An encoding consists of characters of the alphabet; so it holds no '.', and no white space. */
  lemma EncodeInAlphabet(bs: Bytes)
    ensures InAlphabet(Encode(bs)) && '.' !in Encode(bs)
  {
    EncodeIsWritten(bs);
    ReadWritten(Split(bs));
    assert DecodeChar('.') == None;
  }

  lemma {:induction false} EncodeLength(bs: Bytes)
    ensures |Encode(bs)| == (4 * |bs| + 2) / 3
  {
    if |bs| >= 3 {
      EncodeLength(bs[3..]);
    }
  }

  lemma {:induction false} RegroupLength(ns: seq<Sextet>)
    ensures Regroup(ns).Some? ==> 4 * |Regroup(ns).value| <= 3 * |ns|
  {
    if |ns| >= 4 {
      RegroupLength(ns[4..]);
    }
  }

  lemma {:induction false} SextetsLength(s: string)
    ensures |WithoutNewlines(s)| <= |s|
    ensures Sextets(s).Some? ==> |Sextets(s).value| == |s|
  {
    if s != "" {
      SextetsLength(s[1..]);
    }
  }

  /** A text of n characters decodes to at most 3n/4 bytes. */
  lemma DecodeLength(s: string)
    ensures Decode(s).Some? ==> 4 * |Decode(s).value| <= 3 * |s|
  {
    SextetsLength(s);
    SextetsLength(WithoutNewlines(s));
    if Decode(s).Some? {
      RegroupLength(Sextets(WithoutNewlines(s)).value);
    }
  }

  // ---- the format (section 5 of RFC 4648) --------------------------------------------

  /** The alphabet: the letters, the small letters and the digits in order, '-' and '_'. */
  lemma Alphabet(n: Sextet)
    ensures EncodeChar(0) == 'A' && EncodeChar(25) == 'Z' && EncodeChar(26) == 'a' && EncodeChar(51) == 'z'
    ensures EncodeChar(52) == '0' && EncodeChar(61) == '9' && EncodeChar(62) == '-' && EncodeChar(63) == '_'
    ensures n < 61 && n != 25 && n != 51 ==> EncodeChar(n + 1) as int == EncodeChar(n) as int + 1
  {
  }

  /** Three bytes are written as the four digits to the base 64 of the number that they are to the base 256. */
  lemma GroupIsBigEndian(b0: Byte, b1: Byte, b2: Byte, rest: Bytes, s0: Sextet, s1: Sextet, s2: Sextet, s3: Sextet)
    requires ((s0 * 64 + s1) * 64 + s2) * 64 + s3 == (b0 * 256 + b1) * 256 + b2
    ensures Encode([b0, b1, b2] + rest)
      == [EncodeChar(s0), EncodeChar(s1), EncodeChar(s2), EncodeChar(s3)] + Encode(rest)
  {
    var bs := [b0, b1, b2] + rest;
    assert bs[0] == b0 && bs[1] == b1 && bs[2] == b2 && bs[3..] == rest;
    assert s0 == b0 / 4 && s1 == b0 % 4 * 16 + b1 / 16;
    assert s2 == b1 % 16 * 4 + b2 / 64 && s3 == b2 % 64;
  }

  /** One or two bytes are written as if zero bits followed, without the characters that hold none of theirs. */
  lemma TailIsBigEndian(b0: Byte, b1: Byte, s0: Sextet, s1: Sextet, s2: Sextet)
    ensures s0 * 64 + s1 == b0 * 16 ==> Encode([b0]) == [EncodeChar(s0), EncodeChar(s1)]
    ensures (s0 * 64 + s1) * 64 + s2 == (b0 * 256 + b1) * 4 ==>
      Encode([b0, b1]) == [EncodeChar(s0), EncodeChar(s1), EncodeChar(s2)]
  {
    if s0 * 64 + s1 == b0 * 16 {
      assert s0 == b0 / 4 && s1 == b0 % 4 * 16;
    }
    if (s0 * 64 + s1) * 64 + s2 == (b0 * 256 + b1) * 4 {
      assert s0 == b0 / 4 && s1 == b0 % 4 * 16 + b1 / 16 && s2 == b1 % 16 * 4;
    }
  }

  lemma {:induction false} WithoutNewlinesConcat(a: string, b: string)
    ensures WithoutNewlines(a + b) == WithoutNewlines(a) + WithoutNewlines(b)
  {
    if a == "" {
      assert a + b == b;
    } else {
      assert (a + b)[1..] == a[1..] + b;
      WithoutNewlinesConcat(a[1..], b);
    }
  }

  lemma OnlyALineBreak()
    ensures WithoutNewlines("\r") == WithoutNewlines("\n") == ""
  {
    assert "\r"[1..] == "" && "\n"[1..] == "";
  }

  /** A line break anywhere makes no difference. */
  lemma LineBreaksAreSkipped(a: string, b: string)
    ensures Decode(a + "\r" + b) == Decode(a + "\n" + b) == Decode(a + b)
  {
    WithoutNewlinesConcat(a + "\r", b);
    WithoutNewlinesConcat(a, "\r");
    WithoutNewlinesConcat(a + "\n", b);
    WithoutNewlinesConcat(a, "\n");
    WithoutNewlinesConcat(a, b);
    OnlyALineBreak();
    assert WithoutNewlines(a) + "" == WithoutNewlines(a);
  }

  lemma {:induction false} SextetsIff(s: string)
    ensures Sextets(s).Some? <==> InAlphabet(s)
  {
    if s != "" {
      SextetsIff(s[1..]);
      assert s == [s[0]] + s[1..];
    }
  }

  lemma RegroupStep(ns: seq<Sextet>)
    requires |ns| >= 4
    ensures Regroup(ns).Some? <==> Regroup(ns[4..]).Some?
  {
  }

  lemma RegroupShort(ns: seq<Sextet>)
    requires |ns| < 4
    ensures Regroup(ns).Some? <==> |ns| != 1
  {
  }

  lemma {:induction false} RegroupIff(ns: seq<Sextet>, n: nat)
    requires n == |ns|
    ensures Regroup(ns).Some? <==> n % 4 != 1
    decreases n
  {
    if n >= 4 {
      RegroupIff(ns[4..], n - 4);
      RegroupStep(ns);
      assert n % 4 == (n - 4) % 4;
    } else {
      RegroupShort(ns);
    }
  }

  lemma {:induction false} NothingToSkip(s: string)
    requires '\r' !in s && '\n' !in s
    ensures WithoutNewlines(s) == s
  {
    if s != "" {
      NothingToSkip(s[1..]);
    }
  }

  /** A text without line breaks decodes exactly when its characters are of the alphabet and no single one
      is left over. */
  lemma DecodesIff(s: string)
    requires '\r' !in s && '\n' !in s
    ensures Decode(s).Some? <==> InAlphabet(s) && |s| % 4 != 1
  {
    NothingToSkip(s);
    SextetsIff(s);
    SextetsLength(s);
    if Sextets(s).Some? {
      RegroupIff(Sextets(s).value, |s|);
    }
  }

  /** The unused bits of a short group are dropped. */
  lemma UnusedBitsAreDropped(s0: Sextet, s1: Sextet, s2: Sextet)
    ensures Regroup([s0, s1]) == Some([(s0 * 64 + s1) / 16])
    ensures Regroup([s0, s1, s2]) == Some([((s0 * 64 + s1) * 64 + s2) / 4 / 256, ((s0 * 64 + s1) * 64 + s2) / 4 % 256])
  {
  }
}
