/** Which address a request is counted under (internal/httpx/ip.go). Address
    syntax and network membership are parameters. */
module ClientIP {
  import opened Wrappers
  import opened Text

  /** `host` strips a port, `parse` reads an address, `show` prints one, and `trusted` are the
      trusted networks, each given by its membership test. */
  datatype Proxies<!IP(!new)> = Proxies(
    host: string -> string,
    parse: string -> Option<IP>,
    show: IP -> string,
    trusted: seq<IP -> bool>)
  {
    predicate Trusts(ip: IP) {
      exists i :: 0 <= i < |trusted| && trusted[i](ip)
    }

    /** The addresses in the parts of one X-Forwarded-For header, left to right. */
    function HopsOf(parts: seq<string>): seq<IP> {
      if parts == [] then []
      else
        var hops := HopsOf(parts[..|parts| - 1]);
        match parse(host(TrimSpace(parts[|parts| - 1])))
        case Some(ip) => hops + [ip]
        case None => hops
    }

    function HopsIn(header: string): seq<IP> {
      HopsOf(Split(header, ','))
    }

    /** The addresses in all X-Forwarded-For headers, in order. */
    function Hops(headers: seq<string>): seq<IP> {
      FlatMap(HopsIn, headers)
    }

    /** The header is consulted only behind a trusted direct peer. */
    predicate PeerTrusted(remote: string) {
      match parse(host(remote))
      case Some(ip) => Trusts(ip)
      case None => false
    }

    ghost predicate AllTrusted(hops: seq<IP>) {
      forall i :: 0 <= i < |hops| ==> Trusts(hops[i])
    }

    ghost predicate RightmostUntrusted(hops: seq<IP>, r: string) {
      exists i :: 0 <= i < |hops| && !Trusts(hops[i]) && r == show(hops[i]) && AllTrusted(hops[i + 1..])
    }

    /** `r` is the rightmost untrusted hop, or the leftmost hop when all are trusted, or the peer. */
    ghost predicate IsClient(remote: string, headers: seq<string>, r: string) {
      var hops := Hops(headers);
      if !PeerTrusted(remote) || hops == [] then r == host(remote)
      else if AllTrusted(hops) then r == show(hops[0])
      else RightmostUntrusted(hops, r)
    }

    method IsTrusted(ip: IP) returns (yes: bool)
      ensures yes == Trusts(ip)
    {
      for n := 0 to |trusted|
        invariant forall i :: 0 <= i < n ==> !trusted[i](ip)
      {
        if trusted[n](ip) {
          return true;
        }
      }
      return false;
    }

    /** The inner loop over the parts of one header. */
    method Parsed(parts: seq<string>) returns (hops: seq<IP>)
      ensures hops == HopsOf(parts)
    {
      hops := [];
      for p := 0 to |parts|
        invariant hops == HopsOf(parts[..p])
      {
        assert parts[..p + 1][..p] == parts[..p];
        match parse(host(TrimSpace(parts[p])))
        case Some(ip) => hops := hops + [ip];
        case None =>
      }
      assert parts[..|parts|] == parts;
    }

    method Client(remote: string, headers: seq<string>) returns (r: string)
      ensures IsClient(remote, headers, r)
    {
      var peer := host(remote);
      var peerIP := parse(peer);
      if peerIP.None? {
        return peer;
      }
      var known := IsTrusted(peerIP.value);
      if !known {
        return peer;
      }
      var hops: seq<IP> := [];
      for h := 0 to |headers|
        invariant hops == Hops(headers[..h])
      {
        var found := Parsed(Split(headers[h], ','));
        assert headers[..h + 1][..h] == headers[..h];
        hops := hops + found;
      }
      assert headers[..|headers|] == headers;
      var i := |hops| - 1;
      while i >= 0
        invariant -1 <= i < |hops|
        invariant forall j :: i < j < |hops| ==> Trusts(hops[j])
      {
        var proxy := IsTrusted(hops[i]);
        if !proxy {
          assert AllTrusted(hops[i + 1..]);
          return show(hops[i]);
        }
        i := i - 1;
      }
      if |hops| > 0 {
        return show(hops[0]);
      }
      return peer;
    }

    lemma {:induction false} PartsConcat(left: seq<string>, right: seq<string>)
      ensures HopsOf(left + right) == HopsOf(left) + HopsOf(right)
    {
      if right == [] {
        assert left + right == left;
      } else {
        assert (left + right)[..|left + right| - 1] == left + right[..|right| - 1];
        PartsConcat(left, right[..|right| - 1]);
      }
    }

    lemma HopsFirst(header: string, headers: seq<string>)
      ensures Hops([header] + headers) == HopsIn(header) + Hops(headers)
    {
      FlatMapMiddle(HopsIn, [], header, headers);
      assert [] + [header] + headers == [header] + headers;
    }

    lemma HopsInPrefixed(entries: string, header: string)
      ensures HopsIn(entries + "," + header) == HopsIn(entries) + HopsIn(header)
    {
      SplitConcat(entries, header, ',');
      PartsConcat(Split(entries, ','), Split(header, ','));
    }

    lemma OneHop(part: string)
      ensures HopsOf([part]) == match parse(host(TrimSpace(part))) case Some(ip) => [ip] case None => []
    {
      assert [part][..0] == [];
      assert HopsOf([part][..0]) == [];
    }

    /** One entry of a header: what is left without the white space around it is the address, if it is one. */
    lemma HeaderEntry(left: string, core: string, right: string)
      requires Blank(left) && Tight(core) && Blank(right) && ',' !in left + core + right
      ensures HopsIn(left + core + right)
        == match parse(host(core)) case Some(ip) => [ip] case None => []
    {
      SplitWithoutSeparator(left + core + right, ',');
      TrimSpaceOf(left, core, right);
      OneHop(left + core + right);
    }

    /** A peer is trusted if its address is in some trusted network. */
    lemma PeerTrustedIff(remote: string)
      ensures PeerTrusted(remote)
        <==> exists n :: 0 <= n < |trusted| && parse(host(remote)).Some? && trusted[n](parse(host(remote)).value)
    {
    }

    lemma LeftEntriesComeFirst(spoofed: seq<string>, entries: string, header: string, headers: seq<string>)
      ensures Hops(spoofed + [entries + "," + header] + headers)
        == Hops(spoofed) + HopsIn(entries) + Hops([header] + headers)
    {
      FlatMapMiddle(HopsIn, spoofed, entries + "," + header, headers);
      HopsInPrefixed(entries, header);
      HopsFirst(header, headers);
    }

    lemma UntrustedAfter(hops: seq<IP>, i: int, w: int)
      requires 0 <= i < |hops| && 0 <= w < |hops| && !Trusts(hops[w])
      ensures i < w ==> !AllTrusted(hops[i + 1..])
    {
      if i < w {
        assert hops[i + 1..][w - i - 1] == hops[w];
      }
    }

    lemma RightmostInRight(left: seq<IP>, right: seq<IP>, r: string)
      requires !AllTrusted(right)
      ensures !AllTrusted(left + right)
      ensures RightmostUntrusted(left + right, r) <==> RightmostUntrusted(right, r)
    {
      var all := left + right;
      var w :| 0 <= w < |right| && !Trusts(right[w]);
      assert all[|left| + w] == right[w];
      if i :| 0 <= i < |all| && !Trusts(all[i]) && r == show(all[i]) && AllTrusted(all[i + 1..]) {
        UntrustedAfter(all, i, |left| + w);
        assert all[i] == right[i - |left|] && all[i + 1..] == right[i - |left| + 1..];
      }
      if i :| 0 <= i < |right| && !Trusts(right[i]) && r == show(right[i]) && AllTrusted(right[i + 1..]) {
        assert all[|left| + i] == right[i] && all[|left| + i + 1..] == right[i + 1..];
      }
    }

    /** There is only one such answer. */
    lemma ClientIsDetermined(remote: string, headers: seq<string>, r: string, r': string)
      requires IsClient(remote, headers, r) && IsClient(remote, headers, r')
      ensures r == r'
    {
      var hops := Hops(headers);
      if RightmostUntrusted(hops, r) && RightmostUntrusted(hops, r') {
        var i :| 0 <= i < |hops| && !Trusts(hops[i]) && r == show(hops[i]) && AllTrusted(hops[i + 1..]);
        var k :| 0 <= k < |hops| && !Trusts(hops[k]) && r' == show(hops[k]) && AllTrusted(hops[k + 1..]);
        UntrustedAfter(hops, i, k);
        UntrustedAfter(hops, k, i);
      }
    }

    /** The answer behind a trusted peer, by the hops: the last one that is not trusted, the first one if all
        are, and the peer if there are none. */
    lemma ClientOfHops(remote: string, headers: seq<string>, left: seq<IP>, hop: IP, right: seq<IP>, r: string)
      requires PeerTrusted(remote)
      ensures Hops(headers) == left + [hop] + right && !Trusts(hop) && AllTrusted(right) ==>
        (IsClient(remote, headers, r) <==> r == show(hop))
      ensures Hops(headers) == [hop] + right && Trusts(hop) && AllTrusted(right) ==>
        (IsClient(remote, headers, r) <==> r == show(hop))
      ensures Hops(headers) == [] ==> (IsClient(remote, headers, r) <==> r == host(remote))
    {
      var hops := Hops(headers);
      if hops == left + [hop] + right && !Trusts(hop) && AllTrusted(right) {
        assert hops[|left|] == hop && hops[|left| + 1..] == right;
        assert RightmostUntrusted(hops, show(hop));
        if IsClient(remote, headers, r) {
          ClientIsDetermined(remote, headers, r, show(hop));
        }
      }
    }

    /** Whatever further headers stand before one with an address that an untrusted hop left, the answer
        is the same. */
    lemma LeftHeadersDoNotMatter(remote: string, spoofed: seq<string>, headers: seq<string>, r: string)
      requires !AllTrusted(Hops(headers))
      ensures IsClient(remote, spoofed + headers, r) <==> IsClient(remote, headers, r)
    {
      FlatMapConcat(HopsIn, spoofed, headers);
      RightmostInRight(Hops(spoofed), Hops(headers), r);
    }

    /** And so it is for further entries in the first of those headers, behind further headers. */
    lemma LeftEntriesDoNotMatter(remote: string, spoofed: seq<string>, entries: string,
                                 header: string, headers: seq<string>, r: string)
      requires !AllTrusted(Hops([header] + headers))
      ensures IsClient(remote, spoofed + [entries + "," + header] + headers, r)
        <==> IsClient(remote, [header] + headers, r)
    {
      LeftEntriesComeFirst(spoofed, entries, header, headers);
      RightmostInRight(Hops(spoofed) + HopsIn(entries), Hops([header] + headers), r);
    }

    /** Without a trusted peer no header matters. */
    lemma UntrustedPeerIsClient(remote: string, headers: seq<string>, r: string)
      requires !PeerTrusted(remote)
      ensures IsClient(remote, headers, r) <==> r == host(remote)
    {
    }

    /** What a client can make of its headers: it stands in front of what the hops behind it add. */
    ghost predicate Spoofs(remote: string, spoofed: seq<string>, headers: seq<string>) {
      || !PeerTrusted(remote)
      || (!AllTrusted(Hops(headers)) && exists added :: spoofed == added + headers)
      || (!AllTrusted(Hops(headers)) && headers != []
          && exists added, entries: string :: spoofed == added + [entries + "," + headers[0]] + headers[1..])
    }

    lemma SpoofingChangesNothing(remote: string, spoofed: seq<string>, headers: seq<string>, r: string)
      requires Spoofs(remote, spoofed, headers)
      ensures IsClient(remote, spoofed, r) <==> IsClient(remote, headers, r)
    {
      if PeerTrusted(remote) {
        if added :| spoofed == added + headers {
          LeftHeadersDoNotMatter(remote, added, headers, r);
        } else {
          var added, entries: string :| spoofed == added + [entries + "," + headers[0]] + headers[1..];
          assert [headers[0]] + headers[1..] == headers;
          LeftEntriesDoNotMatter(remote, added, entries, headers[0], headers[1..], r);
        }
      }
    }
  }
}
