/**
 Which address a request came from (apps/api/src/auth/client-address.ts): the walk over the forwarded hops.
 */
module ClientAddress {
  import opened Wrappers
  import opened JsText
  import opened Cidr

  datatype Source = Socket | Forwarded

  datatype Resolution = Resolution(address: string, source: Source)

  predicate Trusted(proxies: seq<Range>, address: string) {
    exists i | 0 <= i < |proxies| :: Contains(proxies[i], address)
  }

  /** The non-empty hops of a header, the nearest last. */
  function NonEmpty(pieces: seq<string>): (hops: seq<string>)
    ensures forall hop | hop in hops :: hop != ""
  {
    if pieces == [] then []
    else (if Trim(pieces[0]) == "" then [] else [Trim(pieces[0])]) + NonEmpty(pieces[1..])
  }

  function Hops(header: string): seq<string> {
    NonEmpty(Split(header, ','))
  }

  function TrustedBy(proxies: seq<Range>): string -> bool {
    address => Trusted(proxies, address)
  }

  ghost predicate SomeUntrusted(trusted: string -> bool, hops: seq<string>) {
    exists i | 0 <= i < |hops| :: !trusted(hops[i])
  }

  /** The nearest hop that is not trusted. */
  function Nearest(trusted: string -> bool, hops: seq<string>): Option<string> {
    if hops == [] then None
    else if !trusted(hops[|hops| - 1]) then Some(hops[|hops| - 1])
    else Nearest(trusted, hops[..|hops| - 1])
  }

  /** It is the rightmost hop that is not trusted. */
  lemma {:induction false} NearestSpec(trusted: string -> bool, hops: seq<string>)
    ensures Nearest(trusted, hops).Some? <==> SomeUntrusted(trusted, hops)
    ensures Nearest(trusted, hops).Some? ==>
              exists i | 0 <= i < |hops| ::
                && Nearest(trusted, hops).value == hops[i] && !trusted(hops[i])
                && forall j | i < j < |hops| :: trusted(hops[j])
  {
    if hops != [] {
      var before, last := hops[..|hops| - 1], |hops| - 1;
      assert forall i | 0 <= i < |before| :: hops[i] == before[i];
      if !trusted(hops[last]) {
        assert Nearest(trusted, hops).value == hops[last];
      } else {
        NearestSpec(trusted, before);
        if Nearest(trusted, before).Some? {
          var i :| 0 <= i < |before| && Nearest(trusted, before).value == before[i] && !trusted(before[i])
                   && forall j | i < j < |before| :: trusted(before[j]);
          assert Nearest(trusted, hops).value == hops[i];
        }
      }
    }
  }

  function SocketAddress(socket: Option<string>): string {
    if socket.Some? && Trim(socket.value) != "" then Trim(socket.value) else "unknown"
  }

  /** The header counts only when the socket peer is itself a trusted proxy. */
  predicate HeaderCounts(proxies: seq<Range>, socket: Option<string>) {
    Trusted(proxies, SocketAddress(socket))
  }

  function Resolved(proxies: seq<Range>, socket: Option<string>, header: Option<string>): Resolution {
    var nearest :=
      if header.Some? && HeaderCounts(proxies, socket) then Nearest(TrustedBy(proxies), Hops(header.value)) else None;
    if nearest.Some? then Resolution(nearest.value, Forwarded) else Resolution(SocketAddress(socket), Socket)
  }

  // ----- When the header is believed -----

  /** Some range of the list contains the address. */
  ghost predicate InSome(proxies: seq<Range>, address: string) {
    exists i | 0 <= i < |proxies| :: Contains(proxies[i], address)
  }

  /** The hop nearest to the application that no range contains. */
  ghost predicate Rightmost(proxies: seq<Range>, hops: seq<string>, i: nat) {
    i < |hops| && !InSome(proxies, hops[i]) && forall j | i < j < |hops| :: InSome(proxies, hops[j])
  }

  /**
   Unless the socket's own address is in the list, which it never is in an empty one, the socket is the client
   whatever the header says. If it is, the client is the rightmost hop that is not in the list, and the socket if
   there is no such hop or no header.
   */
  lemma ResolutionLaw(proxies: seq<Range>, socket: Option<string>, header: Option<string>)
    ensures var peer := if socket.Some? && Trim(socket.value) != "" then Trim(socket.value) else "unknown";
            var hops := if header.Some? then Hops(header.value) else [];
            var client := Resolved(proxies, socket, header);
            && (!InSome(proxies, peer) ==> client == Resolution(peer, Socket))
            && (InSome(proxies, peer) ==>
                  && (forall i: nat | Rightmost(proxies, hops, i) && i < |hops| :: client == Resolution(hops[i], Forwarded))
                  && ((forall i | 0 <= i < |hops| :: InSome(proxies, hops[i])) ==> client == Resolution(peer, Socket)))
            && ((exists i: nat :: Rightmost(proxies, hops, i)) || forall i | 0 <= i < |hops| :: InSome(proxies, hops[i]))
  {
    hide Rightmost, InSome, Nearest, Hops, Trim, Trusted;
    var hops := if header.Some? then Hops(header.value) else [];
    SameAsTrusted(proxies, SocketAddress(socket));
    NearestIsRightmost(proxies, hops);
    if Nearest(TrustedBy(proxies), hops).Some? {
      var i: nat :| Rightmost(proxies, hops, i) && i < |hops| && hops[i] == Nearest(TrustedBy(proxies), hops).value;
      forall k: nat | Rightmost(proxies, hops, k) ensures k == i {
        OneRightmost(proxies, hops, i, k);
      }
    }
  }

  lemma SameAsTrusted(proxies: seq<Range>, address: string)
    ensures Trusted(proxies, address) == InSome(proxies, address)
  {
  }

  lemma NearestIsRightmost(proxies: seq<Range>, hops: seq<string>)
    ensures match Nearest(TrustedBy(proxies), hops)
            case None =>
              && (forall i | 0 <= i < |hops| :: InSome(proxies, hops[i]))
              && (forall i: nat :: !Rightmost(proxies, hops, i))
            case Some(hop) =>
              && (exists i: nat :: Rightmost(proxies, hops, i) && i < |hops| && hops[i] == hop)
              && !(forall i | 0 <= i < |hops| :: InSome(proxies, hops[i]))
  {
    hide Nearest, Contains;
    var trusted := TrustedBy(proxies);
    NearestSpec(trusted, hops);
    forall i | 0 <= i < |hops| ensures trusted(hops[i]) == InSome(proxies, hops[i]) {
      SameAsTrusted(proxies, hops[i]);
    }
    if Nearest(trusted, hops).Some? {
      var i :| 0 <= i < |hops| && Nearest(trusted, hops).value == hops[i] && !trusted(hops[i])
               && forall j | i < j < |hops| :: trusted(hops[j]);
      assert Rightmost(proxies, hops, i);
    }
  }

  lemma OneRightmost(proxies: seq<Range>, hops: seq<string>, i: nat, k: nat)
    requires Rightmost(proxies, hops, i) && Rightmost(proxies, hops, k)
    ensures i == k
  {
  }

  method WalkBack(trustedProxies: seq<Range>, hops: seq<string>) returns (nearest: Option<string>)
    ensures nearest == Nearest(TrustedBy(trustedProxies), hops)
  {
    ghost var trusted := TrustedBy(trustedProxies);
    assert hops[..|hops|] == hops;
    var index := |hops| - 1;
    while index >= 0
      invariant -1 <= index < |hops|
      invariant Nearest(trusted, hops) == Nearest(trusted, hops[..index + 1])
    {
      assert hops[..index + 1][..index] == hops[..index];
      if !Trusted(trustedProxies, hops[index]) {
        return Some(hops[index]);
      }
      index := index - 1;
    }
    return None;
  }

  method ResolveClientAddress(number: NumberReader, socketAddress: Option<string>, forwardedFor: Option<string>,
                              trustedProxyCidrs: Option<string>)
    returns (resolution: Resolution)
    ensures resolution == Resolved(Matchers(number, trustedProxyCidrs), socketAddress, forwardedFor)
  {
    var socket := SocketAddress(socketAddress);
    var trustedProxies := ParseCidrs(number, trustedProxyCidrs);
    if |trustedProxies| == 0 || !Trusted(trustedProxies, socket) {
      return Resolution(socket, Socket);
    }
    if forwardedFor == None || forwardedFor.value == "" {
      EmptyHeader();
      return Resolution(socket, Socket);
    }
    var nearest := WalkBack(trustedProxies, Hops(forwardedFor.value));
    return if nearest.Some? then Resolution(nearest.value, Forwarded) else Resolution(socket, Socket);
  }

  lemma EmptyHeader()
    ensures Hops("") == []
  {
    assert NonEmpty([""]) == [];
  }

  // ----- What a client can change by adding to the left -----

  lemma {:induction false} NonEmptyAcross(a: seq<string>, b: seq<string>)
    ensures NonEmpty(a + b) == NonEmpty(a) + NonEmpty(b)
  {
    if a == [] {
      assert a + b == b;
    } else {
      assert (a + b)[1..] == a[1..] + b;
      NonEmptyAcross(a[1..], b);
    }
  }

  lemma HopsAcross(more: string, header: string)
    ensures Hops(more + "," + header) == Hops(more) + Hops(header)
  {
    SplitAcross(more, header, ',');
    NonEmptyAcross(Split(more, ','), Split(header, ','));
  }

  lemma {:induction false} NearestAcross(trusted: string -> bool, more: seq<string>, hops: seq<string>)
    ensures Nearest(trusted, more + hops)
            == if SomeUntrusted(trusted, hops) then Nearest(trusted, hops) else Nearest(trusted, more)
  {
    if hops == [] {
      assert more + hops == more;
    } else {
      assert (more + hops)[..|more + hops| - 1] == more + hops[..|hops| - 1];
      NearestAcross(trusted, more, hops[..|hops| - 1]);
      NearestSpec(trusted, hops);
      NearestSpec(trusted, hops[..|hops| - 1]);
    }
  }

  /** With text and a comma put before a header, the result depends on them only if every hop already there is trusted. */
  lemma Prepending(proxies: seq<Range>, socket: Option<string>, more: string, header: string)
    ensures Resolved(proxies, socket, Some(more + "," + header))
            == if SomeUntrusted(TrustedBy(proxies), Hops(header)) then Resolved(proxies, socket, Some(header))
               else Resolved(proxies, socket, Some(more))
  {
    HopsAcross(more, header);
    NearestAcross(TrustedBy(proxies), Hops(more), Hops(header));
    NearestSpec(TrustedBy(proxies), Hops(header));
  }

  /** No address starts with an x, so no proxy range contains such a text. */
  lemma NotAnAddress(proxies: seq<Range>, address: string)
    requires address != "" && address[0] == 'x'
    ensures !Trusted(proxies, address)
  {
    NotDotted(address);
    NotInGroups(address, Lower(address));
  }

  lemma NotDotted(address: string)
    requires address != "" && address[0] == 'x'
    ensures Ipv4(address) == None
  {
    assert address[0] in address;
    if Ipv4(address).Some? {
      DottedCharacters(address);
    }
  }

  lemma FirstPieceStarts(text: string, separator: char)
    requires text != "" && text[0] != separator
    ensures Split(text, separator)[0] != "" && Split(text, separator)[0][0] == text[0]
  {
  }

  lemma FirstHalfStarts(text: string)
    requires text != "" && text[0] != ':'
    ensures SplitColons(text)[0] != "" && SplitColons(text)[0][0] == text[0]
  {
  }

  lemma NotInGroups(address: string, lower: string)
    requires address != "" && address[0] == 'x' && lower == Lower(address)
    ensures Ipv6(address) == None
  {
    FirstHalfStarts(lower);
    var half := SplitColons(lower)[0];
    FirstPieceStarts(half, ':');
    assert Group(Split(half, ':')[0]) == None;
    assert Expand(half) == None;
    assert MappedTail(lower) == None by {
      if |lower| >= 7 {
        assert lower[..7][0] == 'x';
      }
    }
  }

  /** A hop that no proxy range contains: it is not an address at all. */
  lemma StrangeHop(proxies: seq<Range>)
    ensures !Trusted(proxies, "x") && Hops("x") == ["x"]
  {
    NotAnAddress(proxies, "x");
    SplitOnce("x", ',');
  }

  /**
   When the header counts, no text and comma put before it can change the result exactly when one of its own
   hops is not a trusted proxy.
   */
  lemma PrependingIsHarmlessIff(proxies: seq<Range>, socket: Option<string>, header: string)
    requires HeaderCounts(proxies, socket)
    ensures (forall more: string :: Resolved(proxies, socket, Some(more + "," + header)) == Resolved(proxies, socket, Some(header)))
            <==> SomeUntrusted(TrustedBy(proxies), Hops(header))
  {
    forall more: string
      ensures SomeUntrusted(TrustedBy(proxies), Hops(header)) ==>
                Resolved(proxies, socket, Some(more + "," + header)) == Resolved(proxies, socket, Some(header))
    {
      Prepending(proxies, socket, more, header);
    }
    Prepending(proxies, socket, "x", header);
    StrangeHop(proxies);
    NearestSpec(TrustedBy(proxies), Hops(header));
    NearestSpec(TrustedBy(proxies), Hops("x"));
  }

  // ----- Text put before a header without a comma -----

  /** The hops of a header after its first piece. */
  function LaterHops(header: string): seq<string> {
    NonEmpty(Split(header, ',')[1..])
  }

  /** A piece as a hop: nothing if there is only space in it. */
  function HopOf(piece: string): seq<string> {
    if Trim(piece) == "" then [] else [Trim(piece)]
  }

  lemma HopsFromFirst(header: string)
    ensures Hops(header) == HopOf(Split(header, ',')[0]) + LaterHops(header)
  {
  }

  lemma NonEmptyJoined(a: seq<string>, piece: string, b: seq<string>)
    ensures NonEmpty(a + [piece] + b) == NonEmpty(a) + HopOf(piece) + NonEmpty(b)
  {
    NonEmptyAcross(a + [piece], b);
    NonEmptyAcross(a, [piece]);
    assert NonEmpty([piece]) == HopOf(piece);
  }

  lemma HopsGlued(more: string, header: string)
    ensures var left, right := Split(more, ','), Split(header, ',');
            Hops(more + header) == NonEmpty(left[..|left| - 1]) + HopOf(left[|left| - 1] + right[0]) + LaterHops(header)
  {
    var left, right := Split(more, ','), Split(header, ',');
    SplitGlued(more, header, ',');
    NonEmptyJoined(left[..|left| - 1], left[|left| - 1] + right[0], right[1..]);
  }

  /** An untrusted hop after the first piece decides the result, whatever is put before the header. */
  lemma LaterHopDecides(proxies: seq<Range>, socket: Option<string>, more: string, header: string)
    requires SomeUntrusted(TrustedBy(proxies), LaterHops(header))
    ensures Resolved(proxies, socket, Some(more + header)) == Resolved(proxies, socket, Some(header))
  {
    hide Nearest, SomeUntrusted;
    var left, right, trusted := Split(more, ','), Split(header, ','), TrustedBy(proxies);
    HopsGlued(more, header);
    HopsFromFirst(header);
    NearestAcross(trusted, NonEmpty(left[..|left| - 1]) + HopOf(left[|left| - 1] + right[0]), LaterHops(header));
    NearestAcross(trusted, HopOf(right[0]), LaterHops(header));
  }

  /** With none, an x put before the header becomes the start of the hop that decides. */
  lemma XDecides(proxies: seq<Range>, socket: Option<string>, header: string)
    requires HeaderCounts(proxies, socket) && !SomeUntrusted(TrustedBy(proxies), LaterHops(header))
    ensures Resolved(proxies, socket, Some("x" + header)) == Resolution(Trim("x" + Split(header, ',')[0]), Forwarded)
  {
    var first, trusted := Split(header, ',')[0], TrustedBy(proxies);
    var hop := Trim("x" + first);
    TrimPrefixed('x', first);
    NotAnAddress(proxies, hop);
    SplitOnce("x", ',');
    HopsGlued("x", header);
    assert Hops("x" + header) == [hop] + LaterHops(header);
    NearestAcross(trusted, [hop], LaterHops(header));
    assert [hop][..0] == [];
  }

  lemma FirstHopDecides(proxies: seq<Range>, socket: Option<string>, header: string)
    requires HeaderCounts(proxies, socket) && !SomeUntrusted(TrustedBy(proxies), LaterHops(header))
    ensures Resolved(proxies, socket, Some(header)).source == Forwarded ==>
              Resolved(proxies, socket, Some(header)).address == Trim(Split(header, ',')[0])
  {
    var first, trusted := Split(header, ',')[0], TrustedBy(proxies);
    HopsFromFirst(header);
    NearestAcross(trusted, HopOf(first), LaterHops(header));
    if Trim(first) != "" {
      assert [Trim(first)][..0] == [];
    }
  }

  /**
   When the header counts, no text put before it, with or without a comma, can change the result exactly when a
   hop after its first piece is not a trusted proxy.
   */
  lemma GluingIsHarmlessIff(proxies: seq<Range>, socket: Option<string>, header: string)
    requires HeaderCounts(proxies, socket)
    ensures (forall more: string :: Resolved(proxies, socket, Some(more + header)) == Resolved(proxies, socket, Some(header)))
            <==> SomeUntrusted(TrustedBy(proxies), LaterHops(header))
  {
    hide Resolved, SomeUntrusted, LaterHops, HeaderCounts, TrustedBy;
    if SomeUntrusted(TrustedBy(proxies), LaterHops(header)) {
      forall more: string ensures Resolved(proxies, socket, Some(more + header)) == Resolved(proxies, socket, Some(header)) {
        LaterHopDecides(proxies, socket, more, header);
      }
    } else {
      XDecides(proxies, socket, header);
      FirstHopDecides(proxies, socket, header);
      TrimPrefixed('x', Split(header, ',')[0]);
      var more := "x";
      assert Resolved(proxies, socket, Some(more + header)) != Resolved(proxies, socket, Some(header));
    }
  }
}
