/** UDP over a stream: `packUDPFrame` and `readUDPFrame`, the daemon's loop over them, and the two
    copy loops of `socksUDPAssociate` that put on and take off the header of section 7 of
    RFC 1928. */
module UdpFraming {
  import opened Optional

  type Byte = b: int | 0 <= b < 256
  type Bytes = seq<Byte>

  /** A `net.UDPAddr`: the address is whatever slice is there, the port whatever int. */
  datatype Addr = Addr(ip: Bytes, port: int)
  datatype Datagram = Datagram(addr: Addr, data: Bytes)

  /** The local resolver, for the domain form. */
  type Resolver = (Bytes, int) -> Option<Addr>

  function Be16(n: int): (b: Bytes)
    ensures |b| == 2
  {
    [(n / 256) % 256, n % 256]
  }

  function Be16At(b: Bytes, i: nat): (n: nat)
    requires i + 2 <= |b|
    ensures n < 65536
  {
    var high: int := b[i];
    high * 256 + b[i + 1]
  }

  lemma Be16Back(n: int)
    ensures Be16At(Be16(n), 0) == n % 65536
  {
  }

  // ----- writing -----

  const MAPPED_PREFIX: Bytes := [0, 0, 0, 0, 0, 0, 0, 0, 0, 0, 255, 255]

  /** `IP.To4`, which is nil for anything else. */
  function To4(ip: Bytes): Option<Bytes> {
    if |ip| == 4 then Some(ip)
    else if |ip| == 16 && MAPPED_PREFIX <= ip then Some(ip[12..])
    else None
  }

  /** What an address is on the wire: four bytes whenever it can be four bytes. */
  function Normal(d: Datagram): Datagram {
    match To4(d.addr.ip)
    case Some(v4) => d.(addr := d.addr.(ip := v4))
    case None => d
  }

  function AddrBytes(a: Addr): Bytes {
    match To4(a.ip)
    case Some(v4) => [1] + v4 + Be16(a.port)
    case None => [4] + (if |a.ip| == 16 then a.ip else []) + Be16(a.port)
  }

  function Body(d: Datagram): Bytes {
    AddrBytes(d.addr) + d.data
  }

  /** `packUDPFrame`; the length is cut to 16 bits. */
  function Pack(d: Datagram): Bytes {
    Be16(|Body(d)|) + Body(d)
  }

  // ----- reading -----

  function DecodeBody(payload: Bytes, resolve: Resolver): Option<Datagram> {
    if |payload| < 7 then None
    else if payload[0] == 1 then
      Some(Datagram(Addr(payload[1..5], Be16At(payload, 5)), payload[7..]))
    else if payload[0] == 4 then
      if |payload| < 19 then None
      else Some(Datagram(Addr(payload[1..17], Be16At(payload, 17)), payload[19..]))
    else if payload[0] == 3 then
      var n: nat := payload[1];
      if |payload| < n + 4 then None
      else if n == 0 then Some(Datagram(Addr([], Be16At(payload, 2)), payload[4..]))
      else
        match resolve(payload[2..n + 2], Be16At(payload, n + 2))
        case Some(a) => Some(Datagram(a, payload[n + 4..]))
        case None => None
    else None
  }

  /** The next length-prefixed chunk, and what is left; nothing when the stream ends first. */
  function Chunk(stream: Bytes): (c: Option<(Bytes, Bytes)>)
    ensures c.Some? ==> |c.value.1| < |stream|
  {
    if |stream| < 2 then None
    else
      var n := Be16At(stream, 0);
      if |stream| < n + 2 then None else Some((stream[2..n + 2], stream[n + 2..]))
  }

  function ParseFrame(stream: Bytes, resolve: Resolver): Option<(Datagram, Bytes)> {
    match Chunk(stream)
    case None => None
    case Some(c) =>
      match DecodeBody(c.0, resolve)
      case None => None
      case Some(d) => Some((d, c.1))
  }

  /** The datagrams the daemon's loop sends before it gives up. */
  function ParseAll(stream: Bytes, resolve: Resolver): seq<Datagram>
    decreases |stream|
  {
    match Chunk(stream)
    case None => []
    case Some(c) =>
      match DecodeBody(c.0, resolve)
      case None => []
      case Some(d) => [d] + ParseAll(c.1, resolve)
  }

  /** A buffered reader over a stream that ends after `rest`. */
  class Reader {
    var rest: Bytes

    constructor (stream: Bytes)
      ensures rest == stream
    {
      rest := stream;
    }

    /** `io.ReadFull` */
    method ReadFull(n: nat) returns (ok: bool, bytes: Bytes)
      modifies this
      ensures ok <==> n <= |old(rest)|
      ensures ok ==> bytes == old(rest)[..n] && rest == old(rest)[n..]
      ensures !ok ==> rest == []
    {
      ok, bytes := n <= |rest|, [];
      if ok {
        bytes, rest := rest[..n], rest[n..];
      } else {
        rest := [];
      }
    }

    /** `readUDPFrame`; None is any of its errors. */
    method ReadUDPFrame(resolve: Resolver) returns (frame: Option<Datagram>)
      modifies this
      ensures var want := ParseFrame(old(rest), resolve);
        && (frame.Some? <==> want.Some?)
        && (want.Some? ==> frame == Some(want.value.0) && rest == want.value.1)
    {
      ghost var stream := rest;
      var ok, lb := ReadFull(2);
      if !ok {
        return None;
      }
      var l := Be16At(lb, 0);
      assert lb[0] == stream[0] && lb[1] == stream[1];
      if l < 7 {
        return None;
      }
      var payload;
      ok, payload := ReadFull(l);
      if !ok {
        return None;
      }
      assert payload == stream[2..l + 2] && rest == stream[l + 2..];
      var ip, host, idx := [], [], 1;
      match payload[0] {
        case 1 =>
          if l < 1 + 4 + 2 {
            return None;
          }
          ip, idx := payload[1..5], 5;
        case 4 =>
          if l < 1 + 16 + 2 {
            return None;
          }
          ip, idx := payload[1..17], 17;
        case 3 =>
          var dl: nat := payload[1];
          if l < 2 + dl + 2 {
            return None;
          }
          host, idx := payload[2..2 + dl], 2 + dl;
        case _ =>
          return None;
      }
      var port := Be16At(payload, idx);
      var data := payload[idx + 2..];
      if host != [] {
        match resolve(host, port) {
          case None => return None;
          case Some(ua) => return Some(Datagram(ua, data));
        }
      }
      return Some(Datagram(Addr(ip, port), data));
    }

    /** The daemon's half of a relay: every frame out to its target, until the first error. */
    method RelayOut(resolve: Resolver) returns (sent: seq<Datagram>)
      modifies this
      ensures sent == ParseAll(old(rest), resolve)
    {
      sent := [];
      while true
        invariant sent + ParseAll(rest, resolve) == ParseAll(old(rest), resolve)
        decreases |rest|
      {
        ghost var before, out := rest, sent;
        var frame := ReadUDPFrame(resolve);
        if frame.None? {
          assert ParseAll(before, resolve) == [];
          return;
        }
        sent := sent + [frame.value];
        assert out + ParseAll(before, resolve) == sent + ParseAll(rest, resolve);
      }
    }

    /** The client's half: every chunk to the application with three zero bytes before it. */
    method RelayBack() returns (packets: seq<Bytes>)
      modifies this
      ensures packets == Unwrapped(old(rest))
    {
      packets := [];
      while true
        invariant packets + Unwrapped(rest) == Unwrapped(old(rest))
        decreases |rest|
      {
        ghost var before, out := rest, packets;
        var ok, lb := ReadFull(2);
        if !ok {
          return;
        }
        var l := Be16At(lb, 0);
        assert lb[0] == before[0] && lb[1] == before[1];
        var payload;
        ok, payload := ReadFull(l);
        if !ok {
          return;
        }
        packets := packets + [[0, 0, 0] + payload];
        assert payload == before[2..l + 2] && rest == before[l + 2..];
        assert Chunk(before) == Some((payload, rest));
        assert out + Unwrapped(before) == packets + Unwrapped(rest);
      }
    }
  }

  function Unwrapped(stream: Bytes): seq<Bytes>
    decreases |stream|
  {
    match Chunk(stream)
    case None => []
    case Some(c) => [[0, 0, 0] + c.0] + Unwrapped(c.1)
  }

  // ----- one frame -----

  /** A real address and port, and a length that 16 bits can hold. */
  predicate Fits(d: Datagram) {
    && (|d.addr.ip| == 4 || |d.addr.ip| == 16)
    && 0 <= d.addr.port < 65536
    && |Body(d)| < 65536
  }

  lemma ChunkOfPrefixed(payload: Bytes, tail: Bytes)
    requires |payload| < 65536
    ensures Chunk(Be16(|payload|) + payload + tail) == Some((payload, tail))
  {
    var stream := Be16(|payload|) + payload + tail;
    Be16Back(|payload|);
    assert stream[0] == Be16(|payload|)[0] && stream[1] == Be16(|payload|)[1];
    assert stream[2..|payload| + 2] == payload && stream[|payload| + 2..] == tail;
  }

  /** What decoding gives for a body, or for any part of one that holds its address. */
  lemma DecodeCut(d: Datagram, n: nat, resolve: Resolver)
    requires |d.addr.ip| == 4 || |d.addr.ip| == 16
    requires |AddrBytes(d.addr)| <= n <= |Body(d)|
    ensures DecodeBody(Body(d)[..n], resolve)
         == Some(Datagram(Addr(Normal(d).addr.ip, d.addr.port % 65536), d.data[..n - |AddrBytes(d.addr)|]))
  {
    var payload, head := Body(d)[..n], AddrBytes(d.addr);
    var ip := Normal(d).addr.ip;
    assert payload == head + d.data[..n - |head|];
    assert head == [if |ip| == 4 then 1 else 4] + ip + Be16(d.addr.port);
    Slices(if |ip| == 4 then 1 else 4, ip, Be16(d.addr.port), d.data[..n - |head|]);
    Be16Back(d.addr.port);
  }

  lemma Slices(atyp: Byte, ip: Bytes, port: Bytes, data: Bytes)
    requires |port| == 2
    ensures var payload, k := [atyp] + ip + port + data, |ip|;
      && payload[0] == atyp && payload[1..k + 1] == ip
      && payload[k + 1] == port[0] && payload[k + 2] == port[1] && payload[k + 3..] == data
  {
  }

  lemma DecodeWhole(d: Datagram, resolve: Resolver)
    requires Fits(d)
    ensures DecodeBody(Body(d), resolve) == Some(Normal(d))
  {
    DecodeCut(d, |Body(d)|, resolve);
    assert Body(d)[..|Body(d)|] == Body(d);
    assert d.data[..|d.data|] == d.data;
  }

  /** A frame reads back as its datagram, with the address in normal form, exactly when the datagram
      fits; the next frame starts right behind it. */
  lemma FrameRoundTripIff(d: Datagram, tail: Bytes, resolve: Resolver)
    ensures ParseFrame(Pack(d) + tail, resolve) == Some((Normal(d), tail)) <==> Fits(d)
  {
    if Fits(d) {
      ChunkOfPrefixed(Body(d), tail);
      DecodeWhole(d, resolve);
    } else {
      MisfitChanges(d, tail, resolve);
    }
  }

  lemma MisfitChanges(d: Datagram, tail: Bytes, resolve: Resolver)
    requires !Fits(d)
    ensures ParseFrame(Pack(d) + tail, resolve) != Some((Normal(d), tail))
  {
    var stream := Pack(d) + tail;
    var n := |Body(d)| % 65536;
    Be16Back(|Body(d)|);
    assert stream[0] == Be16(|Body(d)|)[0] && stream[1] == Be16(|Body(d)|)[1];
    assert Be16At(stream, 0) == n;
    if |stream| >= n + 2 && n >= 7 {
      MisfitPayload(d, stream[2..n + 2], tail, resolve);
    }
  }

  lemma MisfitPayload(d: Datagram, payload: Bytes, tail: Bytes, resolve: Resolver)
    requires !Fits(d) && 7 <= |payload| == |Body(d)| % 65536
    requires payload <= Body(d) + tail
    ensures DecodeBody(payload, resolve) != Some(Normal(d))
  {
    var k := |d.addr.ip|;
    assert payload[0] == (Body(d) + tail)[0] == AddrBytes(d.addr)[0];
    if k != 4 && k != 16 {
      assert payload[0] == 4;
    } else if |payload| >= |AddrBytes(d.addr)| {
      assert payload == Body(d)[..|payload|];
      DecodeCut(d, |payload|, resolve);
    }
  }

  // ----- many frames -----

  function Frames(ds: seq<Datagram>): Bytes {
    if ds == [] then [] else Pack(ds[0]) + Frames(ds[1..])
  }

  function Normals(ds: seq<Datagram>): seq<Datagram> {
    seq(|ds|, i requires 0 <= i < |ds| => Normal(ds[i]))
  }

  predicate AllFit(ds: seq<Datagram>) {
    forall i | 0 <= i < |ds| :: Fits(ds[i])
  }

  /** The first datagram read from a frame that does not fit, if there is one, is not the one framed. */
  lemma MisfitFirst(d: Datagram, more: Bytes, resolve: Resolver)
    requires !Fits(d)
    ensures var all := ParseAll(Pack(d) + more, resolve); all == [] || all[0] != Normal(d)
  {
    var stream := Pack(d) + more;
    var n := |Body(d)| % 65536;
    Be16Back(|Body(d)|);
    assert stream[0] == Be16(|Body(d)|)[0] && stream[1] == Be16(|Body(d)|)[1];
    assert Be16At(stream, 0) == n;
    if |stream| >= n + 2 && n >= 7 {
      MisfitPayload(d, stream[2..n + 2], more, resolve);
    }
  }

  /** The target sees the datagrams that were framed, in order, and then whatever follows, exactly when
      all of them fit. */
  lemma {:induction false} FramesRoundTripIff(ds: seq<Datagram>, tail: Bytes, resolve: Resolver)
    ensures ParseAll(Frames(ds) + tail, resolve) == Normals(ds) + ParseAll(tail, resolve) <==> AllFit(ds)
  {
    if AllFit(ds) {
      FramesRoundTrip(ds, tail, resolve);
    } else {
      var d, more := ds[0], Frames(ds[1..]) + tail;
      FirstFrame(ds, tail);
      FirstNormal(ds, ParseAll(tail, resolve));
      if Fits(d) {
        ParseFirst(d, more, resolve);
        FramesRoundTripIff(ds[1..], tail, resolve);
        SameRest(Normal(d), ParseAll(more, resolve), Normals(ds[1..]) + ParseAll(tail, resolve));
      } else {
        MisfitFirst(d, more, resolve);
      }
    }
  }

  lemma SameRest(d: Datagram, a: seq<Datagram>, b: seq<Datagram>)
    ensures [d] + a == [d] + b <==> a == b
  {
    assert ([d] + a)[1..] == a && ([d] + b)[1..] == b;
  }

  lemma {:induction false} FramesRoundTrip(ds: seq<Datagram>, tail: Bytes, resolve: Resolver)
    requires AllFit(ds)
    ensures ParseAll(Frames(ds) + tail, resolve) == Normals(ds) + ParseAll(tail, resolve)
  {
    if ds == [] {
      assert Frames(ds) + tail == tail;
    } else {
      FirstFrame(ds, tail);
      ParseFirst(ds[0], Frames(ds[1..]) + tail, resolve);
      FramesRoundTrip(ds[1..], tail, resolve);
      FirstNormal(ds, ParseAll(tail, resolve));
    }
  }

  lemma FirstFrame(ds: seq<Datagram>, tail: Bytes)
    requires ds != []
    ensures Frames(ds) + tail == Pack(ds[0]) + (Frames(ds[1..]) + tail)
  {
  }

  lemma FirstNormal(ds: seq<Datagram>, rest: seq<Datagram>)
    requires ds != []
    ensures Normals(ds) + rest == [Normal(ds[0])] + (Normals(ds[1..]) + rest)
  {
  }

  lemma ParseFirst(d: Datagram, more: Bytes, resolve: Resolver)
    requires Fits(d)
    ensures ParseAll(Pack(d) + more, resolve) == [Normal(d)] + ParseAll(more, resolve)
  {
    ChunkOfPrefixed(Body(d), more);
    DecodeWhole(d, resolve);
  }

  /** A datagram as section 7 of RFC 1928 has it, unfragmented. */
  function SocksPacket(d: Datagram): Bytes {
    [0, 0, 0] + Body(d)
  }

  function SocksPackets(ds: seq<Datagram>): seq<Bytes> {
    seq(|ds|, i requires 0 <= i < |ds| => SocksPacket(ds[i]))
  }

  /** The application gets each reply as the SOCKS packet of its sender and bytes. */
  lemma {:induction false} RepliesArrive(ds: seq<Datagram>)
    requires AllFit(ds)
    ensures Unwrapped(Frames(ds)) == SocksPackets(ds)
  {
    if ds != [] {
      UnwrapFirst(ds[0], Frames(ds[1..]));
      RepliesArrive(ds[1..]);
      FirstPacket(ds);
    }
  }

  lemma UnwrapFirst(d: Datagram, more: Bytes)
    requires Fits(d)
    ensures Unwrapped(Pack(d) + more) == [SocksPacket(d)] + Unwrapped(more)
  {
    ChunkOfPrefixed(Body(d), more);
  }

  lemma FirstPacket(ds: seq<Datagram>)
    requires ds != []
    ensures SocksPackets(ds) == [SocksPacket(ds[0])] + SocksPackets(ds[1..])
  {
  }

  // ----- from the application to the target -----

  predicate Skipped(packet: Bytes) {
    |packet| < 5 || packet[2] != 0
  }

  function Wrapped(packets: seq<Bytes>): Bytes {
    if packets == [] then []
    else
      var front, p := Wrapped(packets[..|packets| - 1]), packets[|packets| - 1];
      if Skipped(p) then front else front + Be16(|p| - 3) + p[3..]
  }

  /** The application's half: one frame for each packet that is not skipped. The socket's buffer
      holds 65535 bytes. */
  method WrapPackets(packets: seq<Bytes>) returns (stream: Bytes)
    ensures stream == Wrapped(packets)
  {
    stream := [];
    for i := 0 to |packets|
      invariant stream == Wrapped(packets[..i])
    {
      assert packets[..i + 1][..i] == packets[..i];
      var buf, n := packets[i], |packets[i]|;
      if n < 5 || buf[2] != 0 {
        continue;
      }
      var payload := buf[3..n];
      stream := stream + Be16(|payload|) + payload;
    }
    assert packets[..|packets|] == packets;
  }

  /** What reaches the targets, told without frames: packets that are skipped are lost, and a packet
      whose address cannot be read ends the relay. */
  function Delivered(packets: seq<Bytes>, resolve: Resolver): seq<Datagram> {
    if packets == [] then []
    else if Skipped(packets[0]) then Delivered(packets[1..], resolve)
    else
      match DecodeBody(packets[0][3..], resolve)
      case None => []
      case Some(d) => [d] + Delivered(packets[1..], resolve)
  }

  predicate FitBuffer(packets: seq<Bytes>) {
    forall i | 0 <= i < |packets| :: |packets[i]| <= 65535
  }

  lemma {:induction false} WrappedFirst(packets: seq<Bytes>)
    requires packets != []
    ensures Wrapped(packets) ==
      (if Skipped(packets[0]) then [] else Be16(|packets[0]| - 3) + packets[0][3..]) + Wrapped(packets[1..])
  {
    var n := |packets|;
    if n > 1 {
      WrappedFirst(packets[..n - 1]);
      assert packets[..n - 1][1..] == packets[1..][..n - 2];
      assert packets[1..][n - 2] == packets[n - 1];
    }
  }

  /** The relay as a whole: frames written by the client and read by the daemon deliver exactly
      that, whatever the packets hold. */
  lemma {:induction false} RelayDelivers(packets: seq<Bytes>, resolve: Resolver)
    requires FitBuffer(packets)
    ensures ParseAll(Wrapped(packets), resolve) == Delivered(packets, resolve)
  {
    if packets != [] {
      var p, rest := packets[0], packets[1..];
      WrappedFirst(packets);
      RelayDelivers(rest, resolve);
      if Skipped(p) {
        assert [] + Wrapped(rest) == Wrapped(rest);
      } else {
        ChunkOfPrefixed(p[3..], Wrapped(rest));
      }
    }
  }

  /** Well-formed packets arrive, all of them and in order. */
  lemma {:induction false} RequestsArrive(ds: seq<Datagram>, resolve: Resolver)
    requires AllFit(ds)
    ensures Delivered(SocksPackets(ds), resolve) == Normals(ds)
  {
    if ds != [] {
      var d, more := ds[0], ds[1..];
      assert Fits(d) && AllFit(more);
      RequestsArrive(more, resolve);
      FirstPacket(ds);
      DeliverFirst(d, SocksPackets(more), resolve);
      FirstOfNormals(ds);
    }
  }

  lemma FirstOfNormals(ds: seq<Datagram>)
    requires ds != []
    ensures Normals(ds) == [Normal(ds[0])] + Normals(ds[1..])
  {
  }

  lemma DeliverFirst(d: Datagram, more: seq<Bytes>, resolve: Resolver)
    requires Fits(d)
    ensures Delivered([SocksPacket(d)] + more, resolve) == [Normal(d)] + Delivered(more, resolve)
  {
    DecodeWhole(d, resolve);
    assert SocksPacket(d)[3..] == Body(d);
    assert ([SocksPacket(d)] + more)[1..] == more;
  }

  /** A packet without a complete header, and one that is a fragment, is lost, and nothing else is. */
  lemma SkippedIsLost(p: Bytes, packets: seq<Bytes>, resolve: Resolver)
    requires |p| < 5 || p[2] != 0
    ensures Delivered([p] + packets, resolve) == Delivered(packets, resolve)
  {
    assert ([p] + packets)[1..] == packets;
  }

  /** One packet that is too short for an address, but not short enough to be skipped, silences
      everything after it. */
  lemma ShortPacketEndsRelay(p: Bytes, packets: seq<Bytes>, resolve: Resolver)
    requires 5 <= |p| < 10 && p[2] == 0
    ensures Delivered([p] + packets, resolve) == []
  {
  }

  // ----- the bytes themselves -----

  /** The kind of an address, the address, a port in two bytes, high byte first, and the data. */
  ghost predicate Spells(payload: Bytes, kind: Bytes, ip: Bytes, port: int, data: Bytes) {
    0 <= port < 65536 && payload == kind + ip + [port / 256, port % 256] + data
  }

  ghost predicate SpellsAddress(payload: Bytes, a: Addr, data: Bytes) {
    || (|a.ip| == 4 && Spells(payload, [1], a.ip, a.port, data))
    || (|a.ip| == 16 && Spells(payload, [4], a.ip, a.port, data))
  }

  /** A name behind its length; no name stands for no address. */
  ghost predicate SpellsName(payload: Bytes, host: Bytes, port: int, a: Addr, data: Bytes, resolve: Resolver) {
    && |host| < 256 && |payload| >= 7 && Spells(payload, [3, |host|], host, port, data)
    && if host == [] then a == Addr([], port) else resolve(host, port) == Some(a)
  }

  /** A frame's contents read as a datagram exactly when they spell its address and its data, or a
      name that resolves to its address and its data. */
  lemma DecodeIff(payload: Bytes, d: Datagram, resolve: Resolver)
    ensures DecodeBody(payload, resolve) == Some(d) <==>
      || SpellsAddress(payload, d.addr, d.data)
      || exists host, port :: SpellsName(payload, host, port, d.addr, d.data, resolve)
  {
    if DecodeBody(payload, resolve) == Some(d) {
      DecodedSpells(payload, d, resolve);
    }
    if SpellsAddress(payload, d.addr, d.data) {
      SpelledDecodes(payload, [if |d.addr.ip| == 4 then 1 else 4], d.addr.ip, d.addr.port, d.data);
    }
    if host, port :| SpellsName(payload, host, port, d.addr, d.data, resolve) {
      SpelledDecodes(payload, [3, |host|], host, port, d.data);
    }
  }

  lemma SpelledDecodes(payload: Bytes, kind: Bytes, ip: Bytes, port: int, data: Bytes)
    requires Spells(payload, kind, ip, port, data)
    ensures var k := |kind| + |ip|;
      && |payload| == k + 2 + |data|
      && payload[..|kind|] == kind && payload[|kind|..k] == ip
      && Be16At(payload, k) == port && payload[k + 2..] == data
    ensures forall i | 0 <= i < |kind| :: payload[i] == kind[i]
  {
    var k := |kind| + |ip|;
    assert payload[k] == port / 256 && payload[k + 1] == port % 256;
  }

  lemma DecodedSpells(payload: Bytes, d: Datagram, resolve: Resolver)
    requires DecodeBody(payload, resolve) == Some(d)
    ensures SpellsAddress(payload, d.addr, d.data)
         || exists host, port :: SpellsName(payload, host, port, d.addr, d.data, resolve)
  {
    if payload[0] == 1 {
      Cut(payload, 1, 5);
    } else if payload[0] == 4 {
      Cut(payload, 1, 17);
    } else {
      var n: nat := payload[1];
      Cut(payload, 2, n + 2);
      assert SpellsName(payload, payload[2..n + 2], Be16At(payload, n + 2), d.addr, d.data, resolve);
    }
  }

  lemma Cut(payload: Bytes, i: nat, j: nat)
    requires i <= j && j + 2 <= |payload|
    ensures Spells(payload, payload[..i], payload[i..j], Be16At(payload, j), payload[j + 2..])
    ensures i == 1 ==> payload[..i] == [payload[0]]
    ensures i == 2 ==> payload[..i] == [payload[0], payload[1]]
  {
    assert Be16At(payload, j) / 256 == payload[j] && Be16At(payload, j) % 256 == payload[j + 1];
    assert payload == payload[..i] + payload[i..j] + [payload[j], payload[j + 1]] + payload[j + 2..];
  }

  /** What is written: the length in two bytes, high byte first, and contents that spell the address and
      the data; an IPv4 address in sixteen bytes is written as its four. */
  lemma FrameSpells(d: Datagram)
    requires Fits(d)
    ensures var n := |Pack(d)| - 2;
      && n < 65536 && Pack(d)[0] == n / 256 && Pack(d)[1] == n % 256
      && SpellsAddress(Pack(d)[2..], Normal(d).addr, d.data)
    ensures Normal(d).addr.ip ==
      if |d.addr.ip| == 16 && d.addr.ip[..12] == [0, 0, 0, 0, 0, 0, 0, 0, 0, 0, 255, 255]
      then d.addr.ip[12..] else d.addr.ip
  {
    assert Pack(d)[2..] == Body(d);
    assert MAPPED_PREFIX <= d.addr.ip <==> |d.addr.ip| >= 12 && d.addr.ip[..12] == MAPPED_PREFIX;
  }

  /** An address of any other length is left out of the frame, so that the data that follow are read as it. */
  lemma NoAddressIsWritten(d: Datagram)
    requires |d.addr.ip| != 4 && |d.addr.ip| != 16 && 0 <= d.addr.port < 65536
    ensures Pack(d)[2..] == [4, d.addr.port / 256, d.addr.port % 256] + d.data
  {
    assert AddrBytes(d.addr) == [4, d.addr.port / 256, d.addr.port % 256];
  }
}
