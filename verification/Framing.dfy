/** Length-prefixed frames over a socket that moves as many bytes per call as it likes, and what
    a receiver makes of any byte stream its peer leaves behind. */
module Framing {
  import opened CStrings
  import opened KeyArrays

  /** One direction of a connection. Each call moves at least one byte, if there is one to move, or
      fails; which of these, and how many bytes, is up to the network. At the end of the stream a
      read returns 0, and so does every later one. */
  class Socket {
    var stream: seq<byte>  // written, or still to come from the peer, and not read yet
    ghost var failed: bool  // some call has failed

    constructor ()
      ensures stream == [] && !failed
    {
      stream, failed := [], false;
    }

    method Write(data: seq<byte>) returns (n: int)
      modifies this
      ensures n < 0 || (n <= |data| && (data != [] ==> n > 0))
      ensures stream == old(stream) + if n < 0 then [] else data[..n]
      ensures failed == (old(failed) || n < 0)
    {
      if * {
        n, failed := -1, true;
      } else {
        n :| 0 <= n <= |data| && (data != [] ==> n > 0);
        stream := stream + data[..n];
      }
    }

    method Read(max: nat) returns (n: int, data: seq<byte>)
      requires max > 0
      modifies this
      ensures n < 0 ==> data == [] && stream == old(stream)
      ensures n >= 0 ==> n <= max && n == |data| && old(stream) == data + stream
      ensures n == 0 <==> old(stream) == [] && n >= 0
      ensures failed == (old(failed) || n < 0)
    {
      if * {
        n, data, failed := -1, [], true;
      } else {
        n :| 0 <= n <= max && n <= |stream| && (stream != [] ==> n > 0);
        data, stream := stream[..n], stream[n..];
      }
    }
  }

  // ---- write_all and read_all ----

  /** write_all: all of buf is on its way, or -1 and only a part of it is. */
  method WriteAll(sock: Socket, buf: seq<byte>) returns (result: int)
    requires !sock.failed
    modifies sock
    ensures result == if sock.failed then -1 else |buf|
    ensures !sock.failed ==> sock.stream == old(sock.stream) + buf
    ensures exists k :: 0 <= k <= |buf| && sock.stream == old(sock.stream) + buf[..k]
  {
    var sent := 0;
    assert buf[..0] == [];
    while sent < |buf|
      invariant 0 <= sent <= |buf| && !sock.failed && sock.stream == old(sock.stream) + buf[..sent]
      decreases |buf| - sent
    {
      var n := sock.Write(buf[sent..]);
      if n < 0 {
        return -1;
      }
      assert buf[..sent + n] == buf[..sent] + buf[sent..][..n];
      sent := sent + n;
    }
    assert buf[..sent] == buf;
    return sent;
  }

  /** How a receiving loop ends: with what was asked for, with a failed call or a size no memory
      can be had for, or, at the end of the stream, not at all. */
  datatype Reading = Whole | Failed | Endless

  /** read_all: len bytes into buf, or -1. At the end of the stream read returns 0 and the loop
      goes on for ever. */
  method ReadAll(sock: Socket, buf: array<byte>, len: nat) returns (result: Reading)
    requires len <= buf.Length && !sock.failed
    modifies sock, buf
    ensures result.Failed? <==> sock.failed
    ensures !sock.failed ==> (result.Whole? <==> len <= |old(sock.stream)|)
    ensures result.Whole? ==> buf[..len] == old(sock.stream)[..len] && sock.stream == old(sock.stream)[len..]
    ensures result.Endless? ==> sock.stream == []
    ensures exists k :: 0 <= k <= |old(sock.stream)| && k <= len && sock.stream == old(sock.stream)[k..]
  {
    ghost var s := sock.stream;
    var received := 0;
    while received < len
      invariant 0 <= received <= len && received <= |s| && !sock.failed
      invariant sock.stream == s[received..] && buf[..received] == s[..received]
      decreases len - received
    {
      var n, data := sock.Read(len - received);
      if n < 0 {
        return Failed;
      }
      if n == 0 {
        return Endless;
      }
      ReadStep(s, received, data, sock.stream);
      forall j | 0 <= j < n {
        buf[received + j] := data[j];
      }
      received := received + n;
    }
    return Whole;
  }

  lemma ReadStep(s: seq<byte>, r: nat, data: seq<byte>, rest: seq<byte>)
    requires r <= |s| && s[r..] == data + rest
    ensures r + |data| <= |s| && rest == s[r + |data|..]
    ensures forall j :: 0 <= j < |data| ==> data[j] == s[r + j]
  {
    assert |s[r..]| == |data| + |rest|;
    forall j | 0 <= j < |data| ensures data[j] == s[r + j] {
      assert s[r..][j] == (data + rest)[j];
    }
    forall j | 0 <= j < |rest| ensures rest[j] == s[r + |data| + j] {
      assert s[r..][|data| + j] == (data + rest)[|data| + j];
    }
  }

  // ---- frames ----

  /** A packed message as network_send puts it on the wire. */
  function Frame(payload: seq<byte>): (f: seq<byte>)
    requires |payload| < INT_LIMIT
    ensures |f| == 4 + |payload|
  {
    EncodeInt(|payload|) + payload
  }

  predicate Fits(payloads: seq<seq<byte>>) {
    forall i :: 0 <= i < |payloads| ==> |payloads[i]| < INT_LIMIT
  }

  function Frames(payloads: seq<seq<byte>>): seq<byte>
    requires Fits(payloads)
  {
    if payloads == [] then [] else Frame(payloads[0]) + Frames(payloads[1..])
  }

  /** The first frame of a stream and what follows it; None while it is not complete, or if its
      size is negative. */
  function Unframe(s: seq<byte>): Option<(seq<byte>, seq<byte>)> {
    if |s| < 4 then None
    else
      var n := DecodeInt(s[..4]);
      if n < 0 || |s| < 4 + n then None else Some((s[4..4 + n], s[4 + n..]))
  }

  /** The first four bytes announce a size no memory can be had for. */
  predicate Hopeless(s: seq<byte>) {
    |s| >= 4 && DecodeInt(s[..4]) < 0
  }

  /** The messages of a byte stream, up to the first frame that is not complete or hopeless. */
  function UnframeAll(s: seq<byte>): seq<seq<byte>>
    decreases |s|
  {
    match Unframe(s)
    case None => []
    case Some((payload, rest)) => [payload] + UnframeAll(rest)
  }

  /** What comes after those messages. */
  function Remainder(s: seq<byte>): (r: seq<byte>)
    ensures Unframe(r) == None
    decreases |s|
  {
    match Unframe(s)
    case None => s
    case Some((_, rest)) => Remainder(rest)
  }

  /** Frames are self-delimiting: whatever follows, the first frame of a stream is read back. */
  lemma UnframeFrame(payload: seq<byte>, rest: seq<byte>)
    requires |payload| < INT_LIMIT
    ensures Unframe(Frame(payload) + rest) == Some((payload, rest))
  {
    var s := Frame(payload) + rest;
    DecodeEncodeInt(|payload|);
    assert s[..4] == EncodeInt(|payload|);
    assert s[4..4 + |payload|] == payload && s[4 + |payload|..] == rest;
  }

  /** The size stands in front, the most significant byte first. */
  lemma FrameStartsWithSize(payload: seq<byte>)
    requires |payload| < INT_LIMIT
    ensures var f := Frame(payload);
            var f0: int, f1: int, f2: int, f3: int := f[0], f[1], f[2], f[3];
            f0 * 0x100_0000 + f1 * 0x1_0000 + f2 * 0x100 + f3 == |payload| && f[4..] == payload
  {
    NetworkOrder(|payload|);
  }

  /** It is the first bit that makes a size hopeless. */
  lemma HopelessIff(s: seq<byte>)
    ensures Hopeless(s) <==> |s| >= 4 && s[0] >= 128
  {
    if |s| >= 4 {
      ReadInNetworkOrder(s[..4]);
    }
  }

  /** One byte stream cannot be read as two different lists of messages. */
  lemma {:induction false} FramesAreUnambiguous(a: seq<seq<byte>>, b: seq<seq<byte>>)
    requires Fits(a) && Fits(b) && Frames(a) == Frames(b)
    ensures a == b
  {
    if a != [] && b != [] {
      UnframeFrame(a[0], Frames(a[1..]));
      UnframeFrame(b[0], Frames(b[1..]));
      FramesAreUnambiguous(a[1..], b[1..]);
      assert a == [a[0]] + a[1..] && b == [b[0]] + b[1..];
    }
  }

  lemma {:induction false} FramesConcat(a: seq<seq<byte>>, b: seq<seq<byte>>)
    requires Fits(a) && Fits(b)
    ensures Frames(a + b) == Frames(a) + Frames(b)
  {
    if a == [] {
      assert a + b == b;
    } else {
      assert (a + b)[1..] == a[1..] + b;
      FramesConcat(a[1..], b);
      Associate(Frame(a[0]), Frames(a[1..]), Frames(b));
    }
  }

  /** A stream of frames has exactly the messages that were framed, whatever incomplete frame
      follows them. */
  lemma {:induction false} UnframeFrames(payloads: seq<seq<byte>>, more: seq<byte>)
    requires Fits(payloads) && Unframe(more) == None
    ensures UnframeAll(Frames(payloads) + more) == payloads && Remainder(Frames(payloads) + more) == more
  {
    if payloads == [] {
      assert Frames(payloads) + more == more;
    } else {
      Associate(Frame(payloads[0]), Frames(payloads[1..]), more);
      UnframeFrame(payloads[0], Frames(payloads[1..]) + more);
      UnframeFrames(payloads[1..], more);
      assert payloads == [payloads[0]] + payloads[1..];
    }
  }

  /** Every stream is the frames of its messages and the remainder. */
  lemma {:induction false} FramesOfUnframed(s: seq<byte>)
    ensures Fits(UnframeAll(s)) && Frames(UnframeAll(s)) + Remainder(s) == s
    decreases |s|
  {
    match Unframe(s)
    case None => assert [] + s == s;
    case Some((payload, rest)) =>
      FramesOfUnframed(rest);
      EncodeDecodeInt(s[..4]);
      assert s == Frame(payload) + rest;
      Associate(Frame(payload), Frames(UnframeAll(rest)), Remainder(rest));
      assert UnframeAll(s)[1..] == UnframeAll(rest);
  }

  lemma FramesOne(payload: seq<byte>)
    requires |payload| < INT_LIMIT
    ensures Frames([payload]) == Frame(payload)
  {
    var none: seq<seq<byte>> := [payload][1..];
    assert none == [] && Frame(payload) + [] == Frame(payload);
  }

  // ---- network_send and network_receive ----

  /** network_send of a packed message. */
  method NetworkSend(sock: Socket, payload: seq<byte>) returns (result: int)
    requires |payload| < INT_LIMIT && !sock.failed
    modifies sock
    ensures result == if sock.failed then -1 else 0
    ensures !sock.failed ==> sock.stream == old(sock.stream) + Frame(payload)
  {
    ghost var s := sock.stream;
    var sent := WriteAll(sock, EncodeInt(|payload|));
    if sent < 0 {
      return -1;
    }
    sent := WriteAll(sock, payload);
    if sent < 0 {
      return -1;
    }
    Associate(s, EncodeInt(|payload|), payload);
    return 0;
  }

  /** network_receive up to unpacking: the first message of the stream; NULL on a read error or a
      size no memory can be had for; and no end if the peer stops before the frame is complete. */
  method NetworkReceive(sock: Socket) returns (result: Reading, payload: seq<byte>)
    requires !sock.failed
    modifies sock
    ensures sock.failed ==> result == Failed
    ensures !sock.failed ==>
              match Unframe(old(sock.stream))
              case Some((p, rest)) => result == Whole && payload == p && sock.stream == rest
              case None => result == if Hopeless(old(sock.stream)) then Failed else Endless
  {
    ghost var s := sock.stream;
    payload := [];
    var header;
    result, header := ReadBytes(sock, 4);
    if result != Whole {
      return;
    }
    var size := DecodeInt(header);
    UnframeUnfolds(s);
    if size < 0 {
      return Failed, [];
    }
    result, payload := ReadBytes(sock, size);
  }

  /** read_all into memory of that size. */
  method ReadBytes(sock: Socket, len: nat) returns (result: Reading, bytes: seq<byte>)
    requires !sock.failed
    modifies sock
    ensures result.Failed? <==> sock.failed
    ensures !sock.failed ==> (result.Whole? <==> len <= |old(sock.stream)|)
    ensures result.Whole? ==> bytes == old(sock.stream)[..len] && sock.stream == old(sock.stream)[len..]
  {
    var buffer := new byte[len];
    result := ReadAll(sock, buffer, len);
    bytes := buffer[..];
    assert buffer[..len] == bytes;
  }

  lemma UnframeUnfolds(s: seq<byte>)
    requires |s| >= 4
    ensures var n := DecodeInt(s[..4]);
            Unframe(s) == if n < 0 || |s[4..]| < n then None else Some((s[4..][..n], s[4..][n..]))
  {
    var n := DecodeInt(s[..4]);
    if 0 <= n <= |s[4..]| {
      assert s[4..][..n] == s[4..4 + n] && s[4..][n..] == s[4 + n..];
    }
  }

  /** A peer sends messages one after the other; false at the first failure. */
  method SendAll(sock: Socket, payloads: seq<seq<byte>>) returns (ok: bool)
    requires Fits(payloads) && !sock.failed
    modifies sock
    ensures ok == !sock.failed
    ensures ok ==> sock.stream == old(sock.stream) + Frames(payloads)
  {
    var i := 0;
    assert payloads[..0] == [];
    while i < |payloads|
      invariant 0 <= i <= |payloads| && !sock.failed && sock.stream == old(sock.stream) + Frames(payloads[..i])
    {
      ghost var s := sock.stream;
      var result := NetworkSend(sock, payloads[i]);
      if result != 0 {
        return false;
      }
      assert payloads[..i + 1] == payloads[..i] + [payloads[i]];
      FramesConcat(payloads[..i], [payloads[i]]);
      FramesOne(payloads[i]);
      Associate(old(sock.stream), Frames(payloads[..i]), Frame(payloads[i]));
      i := i + 1;
    }
    assert payloads[..i] == payloads;
    return true;
  }

  /** The messages up to the first that cannot be unpacked. */
  function Readable(payloads: seq<seq<byte>>, unpacks: seq<byte> -> bool): seq<seq<byte>> {
    if payloads == [] || !unpacks(payloads[0]) then [] else [payloads[0]] + Readable(payloads[1..], unpacks)
  }

  lemma {:induction false} ReadableIsPrefix(payloads: seq<seq<byte>>, unpacks: seq<byte> -> bool)
    ensures var r := Readable(payloads, unpacks);
            && r <= payloads && (forall i :: 0 <= i < |r| ==> unpacks(r[i]))
            && (|r| < |payloads| ==> !unpacks(payloads[|r|]))
  {
    if payloads != [] && unpacks(payloads[0]) {
      ReadableIsPrefix(payloads[1..], unpacks);
    }
  }

  /** handle_client's receiving loop over any stream, unpacks saying of which payloads a message can
      be made: unless a read fails it gets the stream's messages, in order, whatever the sizes of
      the short reads and writes in between, up to the first that cannot be unpacked. It stops
      there, or at a hopeless size; when the peer has closed the connection, as it should, the loop
      hangs in read_all. */
  method ReceiveAll(sock: Socket, unpacks: seq<byte> -> bool) returns (received: seq<seq<byte>>, end: Reading)
    requires !sock.failed
    modifies sock
    ensures !sock.failed ==> received == Readable(UnframeAll(old(sock.stream)), unpacks)
    ensures !sock.failed ==>
              end == if |received| < |UnframeAll(old(sock.stream))| || Hopeless(Remainder(old(sock.stream)))
                     then Failed else Endless
    ensures sock.failed ==> end == Failed && received <= Readable(UnframeAll(old(sock.stream)), unpacks)
  {
    ghost var all, last := UnframeAll(sock.stream), Remainder(sock.stream);
    ghost var wanted := Readable(all, unpacks);
    received := [];
    assert [] + all == all && [] + wanted == wanted;
    while true
      invariant !sock.failed && received + UnframeAll(sock.stream) == all && Remainder(sock.stream) == last
      invariant received + Readable(UnframeAll(sock.stream), unpacks) == wanted
      decreases |sock.stream|
    {
      ghost var s := sock.stream;
      var result, payload := NetworkReceive(sock);
      if result != Whole {
        assert !sock.failed ==> received + [] == received;
        return received, result;
      }
      if !unpacks(payload) {
        assert received + [] == received;
        return received, Failed;
      }
      ReceiveStep(received, payload, UnframeAll(sock.stream), unpacks);
      received := received + [payload];
    }
  }

  lemma ReceiveStep(received: seq<seq<byte>>, payload: seq<byte>, rest: seq<seq<byte>>, unpacks: seq<byte> -> bool)
    requires unpacks(payload)
    ensures received + ([payload] + rest) == (received + [payload]) + rest
    ensures received + Readable([payload] + rest, unpacks) == (received + [payload]) + Readable(rest, unpacks)
  {
    assert ([payload] + rest)[1..] == rest;
  }

  // ---- send_message_to_successor ----

  /** The first n1 bytes of the size and the first n2 of the payload have been added. */
  ghost predicate Added(before: seq<byte>, after: seq<byte>, payload: seq<byte>, n1: nat, n2: nat) {
    && |payload| < INT_LIMIT && n1 <= 4 && n2 <= |payload|
    && after == before + (EncodeInt(|payload|)[..n1] + payload[..n2])
  }

  /** The forwarded message: each write is called once, and what it did not take is lost. The
      result does not tell. */
  method SendMessage(sock: Socket, payload: seq<byte>) returns (result: int)
    requires |payload| < INT_LIMIT && !sock.failed
    modifies sock
    ensures result == if sock.failed then -1 else 0
    ensures exists n1: nat, n2: nat :: Added(old(sock.stream), sock.stream, payload, n1, n2)
  {
    ghost var s := sock.stream;
    var header := EncodeInt(|payload|);
    assert header[..0] == [] && payload[..0] == [];
    var n := sock.Write(header);
    if n < 0 {
      assert Added(s, sock.stream, payload, 0, 0);
      return -1;
    }
    ghost var n1: nat := n;
    assert header[..n1] + payload[..0] == header[..n1];
    assert Added(s, sock.stream, payload, n1, 0);
    ghost var s1 := sock.stream;
    assert s1 + [] == s1;
    n := sock.Write(payload);
    if n < 0 {
      return -1;
    }
    Associate(s, header[..n1], payload[..n]);
    assert Added(s, sock.stream, payload, n1, n);
    return 0;
  }

  /** On a fresh connection the successor gets the forwarded message, and nothing else, exactly if
      both writes took everything; if only the payload was cut it gets nothing and hangs. */
  lemma ForwardArrivesIff(payload: seq<byte>, s: seq<byte>, n1: nat, n2: nat)
    requires Added([], s, payload, n1, n2)
    ensures UnframeAll(s) == [payload] && Remainder(s) == [] <==> n1 == 4 && n2 == |payload|
    ensures n1 == 4 && n2 < |payload| ==> UnframeAll(s) == [] && !Hopeless(Remainder(s))
  {
    assert s == EncodeInt(|payload|)[..n1] + payload[..n2];
    DecodeEncodeInt(|payload|);
    if n1 == 4 {
      assert s[..4] == EncodeInt(|payload|);
      if n2 == |payload| {
        UnframeFrames([payload], []);
        FramesOne(payload);
        assert s == Frames([payload]) + [];
      }
    }
    if UnframeAll(s) == [payload] && Remainder(s) == [] {
      FramesOfUnframed(s);
      FramesOne(payload);
      assert |s| == 4 + |payload|;
    }
  }
}
