/**
 Many messages, one after the other: every buffer that was handed out keeps its packet while others are cut
 from the same chunk, and the receiver gets the messages back.
 */
module PacketRuns {
  import opened Common
  import opened Varint
  import opened MessageValues
  import opened PlayerMessage
  import opened LoginMessage
  import opened SendBuffers
  import opened Packet

  /** A buffer that was handed out. */
  datatype Slice = Slice(buffer: array<Byte>, at: nat, size: nat)

  ghost predicate Sendable(x: LoginValue) {
    LoginSized(x, RECURSION_LIMIT) && TypesOk(x.players) && Fits(|EncodeLogin(x)|)
  }

  ghost function PacketFor(id: nat, x: LoginValue): seq<Byte>
    requires Sendable(x) && id < TWO_TO_16
  {
    PacketOf(id, EncodeLogin(x))
  }

  /** The bytes are in the buffer, and the next buffers will be cut from behind it. */
  ghost predicate Holds(slice: Slice, bytes: seq<Byte>, buffers: SendBuffers)
    reads slice.buffer, buffers, buffers.chunk
  {
    && slice.at + slice.size <= CHUNK < slice.buffer.Length
    && slice.buffer[slice.at..slice.at + slice.size] == bytes
    && buffers.Valid() && (slice.buffer == buffers.chunk ==> slice.at + slice.size <= buffers.Used())
  }

  ghost predicate AllHold(sent: seq<Slice>, packets: seq<seq<Byte>>, buffers: SendBuffers)
    reads set s | s in sent :: s.buffer, buffers, buffers.chunk
  {
    |sent| == |packets| && forall i :: 0 <= i < |sent| ==> Holds(sent[i], packets[i], buffers)
  }

  method SendOne(pkt: Login, id: nat, buffers: SendBuffers, anyNonZero: bool) returns (slice: Slice)
    requires id < TWO_TO_16 && buffers.Valid() && Sendable(pkt.Value())
    modifies pkt`cachedSize, pkt.players`cachedSize, buffers, buffers.chunk
    ensures pkt.Value() == old(pkt.Value()) && Holds(slice, PacketFor(id, pkt.Value()), buffers)
    ensures buffers.chunk == old(buffers.chunk) || fresh(buffers.chunk)
    ensures buffers.chunk == old(buffers.chunk) ==> old(buffers.Used()) <= buffers.Used()
    ensures old(buffers.chunk)[..old(buffers.Used())] == old(buffers.chunk[..buffers.Used()])
  {
    hide LoginSized, EncodeLogin, Overran, UsedIn, Header;
    var r := MakeSendBuffer(pkt, id, buffers, anyNonZero);
    slice := Slice(r.buffer, r.at, r.size);
  }

  lemma PartOf(a: array<Byte>, n: nat, lo: nat, hi: nat)
    requires lo <= hi <= n <= a.Length
    ensures a[lo..hi] == a[..n][lo..hi]
  {
  }

  /** One more message leaves all earlier packets in their buffers. */
  method SendNext(pkt: Login, id: nat, buffers: SendBuffers, anyNonZero: bool,
                  ghost sent: seq<Slice>, ghost packets: seq<seq<Byte>>)
    returns (slice: Slice)
    requires id < TWO_TO_16 && buffers.Valid() && Sendable(pkt.Value()) && AllHold(sent, packets, buffers)
    modifies pkt`cachedSize, pkt.players`cachedSize, buffers, buffers.chunk
    ensures buffers.Valid() && pkt.Value() == old(pkt.Value())
    ensures buffers.chunk == old(buffers.chunk) || fresh(buffers.chunk)
    ensures AllHold(sent + [slice], packets + [PacketFor(id, pkt.Value())], buffers)
  {
    hide Sendable, UsedIn, PacketFor;
    ghost var chunk, used := buffers.chunk, buffers.Used();
    ghost var before := chunk[..used];
    forall i | 0 <= i < |sent| && sent[i].buffer == chunk
      ensures sent[i].at + sent[i].size <= used && packets[i] == before[sent[i].at..sent[i].at + sent[i].size]
    {
      assert Holds(sent[i], packets[i], buffers);
      PartOf(chunk, used, sent[i].at, sent[i].at + sent[i].size);
    }
    slice := SendOne(pkt, id, buffers, anyNonZero);
    forall i | 0 <= i < |sent|
      ensures Holds(sent[i], packets[i], buffers)
    {
      assert old(Holds(sent[i], packets[i], buffers));
      var buffer, at, end := sent[i].buffer, sent[i].at, sent[i].at + sent[i].size;
      if buffer == chunk {
        PartOf(chunk, used, at, end);
      } else {
        assert buffer != buffers.chunk;
        assert buffer[at..end] == old(buffer[at..end]);
      }
    }
  }

  /** MakeSendBuffer over and over, for messages with players among `players`: in the end all packets are in their
      buffers. */
  method SendAll(pkts: seq<Login>, ghost players: set<Player>, id: nat, buffers: SendBuffers, anyNonZero: bool)
    returns (sent: seq<Slice>, ghost packets: seq<seq<Byte>>)
    requires id < TWO_TO_16 && buffers.Valid() && forall i :: 0 <= i < |pkts| ==> Sendable(pkts[i].Value())
    requires forall i, q :: 0 <= i < |pkts| && q in pkts[i].players ==> q in players
    modifies pkts`cachedSize, players`cachedSize, buffers, buffers.chunk
    ensures buffers.Valid() && AllHold(sent, packets, buffers) && |packets| == |pkts|
    ensures forall i :: 0 <= i < |pkts| ==>
              Sendable(pkts[i].Value()) && pkts[i].Value() == old(pkts[i].Value())
              && packets[i] == PacketFor(id, pkts[i].Value())
  {
    hide Sendable, UsedIn, PacketFor, AllHold;
    sent, packets := [], [];
    NoneHeld(buffers);
    for n := 0 to |pkts|
      invariant buffers.Valid() && (buffers.chunk == old(buffers.chunk) || fresh(buffers.chunk))
      invariant AllHold(sent, packets, buffers) && |packets| == n
      invariant forall i :: 0 <= i < |pkts| ==> pkts[i].Value() == old(pkts[i].Value())
      invariant forall i, q :: 0 <= i < |pkts| && q in pkts[i].players ==> q in players
      invariant forall i :: 0 <= i < n ==> packets[i] == PacketFor(id, pkts[i].Value())
    {
      var slice := SendNext(pkts[n], id, buffers, anyNonZero, sent, packets);
      sent, packets := sent + [slice], packets + [PacketFor(id, pkts[n].Value())];
    }
  }

  lemma NoneHeld(buffers: SendBuffers)
    ensures AllHold([], [], buffers)
  {
  }

  /** The packets of any messages that fit, as one stream of bytes and followed by part of another packet: the receiver
      gets these packets, and in each the message, if its names are valid. */
  lemma StreamOfMessages(xs: seq<LoginValue>, id: nat, packets: seq<seq<Byte>>, tail: seq<Byte>)
    requires id < TWO_TO_16 && |packets| == |xs| && Incomplete(tail)
    requires forall i :: 0 <= i < |xs| ==> Sendable(xs[i]) && packets[i] == PacketFor(id, xs[i])
    ensures Split(Joined(packets) + tail) == Received(packets, |Joined(packets)|)
    ensures forall i :: 0 <= i < |xs| ==>
              MessageIn(packets[i]) == if NamesValid(xs[i].players) then Some(xs[i]) else None
  {
    hide MessageIn, HeaderSize, EncodeLogin, LoginTyped, LoginSized;
    forall i | 0 <= i < |xs|
      ensures PACKET_HEADER <= |packets[i]| == HeaderSize(packets[i])
      ensures MessageIn(packets[i]) == if NamesValid(xs[i].players) then Some(xs[i]) else None
    {
      SizedIsTyped(xs[i]);
      MessageInPacket(xs[i], id);
    }
    StreamRoundTrip(packets, tail);
  }
}
