/**
 Packet framing around the codec: a header with the packet's size and id, two bytes each, and the
 serialised message, written into a send buffer cut from a chunk of fixed size.
 */
module Packet {
  import opened Common
  import opened Varint
  import opened Output
  import opened SendBuffers
  import opened Wire
  import opened MessageValues
  import opened LoginMessage

  /** sizeof(PacketHeader) */
  const PACKET_HEADER: nat := 4

  /** The header as it lies in memory: size and id, low byte first. */
  function Header(size: nat, id: nat): (h: seq<Byte>)
    requires size < TWO_TO_16 && id < TWO_TO_16
    ensures |h| == PACKET_HEADER
  {
    [size % 256, size / 256, id % 256, id / 256]
  }

  function HeaderSize(bytes: seq<Byte>): nat
    requires PACKET_HEADER <= |bytes|
  {
    bytes[0] as int + 256 * bytes[1] as int
  }

  function HeaderId(bytes: seq<Byte>): nat
    requires PACKET_HEADER <= |bytes|
  {
    bytes[2] as int + 256 * bytes[3] as int
  }

  /** The four bytes of a header, written and read: size before id, each with its low byte first. */
  lemma HeaderLayout(s0: Byte, s1: Byte, i0: Byte, i1: Byte, t: seq<Byte>)
    ensures var size, id := s0 + 256 * (s1 as int), i0 + 256 * (i1 as int);
            && size < TWO_TO_16 && id < TWO_TO_16 && Header(size, id) == [s0, s1, i0, i1]
            && HeaderSize([s0, s1, i0, i1] + t) == size && HeaderId([s0, s1, i0, i1] + t) == id
  {
    var h := [s0, s1, i0, i1] + t;
    assert h[0] == s0 && h[1] == s1 && h[2] == i0 && h[3] == i1;
  }

  /** A whole packet. */
  function PacketOf(id: nat, payload: seq<Byte>): seq<Byte>
    requires |payload| + PACKET_HEADER < TWO_TO_16 && id < TWO_TO_16
  {
    Header(|payload| + PACKET_HEADER, id) + payload
  }

  /** A buffer of `size` bytes at `at`, or an assertion that stopped the program; `outside` says whether bytes were
      written behind the buffer that was opened. */
  datatype Outcome = Sent(buffer: array<Byte>, at: nat, size: nat, outside: bool) | Crashed(outside: bool)

  /** The size of the buffer that is opened for a message of this length. */
  function Granted(length: nat): nat {
    (length % TWO_TO_16 + PACKET_HEADER) % TWO_TO_16
  }

  predicate Fits(length: nat) {
    length + PACKET_HEADER <= CHUNK
  }

  /** The length passes for 16 bits, the size of the packet does not: too small a buffer is opened. */
  predicate Wraps(length: nat) {
    TWO_TO_16 - PACKET_HEADER <= length < TWO_TO_16
  }

  /** The header as it is written, with the size cut down to 16 bits, and the payload. */
  function Written(id: nat, payload: seq<Byte>): (w: seq<Byte>)
    requires id < TWO_TO_16
    ensures |w| == PACKET_HEADER + |payload|
  {
    Header(Granted(|payload|), id) + payload
  }

  /** A packet that overruns the chunk from `at` on puts a byte where _open is, and Close wants to find it true. */
  predicate SurvivesClose(written: seq<Byte>, at: nat, anyNonZero: bool) {
    at <= OPEN_AT < at + |written| && IsTrue(written[OPEN_AT - at], anyNonZero)
  }

  /** What a packet of a wrapped size leaves in memory: all of it, except that Close has set the fields of the chunk. */
  ghost predicate Overran(mem: seq<Byte>, at: nat, written: seq<Byte>) {
    && |mem| == MEMORY && at <= CHUNK && CHUNK_END <= at + |written| <= MEMORY
    && mem[at..CHUNK] == written[..CHUNK - at] && mem[CHUNK_END..at + |written|] == written[CHUNK_END - at..]
  }

  /**
   MakeSendBuffer: sizes are cut down to 16 bits before they are used. For a message that fits in a chunk its packet
   comes back. For one whose packet size wraps around, header and payload are written behind a buffer of at most three
   bytes, past the end of the chunk and over the chunk's own fields; a buffer comes back exactly if the byte that lands
   on _open passes for true. In all other cases an assertion stops the program, after the header was written behind the
   buffer if the length wraps around in the same way. What was sent before is left alone.
   */
  method MakeSendBuffer(pkt: Login, id: nat, buffers: SendBuffers, anyNonZero: bool) returns (r: Outcome)
    requires LoginSized(pkt.Value(), RECURSION_LIMIT) && id < TWO_TO_16 && buffers.Valid()
    modifies pkt`cachedSize, pkt.players`cachedSize, buffers, buffers.chunk
    ensures pkt.Value() == old(pkt.Value()) && TypesOk(pkt.Value().players)
    ensures var payload := EncodeLogin(pkt.Value());
            var at := StartOf(old(buffers.Used()), Granted(|payload|));
            && (r.outside <==> Wraps(|payload| % TWO_TO_16))
            && (r.Sent? <==>
                Fits(|payload|) || (Wraps(|payload|) && SurvivesClose(Written(id, payload), at, anyNonZero)))
            && (r.Sent? ==>
                r.at == at && r.size == Granted(|payload|) && r.at + r.size <= CHUNK && r.buffer.Length == MEMORY)
    ensures r.Sent? && Fits(|EncodeLogin(pkt.Value())|) ==>
              && r.buffer[r.at..r.at + r.size] == PacketOf(id, EncodeLogin(pkt.Value()))
              && buffers.Valid() && buffers.chunk == r.buffer && buffers.Used() == r.at + r.size
    ensures r.Sent? && Wraps(|EncodeLogin(pkt.Value())|) ==>
              Overran(r.buffer[..], r.at, Written(id, EncodeLogin(pkt.Value())))
    ensures if Granted(|EncodeLogin(pkt.Value())|) <= CHUNK - old(buffers.Used())
            then buffers.chunk == old(buffers.chunk) else fresh(buffers.chunk)
    ensures r.Sent? && buffers.chunk == old(buffers.chunk) ==> r.at == old(buffers.Used())
    ensures old(buffers.chunk)[..old(buffers.Used())] == old(buffers.chunk[..buffers.Used()])
  {
    hide EncodeLogin, LoginSized, EncodePlayer, Overran, Written, Header, IsTrue, UsedIn, PacketOf;
    LoginTypes(pkt.Value(), RECURSION_LIMIT);
    var length := pkt.ByteSizeLong(RECURSION_LIMIT);
    var dataSize := length % TWO_TO_16;
    var packetSize := (dataSize + PACKET_HEADER) % TWO_TO_16;
    Truncations(length);
    var granted := buffers.Open(packetSize);
    if !granted { return Crashed(false); }
    r := FillBuffer(pkt, id, buffers, packetSize, dataSize, anyNonZero);
  }

  /** MakeSendBuffer from the moment the buffer is open. */
  method FillBuffer(pkt: Login, id: nat, buffers: SendBuffers, packetSize: nat, dataSize: nat, anyNonZero: bool)
    returns (r: Outcome)
    requires LoginSized(pkt.Value(), RECURSION_LIMIT) && id < TWO_TO_16 && TypesOk(pkt.Value().players)
    requires dataSize == |EncodeLogin(pkt.Value())| % TWO_TO_16 && packetSize == Granted(|EncodeLogin(pkt.Value())|)
    requires buffers.chunk.Length == MEMORY && buffers.chunk[OPEN_AT] == 1 && buffers.Used() + packetSize <= CHUNK
    modifies pkt`cachedSize, pkt.players`cachedSize, buffers.chunk
    ensures pkt.Value() == old(pkt.Value())
    ensures var payload, at := EncodeLogin(pkt.Value()), old(buffers.Used());
            && (r.outside <==> Wraps(|payload| % TWO_TO_16))
            && (r.Sent? <==>
                Fits(|payload|) || (Wraps(|payload|) && SurvivesClose(Written(id, payload), at, anyNonZero)))
            && (r.Sent? ==> r.buffer == buffers.chunk && r.at == at && r.size == packetSize)
    ensures r.Sent? && Fits(|EncodeLogin(pkt.Value())|) ==>
              && r.buffer[r.at..r.at + r.size] == PacketOf(id, EncodeLogin(pkt.Value()))
              && buffers.Valid() && buffers.Used() == r.at + r.size
    ensures r.Sent? && Wraps(|EncodeLogin(pkt.Value())|) ==>
              Overran(r.buffer[..], r.at, Written(id, EncodeLogin(pkt.Value())))
    ensures buffers.chunk[..old(buffers.Used())] == old(buffers.chunk[..buffers.Used()])
  {
    hide EncodeLogin, PlayerSized, EncodePlayer, Overwrite, Closed, UsedIn, Overran, Header;
    var at, target := buffers.Used(), buffers.chunk;
    ghost var before, length := target[..], |EncodeLogin(pkt.Value())|;
    Truncations(length);
    var ok := WritePacket(pkt, id, target, at, packetSize, dataSize);
    var outside := packetSize < PACKET_HEADER + (if ok then dataSize else 0);
    if !ok { return Crashed(outside); }
    if Fits(length) {
      FittingClosed(before, at, Written(id, EncodeLogin(pkt.Value())));
    } else {
      OverrunClosed(before, at, Written(id, EncodeLogin(pkt.Value())), packetSize);
    }
    var closed := buffers.Close(packetSize, anyNonZero);
    return if closed then Sent(target, at, packetSize, outside) else Crashed(outside);
  }

  /** Fill in the header, then the payload behind it if it fits in `dataSize` bytes. */
  method WritePacket(pkt: Login, id: nat, target: array<Byte>, at: nat, packetSize: nat, dataSize: nat)
    returns (ok: bool)
    requires LoginSized(pkt.Value(), RECURSION_LIMIT) && id < TWO_TO_16 && packetSize < TWO_TO_16
    requires at + PACKET_HEADER + dataSize <= target.Length
    requires TypesOk(pkt.Value().players) && dataSize == |EncodeLogin(pkt.Value())| % TWO_TO_16
    modifies pkt`cachedSize, pkt.players`cachedSize, target
    ensures pkt.Value() == old(pkt.Value()) && ok == (dataSize == |EncodeLogin(pkt.Value())|)
    ensures target[..] == Overwrite(old(target[..]), at,
                                    Header(packetSize, id) + (if ok then EncodeLogin(pkt.Value()) else []))
    ensures target[..at] == old(target[..at])
  {
    hide EncodeLogin, PlayerSized, Overwrite;
    ghost var before := target[..];
    WriteHeader(target, at, packetSize, id);
    ok := pkt.SerializeToArray(target, at + PACKET_HEADER, dataSize, RECURSION_LIMIT);
    if ok {
      OverwriteTwice(before, at, Header(packetSize, id), EncodeLogin(pkt.Value()));
    } else {
      assert Header(packetSize, id) + [] == Header(packetSize, id);
    }
    PrefixKept(before, at, Header(packetSize, id) + (if ok then EncodeLogin(pkt.Value()) else []));
  }

  /** A packet inside its buffer leaves the chunk's fields alone. */
  lemma FittingClosed(mem: seq<Byte>, at: nat, written: seq<Byte>)
    requires |mem| == MEMORY && mem[OPEN_AT] == 1 && UsedIn(mem) == at && at + |written| <= CHUNK
    ensures Overwrite(mem, at, written)[OPEN_AT] == 1
    ensures var closed := Closed(Overwrite(mem, at, written), |written|);
            && closed[OPEN_AT] == 0 && UsedIn(closed) == at + |written|
            && closed[at..at + |written|] == written
  {
    hide Overwrite, UsedIn, Closed;
    var after := Overwrite(mem, at, written);
    FieldsKept(mem, at, written);
    OverwrittenPart(mem, at, written);
    CloseKeeps(after, |written|);
    SameSlice(Closed(after, |written|), after, CHUNK, at, at + |written|);
  }

  lemma FieldsKept(mem: seq<Byte>, at: nat, written: seq<Byte>)
    requires |mem| == MEMORY && at + |written| <= CHUNK
    ensures Overwrite(mem, at, written)[OPEN_AT] == mem[OPEN_AT]
    ensures UsedIn(Overwrite(mem, at, written)) == UsedIn(mem)
  {
    var after := Overwrite(mem, at, written);
    assert after[CHUNK..] == mem[CHUNK..];
    assert forall k :: CHUNK <= k < MEMORY ==> after[k] == after[CHUNK..][k - CHUNK] == mem[k];
  }

  /** Close touches nothing but the fields. */
  lemma CloseKeeps(mem: seq<Byte>, size: nat)
    requires |mem| == MEMORY
    ensures var closed := Closed(mem, size);
            && closed[..CHUNK] == mem[..CHUNK] && closed[CHUNK_END..] == mem[CHUNK_END..]
            && closed[OPEN_AT] == 0 && UsedIn(closed) == (UsedIn(mem) + size) % TWO_TO_32
  {
    WordReadBack(mem[OPEN_AT := 0], (UsedIn(mem) + size) % TWO_TO_32);
  }

  lemma PrefixKept(mem: seq<Byte>, at: nat, bytes: seq<Byte>)
    requires at + |bytes| <= |mem|
    ensures Overwrite(mem, at, bytes)[..at] == mem[..at]
  {
  }

  lemma SameSlice<T>(s: seq<T>, t: seq<T>, n: nat, lo: nat, hi: nat)
    requires n <= |s| && n <= |t| && s[..n] == t[..n] && lo <= hi <= n
    ensures s[lo..hi] == t[lo..hi]
  {
    assert s[lo..hi] == s[..n][lo..hi] && t[lo..hi] == t[..n][lo..hi];
  }

  /** A packet that overruns the chunk decides what Close finds. */
  lemma OverrunClosed(mem: seq<Byte>, at: nat, written: seq<Byte>, size: nat)
    requires |mem| == MEMORY && at <= CHUNK && CHUNK_END <= at + |written| <= MEMORY
    ensures Overwrite(mem, at, written)[OPEN_AT] == written[OPEN_AT - at]
    ensures Overran(Closed(Overwrite(mem, at, written), size), at, written)
  {
    var after := Overwrite(mem, at, written);
    OverwrittenPart(mem, at, written);
    var closed := Closed(after, size);
    CloseKeeps(after, size);
    var part, end := after[at..at + |written|], at + |written|;
    SameSlice(closed, after, CHUNK, at, CHUNK);
    assert after[at..CHUNK] == part[..CHUNK - at];
    assert closed[CHUNK_END..end] == closed[CHUNK_END..][..end - CHUNK_END] == after[CHUNK_END..][..end - CHUNK_END];
    assert after[CHUNK_END..][..end - CHUNK_END] == part[CHUNK_END - at..];
  }

  method WriteHeader(target: array<Byte>, at: nat, size: nat, id: nat)
    requires at + PACKET_HEADER <= target.Length && size < TWO_TO_16 && id < TWO_TO_16
    modifies target
    ensures target[..] == Overwrite(old(target[..]), at, Header(size, id))
  {
    target[at], target[at + 1] := size % 256, size / 256;
    target[at + 2], target[at + 3] := id % 256, id / 256;
  }

  /** What becomes of a length and of the packet's size when they are cut down to 16 bits. */
  lemma Truncations(length: nat)
    ensures Fits(length) ==> length % TWO_TO_16 == length && Granted(length) == length + PACKET_HEADER
    ensures Wraps(length % TWO_TO_16) <==> Granted(length) < PACKET_HEADER
    ensures Granted(length) <= CHUNK && length % TWO_TO_16 == length ==> Fits(length) || Wraps(length)
  {
  }

  lemma OverwrittenPart(s: seq<Byte>, at: nat, bytes: seq<Byte>)
    requires at + |bytes| <= |s|
    ensures Overwrite(s, at, bytes)[at..at + |bytes|] == bytes
  {
  }

  /** The handler's message; bytes that do not parse; or a debug build that does not take such a size. */
  datatype Handled = Message(pkt: Login) | Refused | Aborted

  /** How far a pointer moves when a size_t is added to it. */
  function Signed64(n: nat): int
    requires n < TWO_TO_64
  {
    if n < TWO_TO_64 / 2 then n else n - TWO_TO_64
  }

  function Unsigned64(n: int): nat
    requires 0 <= n + TWO_TO_64 && n < TWO_TO_64
  {
    if n < 0 then n + TWO_TO_64 else n
  }

  /**
   The templated HandlePacket: a fresh message, parsed from what follows the header. The size of the payload is
   computed as a size_t, passed on as an int and made a size_t again, so that of a packet shorter than a header it is
   close to 2^64. Debug builds stop at that (CheckSize). In release builds the end of the buffer comes to lie before its
   start (InitFrom), and the first Done refuses the message before a byte is read.
   */
  method HandlePacket(s: seq<Byte>, p: nat, len: nat, ndebug: bool) returns (r: Handled)
    requires p + len <= |s| && len <= INT_MAX
    ensures r.Aborted? <==> len < PACKET_HEADER && !ndebug
    ensures len < PACKET_HEADER && ndebug ==> r.Refused?
    ensures PACKET_HEADER <= len ==>
              var payload := s[p + PACKET_HEADER..p + len];
              var parsed := Parse(LoginAt(RECURSION_LIMIT), NO_LOGIN, payload, RECURSION_LIMIT);
              (r.Message? <==> parsed.Some?) && (r.Message? ==> fresh(r.pkt) && parsed == Some(r.pkt.Value()))
  {
    var size := Unsigned64(ToInt32(Unsigned64(len - PACKET_HEADER)));
    if !ndebug && TWO_TO_64 / 2 <= size { return Aborted; }
    var start := p + PACKET_HEADER;
    if SLOP < size {
      var bufferEnd := start + Signed64(size) - SLOP;
      if bufferEnd <= start && SLOP < start - bufferEnd { return Refused; }
    }
    var pkt := new Login();
    var ok := pkt.ParseFromArray(s, start, start + size);
    return if ok then Message(pkt) else Refused;
  }

  /** A packet says its own whole size and id, and its payload parses back to the message exactly when the
      names in it are valid UTF-8. */
  lemma PacketRoundTripIff(x: LoginValue, id: nat)
    requires LoginTyped(x, RECURSION_LIMIT) && TypesOk(x.players) && id < TWO_TO_16
             && |EncodeLogin(x)| + PACKET_HEADER < TWO_TO_16
    ensures var bytes := PacketOf(id, EncodeLogin(x));
            && HeaderSize(bytes) == |bytes| && HeaderId(bytes) == id
            && (Parse(LoginAt(RECURSION_LIMIT), NO_LOGIN, bytes[PACKET_HEADER..], RECURSION_LIMIT) == Some(x) <==>
                NamesValid(x.players))
  {
    hide EncodeLogin, Parse;
    var bytes := PacketOf(id, EncodeLogin(x));
    assert bytes[PACKET_HEADER..] == EncodeLogin(x);
    SmallMessageIsOk(x, RECURSION_LIMIT);
    LoginRoundTripIff(x, RECURSION_LIMIT);
  }

  // ----- packets in a stream of bytes -----

  /** The packets that were passed on, and how many bytes they took; or a packet of size 0, over and over. */
  datatype Received = Received(packets: seq<seq<Byte>>, processed: nat) | Endless(packets: seq<seq<Byte>>)

  /** Behind `packet`, what `rest` says about the bytes after it. */
  function Behind(packet: seq<Byte>, rest: Received): Received {
    match rest
    case Received(packets, n) => Received([packet] + packets, |packet| + n)
    case Endless(packets) => Endless([packet] + packets)
  }

  /** No whole packet yet. */
  predicate Incomplete(s: seq<Byte>) {
    |s| < PACKET_HEADER || |s| < HeaderSize(s)
  }

  function Split(s: seq<Byte>): Received
    decreases |s|
  {
    if Incomplete(s) then Received([], 0)
    else if HeaderSize(s) == 0 then Endless([])
    else Behind(s[..HeaderSize(s)], Split(s[HeaderSize(s)..]))
  }

  function BehindAll(packets: seq<seq<Byte>>, n: nat, rest: Received): Received {
    match rest
    case Received(more, m) => Received(packets + more, n + m)
    case Endless(more) => Endless(packets + more)
  }

  /** PacketSession::OnRecv; where its loop does not end, the model stops. */
  method OnRecv(s: seq<Byte>) returns (r: Received)
    ensures r == Split(s)
  {
    hide Split, BehindAll;
    var processed, packets := 0, [];
    FromTheStart(s);
    while !Incomplete(s[processed..])
      invariant processed <= |s|
      invariant Split(s) == BehindAll(packets, processed, Split(s[processed..]))
      decreases |s| - processed
    {
      var size := HeaderSize(s[processed..]);
      if size == 0 {
        NoMore(s[processed..], packets, processed);
        return Endless(packets);
      }
      OnePacket(s, processed, packets, size);
      packets := packets + [s[processed..processed + size]];
      processed := processed + size;
    }
    NoMore(s[processed..], packets, processed);
    return Received(packets, processed);
  }

  lemma FromTheStart(s: seq<Byte>)
    ensures Split(s) == BehindAll([], 0, Split(s[0..]))
  {
    assert s[0..] == s && [] + Split(s).packets == Split(s).packets;
  }

  lemma NoMore(s: seq<Byte>, packets: seq<seq<Byte>>, n: nat)
    ensures Incomplete(s) ==> BehindAll(packets, n, Split(s)) == Received(packets, n)
    ensures !Incomplete(s) && HeaderSize(s) == 0 ==> BehindAll(packets, n, Split(s)) == Endless(packets)
  {
    assert packets + [] == packets;
  }

  lemma OnePacket(s: seq<Byte>, p: nat, packets: seq<seq<Byte>>, size: nat)
    requires p <= |s| && !Incomplete(s[p..]) && size == HeaderSize(s[p..]) && size != 0
    ensures BehindAll(packets, p, Split(s[p..]))
            == BehindAll(packets + [s[p..p + size]], p + size, Split(s[p + size..]))
  {
    var rest := Split(s[p + size..]);
    assert s[p..][..size] == s[p..p + size] && s[p..][size..] == s[p + size..];
    assert packets + ([s[p..p + size]] + rest.packets) == packets + [s[p..p + size]] + rest.packets;
  }

  /** Bytes may arrive in any pieces: what is left over of the first piece is looked at again in front of the second. */
  lemma {:induction false} PiecesDoNotMatter(s: seq<Byte>, t: seq<Byte>)
    requires Split(s).Received?
    ensures Split(s).processed <= |s|
    ensures Split(s + t) == BehindAll(Split(s).packets, Split(s).processed, Split(s[Split(s).processed..] + t))
    decreases |s|
  {
    if Incomplete(s) {
      assert s[0..] == s;
      assert [] + Split(s + t).packets == Split(s + t).packets;
    } else {
      var n := HeaderSize(s);
      FirstStays(s, t);
      PiecesDoNotMatter(s[n..], t);
      PiecesBehind(s, t, n, Split(s[n..]));
    }
  }

  lemma FirstStays(s: seq<Byte>, t: seq<Byte>)
    requires !Incomplete(s) && HeaderSize(s) != 0
    ensures Split(s + t) == Behind(s[..HeaderSize(s)], Split(s[HeaderSize(s)..] + t))
    ensures Split(s) == Behind(s[..HeaderSize(s)], Split(s[HeaderSize(s)..]))
  {
    var n := HeaderSize(s);
    assert HeaderSize(s + t) == n;
    assert (s + t)[..n] == s[..n] && (s + t)[n..] == s[n..] + t;
  }

  lemma PiecesBehind(s: seq<Byte>, t: seq<Byte>, n: nat, tail: Received)
    requires n <= |s| && tail.Received? && tail.processed <= |s| - n
    requires Split(s) == Behind(s[..n], tail) && Split(s + t) == Behind(s[..n], Split(s[n..] + t))
    requires Split(s[n..] + t) == BehindAll(tail.packets, tail.processed, Split(s[n..][tail.processed..] + t))
    ensures Split(s + t) == BehindAll(Split(s).packets, Split(s).processed, Split(s[Split(s).processed..] + t))
  {
    hide Split;
    var m := tail.processed;
    assert s[n..][m..] == s[n + m..];
    BehindTwice(s[..n], tail.packets, m, Split(s[n + m..] + t));
  }

  lemma BehindTwice(packet: seq<Byte>, packets: seq<seq<Byte>>, m: nat, rest: Received)
    ensures Behind(packet, BehindAll(packets, m, rest)) == BehindAll([packet] + packets, |packet| + m, rest)
  {
    assert [packet] + (packets + rest.packets) == [packet] + packets + rest.packets;
  }

  function Joined(packets: seq<seq<Byte>>): seq<Byte> {
    if packets == [] then [] else packets[0] + Joined(packets[1..])
  }

  ghost predicate SizesTrue(packets: seq<seq<Byte>>) {
    forall i :: 0 <= i < |packets| ==> PACKET_HEADER <= |packets[i]| == HeaderSize(packets[i])
  }

  /** Packets whose headers tell the truth come out as they went in, and what follows is left for the next time. */
  lemma {:induction false} StreamRoundTrip(packets: seq<seq<Byte>>, tail: seq<Byte>)
    requires SizesTrue(packets) && Incomplete(tail)
    ensures Split(Joined(packets) + tail) == Received(packets, |Joined(packets)|)
  {
    if packets == [] {
      assert Joined(packets) + tail == tail;
    } else {
      var first, s := packets[0], Joined(packets) + tail;
      assert s == first + (Joined(packets[1..]) + tail);
      assert s[..|first|] == first && s[|first|..] == Joined(packets[1..]) + tail;
      StreamRoundTrip(packets[1..], tail);
      assert [first] + packets[1..] == packets;
    }
  }

  // ----- from one side to the other -----

  /** The message in a packet that was passed on, if it parses. */
  function MessageIn(packet: seq<Byte>): Option<LoginValue> {
    if |packet| < PACKET_HEADER then None
    else Parse(LoginAt(RECURSION_LIMIT), NO_LOGIN, packet[PACKET_HEADER..], RECURSION_LIMIT)
  }

  /** The message in the first packet of what was received. */
  function FirstMessage(s: seq<Byte>): Option<LoginValue> {
    var packets := Split(s).packets;
    if packets == [] then None else MessageIn(packets[0])
  }

  /** A packet with a message that fits: its header tells its size, and the message is in it if its names are valid. */
  lemma MessageInPacket(x: LoginValue, id: nat)
    requires LoginTyped(x, RECURSION_LIMIT) && TypesOk(x.players) && id < TWO_TO_16 && Fits(|EncodeLogin(x)|)
    ensures var packet := PacketOf(id, EncodeLogin(x));
            && PACKET_HEADER <= |packet| == HeaderSize(packet)
            && MessageIn(packet) == if NamesValid(x.players) then Some(x) else None
  {
    hide EncodeLogin, Parse;
    PacketRoundTripIff(x, id);
    PayloadParses(x);
    assert PacketOf(id, EncodeLogin(x))[PACKET_HEADER..] == EncodeLogin(x);
  }

  lemma {:induction false} PacketsAreSmall(s: seq<Byte>)
    ensures forall i :: 0 <= i < |Split(s).packets| ==> |Split(s).packets[i]| < TWO_TO_16
    decreases |s|
  {
    if !Incomplete(s) && HeaderSize(s) != 0 { PacketsAreSmall(s[HeaderSize(s)..]); }
  }

  /** The receiving side in a release build. */
  method ReceiveFirst(s: seq<Byte>) returns (received: Option<LoginValue>)
    ensures received == FirstMessage(s)
  {
    hide Parse;
    var r := OnRecv(s);
    if r.packets == [] { return None; }
    PacketsAreSmall(s);
    var packet := r.packets[0];
    var handled := HandlePacket(packet, 0, |packet|, true);
    assert PACKET_HEADER <= |packet| ==> packet[PACKET_HEADER..|packet|] == packet[PACKET_HEADER..];
    return if handled.Message? then Some(handled.pkt.Value()) else None;
  }

  lemma FirstMessageOfPacket(x: LoginValue, id: nat)
    requires LoginTyped(x, RECURSION_LIMIT) && TypesOk(x.players) && id < TWO_TO_16 && Fits(|EncodeLogin(x)|)
    ensures FirstMessage(PacketOf(id, EncodeLogin(x))) == if NamesValid(x.players) then Some(x) else None
  {
    hide EncodeLogin, Parse, MessageIn, HeaderSize;
    var one: seq<seq<Byte>>, none: seq<Byte> := [PacketOf(id, EncodeLogin(x))], [];
    MessageInPacket(x, id);
    assert |one[1..]| == 0 && Joined(one) + none == one[0];
    StreamRoundTrip(one, none);
  }

  /** What one side sends and the other side receives: the message, if it fits in a chunk and its names are valid. A
      buffer of a wrapped size holds less than a header, so nothing of it is passed on. */
  method SendAndReceive(pkt: Login, id: nat, buffers: SendBuffers, anyNonZero: bool)
    returns (received: Option<LoginValue>, outside: bool)
    requires LoginSized(pkt.Value(), RECURSION_LIMIT) && id < TWO_TO_16 && buffers.Valid()
    modifies pkt`cachedSize, pkt.players`cachedSize, buffers, buffers.chunk
    ensures TypesOk(pkt.Value().players)
    ensures received == if Fits(|EncodeLogin(pkt.Value())|) && NamesValid(pkt.Value().players)
                        then Some(old(pkt.Value())) else None
    ensures outside <==> Wraps(|EncodeLogin(pkt.Value())| % TWO_TO_16)
  {
    hide EncodeLogin, LoginSized, FirstMessage, Overran, Closed;
    var r := MakeSendBuffer(pkt, id, buffers, anyNonZero);
    outside := r.outside;
    if !r.Sent? { return None, outside; }
    var bytes := r.buffer[r.at..r.at + r.size];
    Truncations(|EncodeLogin(pkt.Value())|);
    if Fits(|EncodeLogin(pkt.Value())|) {
      SizedIsTyped(pkt.Value());
      FirstMessageOfPacket(pkt.Value(), id);
    } else {
      ShortBytes(bytes);
    }
    received := ReceiveFirst(bytes);
  }

  lemma SizedIsTyped(x: LoginValue)
    requires LoginSized(x, RECURSION_LIMIT)
    ensures LoginTyped(x, RECURSION_LIMIT)
  {
  }

  lemma ShortBytes(bytes: seq<Byte>)
    requires |bytes| < PACKET_HEADER
    ensures FirstMessage(bytes) == None
  {
  }

  lemma PayloadParses(x: LoginValue)
    requires LoginTyped(x, RECURSION_LIMIT) && TypesOk(x.players) && Fits(|EncodeLogin(x)|)
    ensures Parse(LoginAt(RECURSION_LIMIT), NO_LOGIN, EncodeLogin(x), RECURSION_LIMIT)
            == if NamesValid(x.players) then Some(x) else None
  {
    SmallMessageIsOk(x, RECURSION_LIMIT);
    LoginParseMerges(NO_LOGIN, x, RECURSION_LIMIT);
    MergeLoginIntoNothing(x);
  }

  // ----- a message whose packet size wraps around -----

  lemma {:induction false} AsciiValid(n: nat, letter: Byte)
    requires letter < 128
    ensures Utf8(seq(n, _ => letter))
  {
    if n > 0 {
      assert seq(n, _ => letter)[1..] == seq(n - 1, _ => letter);
      AsciiValid(n - 1, letter);
    }
  }

  /** One player with a name of `n` times the same letter, and nothing else. */
  function LongName(n: nat, letter: Byte): LoginValue {
    LoginValue(false, [PlayerValue(0, seq(n, _ => letter), 0, [])], [])
  }

  lemma ThreeByteSize(v: nat)
    requires 0x4000 <= v < 0x20_0000
    ensures |Encode(v)| == 3
  {
    assert Encode(v) == [128 + v % 128] + Encode(v / 128);
    assert Encode(v / 128) == [128 + v / 128 % 128] + Encode(v / 128 / 128);
    assert v / 128 / 128 < 128;
  }

  /** Two tags and two sizes, of a byte and three bytes each, and the name. */
  lemma LongNameEncoded(n: nat, letter: Byte)
    requires 0x4000 <= n < 0x1_0000 && letter < 128
    ensures LoginSized(LongName(n, letter), RECURSION_LIMIT) && NamesValid(LongName(n, letter).players)
    ensures TypesOk(LongName(n, letter).players) && |EncodeLogin(LongName(n, letter))| == n + 8
    ensures EncodeLogin(LongName(n, letter))[8..] == seq(n, _ => letter)
  {
    var x, name := LongName(n, letter), seq(n, _ => letter);
    var p := x.players[0];
    AsciiValid(n, letter);
    ThreeByteSize(n);
    ThreeByteSize(n + 4);
    OneField(Delimited(2, name));
    assert PlayerFields(p) == [Delimited(2, name)];
    assert |EncodePlayer(p)| == n + 4 && EncodePlayer(p)[4..] == name;
    OneField(Delimited(2, EncodePlayer(p)));
    assert x.players[1..] == [];
    assert PlayersFields(x.players) == [Delimited(2, EncodePlayer(p))] + PlayersFields(x.players[1..]);
    assert LoginFields(x) == [Delimited(2, EncodePlayer(p))];
    assert EncodeLogin(x)[4..] == EncodePlayer(p);
  }

  lemma OneField(f: Field)
    ensures EncodeFields([f]) == EncodeField(f)
  {
    assert [f][1..] == [];
  }

  /** An ordinary message that overruns the chunk. In a chunk of which nothing is used, a name of NUL letters stops the
      program, one of letters 1 does not, and for all others it is up to the compiler. */
  lemma NameThatWraps(id: nat, letter: Byte, anyNonZero: bool)
    requires id < TWO_TO_16 && letter < 128
    ensures var x := LongName(65524, letter);
            && LoginSized(x, RECURSION_LIMIT) && NamesValid(x.players) && TypesOk(x.players)
            && Wraps(|EncodeLogin(x)|)
            && (SurvivesClose(Written(id, EncodeLogin(x)), 0, anyNonZero) <==> IsTrue(letter, anyNonZero))
  {
    var payload := EncodeLogin(LongName(65524, letter));
    LongNameEncoded(65524, letter);
    assert Written(id, payload)[OPEN_AT] == payload[OPEN_AT - 4] == payload[8..][OPEN_AT - 12];
  }
}
