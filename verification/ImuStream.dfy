/** What the receiver and its polling loop (src/imu/init_imu.cpp) make of a whole byte stream. */
module ImuStream {
  import opened Wrappers
  import opened ImuCodec
  import opened ImuReceiver

  // ---------------------------------------------------------------------------------------------
  // The receiver over unbounded history
  // ---------------------------------------------------------------------------------------------

  /** The bytes since the last framing byte, after more bytes have arrived. */
  function FrameAfter(frame: seq<byte>, bytes: seq<byte>): seq<byte>
    decreases |bytes|
  {
    if bytes == [] then frame
    else if Framing(bytes[0]) then FrameAfter([], bytes[1..])
    else FrameAfter(frame + [bytes[0]], bytes[1..])
  }

  function AsSeq(u: Option<Update>): seq<Update> {
    match u
    case None => []
    case Some(v) => [v]
  }

  /** Every struct update a byte stream causes, in order. */
  function Updates(frame: seq<byte>, bytes: seq<byte>): seq<Update>
    decreases |bytes|
  {
    if bytes == [] then []
    else if Framing(bytes[0]) then
      AsSeq(FrameUpdate(Retained(frame + [bytes[0]]))) + Updates([], bytes[1..])
    else Updates(frame + [bytes[0]], bytes[1..])
  }

  lemma {:induction false} UpdatesOfConcat(frame: seq<byte>, a: seq<byte>, b: seq<byte>)
    ensures Updates(frame, a + b) == Updates(frame, a) + Updates(FrameAfter(frame, a), b)
    ensures FrameAfter(frame, a + b) == FrameAfter(FrameAfter(frame, a), b)
    decreases |a|
  {
    if a == [] {
      assert a + b == b;
    } else {
      assert (a + b)[0] == a[0] && (a + b)[1..] == a[1..] + b;
      UpdatesOfConcat(if Framing(a[0]) then [] else frame + [a[0]], a[1..], b);
    }
  }

  lemma UpdatesStep(frame: seq<byte>, bytes: seq<byte>, c: byte)
    ensures FrameAfter(frame, bytes + [c]) == if Framing(c) then [] else FrameAfter(frame, bytes) + [c]
    ensures Updates(frame, bytes + [c])
         == Updates(frame, bytes)
            + (if Framing(c) then AsSeq(FrameUpdate(Retained(FrameAfter(frame, bytes) + [c]))) else [])
  {
    UpdatesOfConcat(frame, bytes, [c]);
    assert [c][1..] == [];
  }

  /** Bytes without a framing byte only lengthen the frame. */
  lemma {:induction false} PlainBytes(frame: seq<byte>, bytes: seq<byte>)
    requires forall i :: 0 <= i < |bytes| ==> !Framing(bytes[i])
    ensures FrameAfter(frame, bytes) == frame + bytes && Updates(frame, bytes) == []
    decreases |bytes|
  {
    if bytes == [] {
      assert frame + bytes == frame;
    } else {
      PlainBytes(frame + [bytes[0]], bytes[1..]);
      assert frame + [bytes[0]] + bytes[1..] == frame + bytes;
    }
  }

  /** A struct is updated exactly by a frame whose header matches and whose length modulo 256 is 7
    * (battery), 23 (inertial) or 12 (quaternion).
    */
  lemma UpdatesExactlyWhen(frame: seq<byte>)
    ensures var w := Retained(frame);
            var u := FrameUpdate(w);
            && (u.Some? && u.value.Battery? <==> |frame| % 256 == 7 && PacketByte(w, 0) == 7)
            && (u.Some? && u.value.Inertial? <==> |frame| % 256 == 23 && PacketByte(w, 0) == 9)
            && (u.Some? && u.value.Quaternion? <==> |frame| % 256 == 12 && PacketByte(w, 0) == 10)
  {
  }

  /** The decoded fields do not depend on the framing byte itself. */
  lemma UpdateIgnoresFramingByte(w: seq<byte>, c: byte, d: byte)
    ensures FrameUpdate(w + [c]) == FrameUpdate(w + [d])
  {
    var size := PacketSize(|w| + 1);
    if size == 6 || size == 20 || size == 10 {
      assert |w| == 6 || |w| == 22 || |w| == 11;
      assert forall k :: 0 <= k < |w| ==> (w + [c])[k] == w[k] == (w + [d])[k];
      InterpretSame(Packet(w + [c]), Packet(w + [d]), size);
    }
  }

  /** The code returned for a frame depends on no slot that the frame has not filled, except for a frame of
    * the single byte 0x82, 0x83, 0x84 or 0x85.
    */
  lemma StatusIgnoresUnfilledSlots(length: nat, c: byte)
    requires length > 0 && Framing(c)
    ensures (forall b, d :: SameReceived(b, d, length, c) ==> StatusOf(b, length) == StatusOf(d, length))
            <==> !(length == 1 && 0x82 <= c <= 0x85)
  {
    if length == 1 && 0x82 <= c <= 0x85 {
      var b := seq(256, _ => 0)[0 := c];
      StaleHeader(c);
      var stale := if c == 0x82 then 0xC0 else if c == 0x83 then 0x40 else if c == 0x84 then 0x40 else 0;
      var other := if c == 0x85 then 0x40 else 0;
      assert SameReceived(b[1 := stale], b[1 := other], length, c);
    } else if length == 1 {
      forall b, d | SameReceived(b, d, length, c)
        ensures StatusOf(b, length) == StatusOf(d, length) == NoError
      {
        HarmlessHeader(c, b[1]);
        HarmlessHeader(c, d[1]);
      }
    } else {
      forall b, d | SameReceived(b, d, length, c)
        ensures PacketByte(b, 0) == PacketByte(d, 0)
      {
        var n := if length < 256 then length else 256;
        assert b[0] == b[..n][0] && b[1] == b[..n][1] && d[0] == d[..n][0] && d[1] == d[..n][1];
      }
    }
  }

  /** The code returned for a frame of some length, from the whole receive buffer. */
  function StatusOf(buf: seq<byte>, length: nat): ErrorCode
    requires |buf| == 256
  {
    Status(PacketByte(buf, 0), PacketSize(length % 256))
  }

  /** Two buffers that agree on all slots filled since the last frame by a frame of some length, of which
    * c is the last byte. A frame of 256 bytes or more has filled every slot.
    */
  ghost predicate SameReceived(b: seq<byte>, d: seq<byte>, length: nat, c: byte)
    requires length > 0
  {
    && |b| == 256 == |d|
    && b[(length - 1) % 256] == c
    && b[..if length < 256 then length else 256] == d[..if length < 256 then length else 256]
  }

  lemma StaleHeader(c: byte)
    requires 0x82 <= c <= 0x85
    ensures c == 0x82 ==> Shift(c, 0xC0, 0) == 7 && Shift(c, 0, 0) == 4
    ensures c == 0x83 ==> Shift(c, 0x40, 0) == 7 && Shift(c, 0, 0) == 6
    ensures c == 0x84 ==> Shift(c, 0x40, 0) == 9 && Shift(c, 0, 0) == 8
    ensures c == 0x85 ==> Shift(c, 0, 0) == 10 && Shift(c, 0x40, 0) == 11
  {
  }

  /** The header that a one-byte frame c makes with the stale byte behind it. */
  lemma StaleHeaderValue(c: byte, stale: byte)
    ensures Shift(c, stale, 0) == Byte(2 * (if stale >= 128 then c + 1 - c % 2 else c) + stale / 64 % 2)
  {
    var s := stale / 64;
    OrBy2(c, s / 2, s % 2);
    OrWithOne(c);
  }

  lemma HarmlessHeader(c: byte, stale: byte)
    requires Framing(c) && !(0x82 <= c <= 0x85)
    ensures Shift(c, stale, 0) != 7 && Shift(c, stale, 0) != 9 && Shift(c, stale, 0) != 10
  {
    hide Shift, Or;
    StaleHeaderValue(c, stale);
  }

  /** The receive buffer and its index. */
  datatype Slots = Slots(buf: seq<byte>, index: nat)

  /** One byte more. */
  function Stored(s: Slots, c: byte): (r: Slots)
    requires |s.buf| == 256 && s.index < 256
    ensures |r.buf| == 256 && r.index < 256
  {
    Slots(s.buf[s.index := c], if Framing(c) then 0 else (s.index + 1) % 256)
  }

  /** They start zeroed; this is what a stream of bytes makes of them. */
  function SlotsAfter(bytes: seq<byte>): (s: Slots)
    ensures |s.buf| == 256 && s.index < 256
  {
    if bytes == [] then Slots(seq(256, _ => 0), 0)
    else Stored(SlotsAfter(bytes[..|bytes| - 1]), bytes[|bytes| - 1])
  }

  lemma SlotsStep(bytes: seq<byte>, c: byte)
    ensures SlotsAfter(bytes + [c]) == Stored(SlotsAfter(bytes), c)
    ensures StatusAfter(bytes + [c]) ==
            if Framing(c) then StatusOf(SlotsAfter(bytes + [c]).buf, SlotsAfter(bytes).index + 1) else NoError
  {
    hide StatusOf;
    assert (bytes + [c])[..|bytes|] == bytes;
  }

  /** What processNewChar returns for the last byte of a stream. */
  function StatusAfter(bytes: seq<byte>): ErrorCode
    requires bytes != []
  {
    if Framing(bytes[|bytes| - 1]) then
      StatusOf(SlotsAfter(bytes).buf, SlotsAfter(bytes[..|bytes| - 1]).index + 1)
    else NoError
  }

  /** A new receiver, fed a stream of bytes. */
  method Feed(bytes: seq<byte>) returns (ximu: XimuReceiver, codes: seq<ErrorCode>)
    ensures fresh(ximu) && fresh(ximu.buf) && ximu.Valid()
    ensures ximu.buf[..] == SlotsAfter(bytes).buf && ximu.bufIndex == SlotsAfter(bytes).index
    ensures |codes| == |bytes| && forall k :: 0 <= k < |bytes| ==> codes[k] == StatusAfter(bytes[..k + 1])
  {
    hide SlotsAfter, StatusAfter, FrameUpdate, Deliver, PacketByte, Status, PacketSize, Framing;
    hide XimuReceiver.Valid, XimuReceiver.Decoded, Retained;
    ximu := new XimuReceiver();
    codes := [];
    NoSlots();
    assert bytes[..0] == [];
    for n := 0 to |bytes|
      invariant fresh(ximu) && fresh(ximu.buf) && ximu.Valid()
      invariant ximu.buf[..] == SlotsAfter(bytes[..n]).buf && ximu.bufIndex == SlotsAfter(bytes[..n]).index
      invariant |codes| == n && forall k :: 0 <= k < n ==> codes[k] == StatusAfter(bytes[..k + 1])
    {
      SlotsStep(bytes[..n], bytes[n]);
      assert bytes[..n] + [bytes[n]] == bytes[..n + 1];
      var code := ximu.ProcessNewChar(bytes[n]);
      codes := codes + [code];
    }
    assert bytes[..|bytes|] == bytes;
  }

  lemma NoSlots()
    ensures SlotsAfter([]) == Slots(seq(256, _ => 0), 0)
  {
  }

  /** Nothing is in progress after these bytes. */
  predicate EndsFrame(bytes: seq<byte>) {
    bytes == [] || Framing(bytes[|bytes| - 1])
  }

  /** A frame in progress has filled the same slots with the same bytes whatever came before it. */
  lemma {:induction false} FilledSlotsAgree(h1: seq<byte>, h2: seq<byte>, body: seq<byte>)
    requires EndsFrame(h1) && EndsFrame(h2) && forall i :: 0 <= i < |body| ==> !Framing(body[i])
    ensures SlotsAfter(h1 + body).index == SlotsAfter(h2 + body).index == |body| % 256
    ensures forall i :: 0 <= i < |body| && i < 256 ==> SlotsAfter(h1 + body).buf[i] == SlotsAfter(h2 + body).buf[i]
  {
    hide SlotsAfter, Stored, EndsFrame;
    if body == [] {
      assert h1 + body == h1 && h2 + body == h2;
      NothingInProgress(h1);
      NothingInProgress(h2);
    } else {
      var n := |body| - 1;
      FilledSlotsAgree(h1, h2, body[..n]);
      Regroup(h1, body);
      Regroup(h2, body);
      SlotsStep(h1 + body[..n], body[n]);
      SlotsStep(h2 + body[..n], body[n]);
      StoredAgree(SlotsAfter(h1 + body[..n]), SlotsAfter(h2 + body[..n]), n, body[n]);
    }
  }

  lemma Regroup(h: seq<byte>, body: seq<byte>)
    requires body != []
    ensures h + body == h + body[..|body| - 1] + [body[|body| - 1]]
  {
  }

  lemma WrapsStep(n: nat)
    ensures (n % 256 + 1) % 256 == (n + 1) % 256
  {
    var q := n / 256;
    if n % 256 == 255 {
      assert n + 1 == 256 * (q + 1);
    } else {
      assert n + 1 == 256 * q + (n % 256 + 1);
    }
  }

  lemma StoredAgree(s: Slots, r: Slots, n: nat, c: byte)
    requires |s.buf| == 256 == |r.buf| && s.index == r.index == n % 256 && !Framing(c)
    requires forall i :: 0 <= i < n && i < 256 ==> s.buf[i] == r.buf[i]
    ensures Stored(s, c).index == Stored(r, c).index == (n + 1) % 256
    ensures forall i :: 0 <= i < n + 1 && i < 256 ==> Stored(s, c).buf[i] == Stored(r, c).buf[i]
  {
    WrapsStep(n);
    assert n < 256 ==> n % 256 == n;
  }

  lemma NothingInProgress(h: seq<byte>)
    requires EndsFrame(h)
    ensures SlotsAfter(h).index == 0
  {
  }

  /** The byte that closes the frame fills one more slot. */
  lemma ClosedSlotsAgree(h1: seq<byte>, h2: seq<byte>, body: seq<byte>, c: byte)
    requires EndsFrame(h1) && EndsFrame(h2) && Framing(c) && forall i :: 0 <= i < |body| ==> !Framing(body[i])
    ensures SameReceived(SlotsAfter(h1 + body + [c]).buf, SlotsAfter(h2 + body + [c]).buf, |body| + 1, c)
    ensures StatusAfter(h1 + body + [c]) == StatusOf(SlotsAfter(h1 + body + [c]).buf, |body| + 1)
  {
    hide SlotsAfter, StatusAfter, StatusOf, EndsFrame, SameReceived;
    FilledSlotsAgree(h1, h2, body);
    SlotsStep(h1 + body, c);
    SlotsStep(h2 + body, c);
    SameWithOneMore(SlotsAfter(h1 + body).buf, SlotsAfter(h2 + body).buf, |body|, c);
    StatusOfWrapped(SlotsAfter(h1 + body + [c]).buf, |body|);
  }

  lemma SameWithOneMore(b: seq<byte>, d: seq<byte>, n: nat, c: byte)
    requires |b| == 256 == |d| && forall i :: 0 <= i < n && i < 256 ==> b[i] == d[i]
    ensures SameReceived(b[n % 256 := c], d[n % 256 := c], n + 1, c)
  {
    var filled := if n + 1 < 256 then n + 1 else 256;
    assert n < 256 ==> n % 256 == n;
    var b', d' := b[n % 256 := c], d[n % 256 := c];
    assert forall i :: 0 <= i < filled ==> b'[i] == d'[i];
  }

  lemma StatusOfWrapped(buf: seq<byte>, n: nat)
    requires |buf| == 256
    ensures StatusOf(buf, n % 256 + 1) == StatusOf(buf, n + 1)
  {
    hide Status, PacketByte, PacketSize;
    WrapsStep(n);
  }

  /** A history after which the single byte c is answered otherwise than by a new receiver. */
  function Spoiler(c: byte): (h: seq<byte>)
    ensures EndsFrame(h)
  {
    if c == 0x82 then [0, 0xC0] else [0, 0x40, 0x80]
  }

  lemma SlotsOfTwo(a: byte, b: byte)
    requires !Framing(a)
    ensures SlotsAfter([a, b]).buf[1] == b
    ensures SlotsAfter([a, b]).index == if Framing(b) then 0 else 2
  {
    hide SlotsAfter, StatusAfter, Framing;
    NoSlots();
    SlotsStep([], a);
    SlotsStep([a], b);
    assert [] + [a] == [a] && [a] + [b] == [a, b];
  }

  lemma SpoiledSlots(c: byte)
    ensures SlotsAfter(Spoiler(c)).index == 0
    ensures SlotsAfter(Spoiler(c)).buf[1] == if c == 0x82 then 0xC0 else 0x40
  {
    hide SlotsAfter, StatusAfter;
    if c == 0x82 {
      SlotsOfTwo(0, 0xC0);
    } else {
      SlotsOfTwo(0, 0x40);
      SlotsStep([0, 0x40], 0x80);
      assert [0, 0x40] + [0x80] == [0, 0x40, 0x80];
    }
  }

  lemma StatusOfSingle(h: seq<byte>, c: byte)
    requires SlotsAfter(h).index == 0 && Framing(c)
    ensures StatusAfter(h + [c]) == Status(Shift(c, SlotsAfter(h).buf[1], 0), PacketSize(1))
  {
    hide SlotsAfter, StatusAfter, Status, Shift;
    SlotsStep(h, c);
  }

  lemma SpoilerSpoils(c: byte)
    requires 0x82 <= c <= 0x85
    ensures StatusAfter([c]) != StatusAfter(Spoiler(c) + [c])
  {
    hide SlotsAfter, StatusAfter, Shift, Spoiler;
    StaleHeader(c);
    NoSlots();
    SpoiledSlots(c);
    StatusOfSingle([], c);
    StatusOfSingle(Spoiler(c), c);
    assert [] + [c] == [c];
  }

  /** The returned code, unlike the structs, can depend on the frames received before: exactly for a frame
    * of the single byte 0x82, 0x83, 0x84 or 0x85.
    */
  lemma StatusIgnoresStaleBytes(body: seq<byte>, c: byte)
    requires Framing(c) && forall i :: 0 <= i < |body| ==> !Framing(body[i])
    ensures (forall h1, h2 :: EndsFrame(h1) && EndsFrame(h2) ==>
                                StatusAfter(h1 + body + [c]) == StatusAfter(h2 + body + [c]))
            <==> !(body == [] && 0x82 <= c <= 0x85)
  {
    hide StatusAfter, StatusOf, SlotsAfter, Spoiler;
    if body == [] && 0x82 <= c <= 0x85 {
      SpoilerSpoils(c);
      assert EndsFrame([]) && EndsFrame(Spoiler(c));
      assert [] + body + [c] == [c] && Spoiler(c) + body + [c] == Spoiler(c) + [c];
    } else {
      forall h1, h2 | EndsFrame(h1) && EndsFrame(h2)
        ensures StatusAfter(h1 + body + [c]) == StatusAfter(h2 + body + [c])
      {
        ClosedSlotsAgree(h1, h2, body, c);
        ClosedSlotsAgree(h2, h1, body, c);
        StatusIgnoresUnfilledSlots(|body| + 1, c);
      }
    }
  }

  // ---------------------------------------------------------------------------------------------
  // Packets as the device sends them
  // ---------------------------------------------------------------------------------------------

  type int16 = v: int | -0x8000 <= v < 0x8000

  /** The packets the receiver understands, by their 16-bit fields; the checksum may be any byte. */
  datatype SentPacket =
    | BatteryPacket(battery: int16, thermometer: int16, checksum: byte)
    | InertialPacket(gyrX: int16, gyrY: int16, gyrZ: int16, accX: int16, accY: int16, accZ: int16,
                     magX: int16, magY: int16, magZ: int16, checksum: byte)
    | QuaternionPacket(w: int16, x: int16, y: int16, z: int16, checksum: byte)

  function Hi(v: int16): byte {
    v % 0x1_0000 / 256
  }

  function Lo(v: int16): byte {
    v % 256
  }

  function PacketBytes(p: SentPacket): (bytes: seq<byte>)
    ensures |bytes| == if p.BatteryPacket? then 6 else if p.InertialPacket? then 20 else 10
  {
    match p
    case BatteryPacket(b, t, checksum) =>
      [7, Hi(b), Lo(b), Hi(t), Lo(t), checksum]
    case InertialPacket(gyrX, gyrY, gyrZ, accX, accY, accZ, magX, magY, magZ, checksum) =>
      [9, Hi(gyrX), Lo(gyrX), Hi(gyrY), Lo(gyrY), Hi(gyrZ), Lo(gyrZ),
          Hi(accX), Lo(accX), Hi(accY), Lo(accY), Hi(accZ), Lo(accZ),
          Hi(magX), Lo(magX), Hi(magY), Lo(magY), Hi(magZ), Lo(magZ), checksum]
    case QuaternionPacket(w, x, y, z, checksum) =>
      [10, Hi(w), Lo(w), Hi(x), Lo(x), Hi(y), Lo(y), Hi(z), Lo(z), checksum]
  }

  /** What the fields stand for, in volts, degrees, degrees per second, g and gauss. */
  function Meaning(p: SentPacket): Update {
    match p
    case BatteryPacket(b, t, _) => Battery(BattAndTherm(b as real / 4096.0, t as real / 256.0))
    case InertialPacket(gyrX, gyrY, gyrZ, accX, accY, accZ, magX, magY, magZ, _) =>
      Inertial(InertialAndMag(gyrX as real / 16.0, gyrY as real / 16.0, gyrZ as real / 16.0,
                              accX as real / 2048.0, accY as real / 2048.0, accZ as real / 2048.0,
                              magX as real / 2048.0, magY as real / 2048.0, magZ as real / 2048.0))
    case QuaternionPacket(w, x, y, z, _) =>
      Quaternion(QuaternionData(w as real / 32768.0, x as real / 32768.0, y as real / 32768.0, z as real / 32768.0))
  }

  lemma WordDecodes(v: int16)
    ensures Short(Concat(Hi(v), Lo(v))) == v
  {
    var u := v % 0x1_0000;
    assert v % 256 == u % 256;
    assert 256 * Hi(v) + Lo(v) == u;
  }

  lemma PowersOfTwo()
    ensures PowerOfTwo(4) == 16 && PowerOfTwo(8) == 256 && PowerOfTwo(11) == 2048 && PowerOfTwo(12) == 4096
    ensures PowerOfTwo(15) == 32768
  {
  }

  /** A 16-bit field at decoded bytes k and k+1, by each of the scales in use. */
  lemma FieldDecodes(packet: seq<byte>, k: nat, v: int16)
    requires k + 1 < |packet| && packet[k] == Hi(v) && packet[k + 1] == Lo(v)
    ensures Field(packet, k, 4) == v as real / 16.0
    ensures Field(packet, k, 8) == v as real / 256.0
    ensures Field(packet, k, 11) == v as real / 2048.0
    ensures Field(packet, k, 12) == v as real / 4096.0
    ensures Field(packet, k, 15) == v as real / 32768.0
  {
    hide Short, Concat, Hi, Lo;
    WordDecodes(v);
    PowersOfTwo();
  }

  lemma BatteryBytesAt(p: SentPacket)
    requires p.BatteryPacket?
    ensures PacketBytes(p)[0] == 7
    ensures PacketBytes(p)[1] == Hi(p.battery) && PacketBytes(p)[2] == Lo(p.battery)
    ensures PacketBytes(p)[3] == Hi(p.thermometer) && PacketBytes(p)[4] == Lo(p.thermometer)
  {
  }

  lemma BatteryFieldsDecode(p: SentPacket, packet: seq<byte>)
    requires p.BatteryPacket? && |packet| >= 28
    requires forall k :: 0 <= k < 5 ==> packet[k] == PacketBytes(p)[k]
    ensures packet[0] == 7 && Battery(BatteryFields(packet)) == Meaning(p)
  {
    BatteryBytesAt(p);
    FieldDecodes(packet, 1, p.battery);
    FieldDecodes(packet, 3, p.thermometer);
  }

  lemma InertialBytesAt0To8(p: SentPacket)
    requires p.InertialPacket?
    ensures PacketBytes(p)[0] == 9
    ensures PacketBytes(p)[1] == Hi(p.gyrX) && PacketBytes(p)[2] == Lo(p.gyrX)
    ensures PacketBytes(p)[3] == Hi(p.gyrY) && PacketBytes(p)[4] == Lo(p.gyrY)
    ensures PacketBytes(p)[5] == Hi(p.gyrZ) && PacketBytes(p)[6] == Lo(p.gyrZ)
    ensures PacketBytes(p)[7] == Hi(p.accX) && PacketBytes(p)[8] == Lo(p.accX)
  {
  }

  lemma InertialBytesAt9To18(p: SentPacket)
    requires p.InertialPacket?
    ensures PacketBytes(p)[9] == Hi(p.accY) && PacketBytes(p)[10] == Lo(p.accY)
    ensures PacketBytes(p)[11] == Hi(p.accZ) && PacketBytes(p)[12] == Lo(p.accZ)
    ensures PacketBytes(p)[13] == Hi(p.magX) && PacketBytes(p)[14] == Lo(p.magX)
    ensures PacketBytes(p)[15] == Hi(p.magY) && PacketBytes(p)[16] == Lo(p.magY)
    ensures PacketBytes(p)[17] == Hi(p.magZ) && PacketBytes(p)[18] == Lo(p.magZ)
  {
  }

  lemma InertialFieldsDecode(p: SentPacket, packet: seq<byte>)
    requires p.InertialPacket? && |packet| >= 28
    requires forall k :: 0 <= k < 19 ==> packet[k] == PacketBytes(p)[k]
    ensures packet[0] == 9 && Inertial(InertialFields(packet)) == Meaning(p)
  {
    InertialBytesAt0To8(p);
    InertialBytesAt9To18(p);
    FieldDecodes(packet, 1, p.gyrX);
    FieldDecodes(packet, 3, p.gyrY);
    FieldDecodes(packet, 5, p.gyrZ);
    FieldDecodes(packet, 7, p.accX);
    FieldDecodes(packet, 9, p.accY);
    FieldDecodes(packet, 11, p.accZ);
    FieldDecodes(packet, 13, p.magX);
    FieldDecodes(packet, 15, p.magY);
    FieldDecodes(packet, 17, p.magZ);
  }

  lemma QuaternionBytesAt(p: SentPacket)
    requires p.QuaternionPacket?
    ensures PacketBytes(p)[0] == 10
    ensures PacketBytes(p)[1] == Hi(p.w) && PacketBytes(p)[2] == Lo(p.w)
    ensures PacketBytes(p)[3] == Hi(p.x) && PacketBytes(p)[4] == Lo(p.x)
    ensures PacketBytes(p)[5] == Hi(p.y) && PacketBytes(p)[6] == Lo(p.y)
    ensures PacketBytes(p)[7] == Hi(p.z) && PacketBytes(p)[8] == Lo(p.z)
  {
  }

  lemma QuaternionFieldsDecode(p: SentPacket, packet: seq<byte>)
    requires p.QuaternionPacket? && |packet| >= 28
    requires forall k :: 0 <= k < 9 ==> packet[k] == PacketBytes(p)[k]
    ensures packet[0] == 10 && Quaternion(QuaternionFields(packet)) == Meaning(p)
  {
    QuaternionBytesAt(p);
    FieldDecodes(packet, 1, p.w);
    FieldDecodes(packet, 3, p.x);
    FieldDecodes(packet, 5, p.y);
    FieldDecodes(packet, 7, p.z);
  }

  /** The receiver reads back the meaning of an undamaged packet. */
  lemma InterpretInvertsPacketBytes(p: SentPacket, packet: seq<byte>)
    requires |packet| >= 28
    requires forall k :: 0 <= k < |PacketBytes(p)| - 1 ==> packet[k] == PacketBytes(p)[k]
    ensures Interpret(packet, |PacketBytes(p)|) == Some(Meaning(p))
  {
    if p.BatteryPacket? {
      BatteryFieldsDecode(p, packet);
    } else if p.InertialPacket? {
      InertialFieldsDecode(p, packet);
    } else {
      QuaternionFieldsDecode(p, packet);
    }
  }

  lemma FrameUpdateInvertsEncode(p: SentPacket)
    ensures FrameUpdate(Encode(PacketBytes(p))) == Some(Meaning(p))
  {
    var bytes := PacketBytes(p);
    var e := Encode(bytes);
    forall k | 0 <= k < |bytes| - 1
      ensures Packet(e)[k] == bytes[k]
    {
      RepackInvertsEncode(bytes, k);
    }
    RepackInvertsEncode(bytes, 0);
    InterpretInvertsPacketBytes(p, Packet(e));
  }

  // ---------------------------------------------------------------------------------------------
  // Whole streams
  // ---------------------------------------------------------------------------------------------

  function EncodeAll(ps: seq<SentPacket>): seq<byte> {
    if ps == [] then [] else Encode(PacketBytes(ps[0])) + EncodeAll(ps[1..])
  }

  function Meanings(ps: seq<SentPacket>): seq<Update> {
    if ps == [] then [] else [Meaning(ps[0])] + Meanings(ps[1..])
  }

  lemma ClosingByte(body: seq<byte>, c: byte)
    requires FrameAfter([], body) == body && Updates([], body) == [] && Framing(c)
    ensures Updates([], body + [c]) == AsSeq(FrameUpdate(Retained(body + [c]))) && FrameAfter([], body + [c]) == []
  {
    UpdatesStep([], body, c);
  }

  lemma PlainFrame(body: seq<byte>)
    requires forall g :: 0 <= g < |body| ==> !Framing(body[g])
    ensures FrameAfter([], body) == body && Updates([], body) == []
  {
    PlainBytes([], body);
    assert [] + body == body;
  }

  lemma RetainedShortFrame(frame: seq<byte>)
    requires |frame| < 256
    ensures Retained(frame) == frame
  {
  }

  /** One frame of fewer than 256 bytes, received from a frame boundary. */
  lemma OneFrame(body: seq<byte>, c: byte)
    requires |body| < 255 && Framing(c)
    requires forall g :: 0 <= g < |body| ==> !Framing(body[g])
    ensures Updates([], body + [c]) == AsSeq(FrameUpdate(body + [c])) && FrameAfter([], body + [c]) == []
  {
    PlainFrame(body);
    ClosingByte(body, c);
    RetainedShortFrame(body + [c]);
  }

  /** One encoded packet gives its one update and ends at a frame boundary. */
  lemma OnePacket(p: SentPacket)
    ensures Updates([], Encode(PacketBytes(p))) == [Meaning(p)]
    ensures FrameAfter([], Encode(PacketBytes(p))) == []
  {
    var e := Encode(PacketBytes(p));
    var n := |e| - 1;
    forall g: nat | g < |e|
      ensures Framing(e[g]) <==> g == n
    {
      FramingOnlyAtEnd(PacketBytes(p), g);
    }
    OneFrame(e[..n], e[n]);
    assert e[..n] + [e[n]] == e;
    FrameUpdateInvertsEncode(p);
  }

  lemma {:induction false} ManyPackets(ps: seq<SentPacket>)
    ensures Updates([], EncodeAll(ps)) == Meanings(ps) && FrameAfter([], EncodeAll(ps)) == []
  {
    if ps != [] {
      OnePacket(ps[0]);
      ManyPackets(ps[1..]);
      UpdatesOfConcat([], Encode(PacketBytes(ps[0])), EncodeAll(ps[1..]));
    }
  }

  /** Round trip with resynchronisation: whatever came before, after any byte with its top bit set
    * every encoded packet is decoded, in order, to exactly what its fields mean.
    */
  lemma StreamRoundTrip(frame: seq<byte>, junk: seq<byte>, sync: byte, ps: seq<SentPacket>)
    requires Framing(sync)
    ensures Updates(frame, junk + [sync] + EncodeAll(ps)) == Updates(frame, junk + [sync]) + Meanings(ps)
    ensures FrameAfter(frame, junk + [sync] + EncodeAll(ps)) == []
  {
    UpdatesOfConcat(frame, junk, [sync]);
    assert [sync][1..] == [];
    assert FrameAfter(frame, junk + [sync]) == [];
    UpdatesOfConcat(frame, junk + [sync], EncodeAll(ps));
    ManyPackets(ps);
  }

  // ---------------------------------------------------------------------------------------------
  // What the receiver answers and keeps
  // ---------------------------------------------------------------------------------------------

  /** The answer to a framing byte: an error if and only if the header is known and the size is not its own. */
  lemma StatusIs(header: byte, size: int)
    ensures Status(header, size) == InvalidNumBytesForPacketHeader <==>
              (header == 7 && size != 6) || (header == 9 && size != 20) || (header == 10 && size != 10)
    ensures Status(header, size) == InvalidNumBytesForPacketHeader || Status(header, size) == NoError
  {
  }

  /** A well-formed packet, sent after any history that ends a frame, is answered without an error. */
  lemma WellFormedIsAccepted(h: seq<byte>, p: SentPacket)
    requires EndsFrame(h)
    ensures StatusAfter(h + Encode(PacketBytes(p))) == NoError
  {
    hide SlotsAfter, StatusAfter, StatusOf, Encode, PacketBytes, EndsFrame;
    var e := Encode(PacketBytes(p));
    var n := |e| - 1;
    EncodedFrame(p);
    assert e == e[..n] + [e[n]];
    assert h + e == h + e[..n] + [e[n]];
    ClosedSlotsAgree(h, h, e[..n], e[n]);
    HeaderSlots(h, p);
    StatusOfPacket(SlotsAfter(h + e).buf, p);
  }

  lemma EncodedFrame(p: SentPacket)
    ensures |Encode(PacketBytes(p))| > 2 && Framing(Encode(PacketBytes(p))[|Encode(PacketBytes(p))| - 1])
    ensures forall g :: 0 <= g < |Encode(PacketBytes(p))| - 1 ==> !Framing(Encode(PacketBytes(p))[g])
  {
    hide PacketBytes;
    forall g | 0 <= g < |Encode(PacketBytes(p))|
      ensures Framing(Encode(PacketBytes(p))[g]) <==> g == |Encode(PacketBytes(p))| - 1
    {
      FramingOnlyAtEnd(PacketBytes(p), g);
    }
  }

  /** The first slots after a frame are its first bytes. */
  lemma {:induction false} BodySlots(h: seq<byte>, body: seq<byte>, i: nat)
    requires EndsFrame(h) && i < |body| < 256 && forall k :: 0 <= k < |body| ==> !Framing(body[k])
    ensures SlotsAfter(h + body).buf[i] == body[i]
  {
    hide SlotsAfter, EndsFrame;
    var n := |body| - 1;
    Regroup(h, body);
    SlotsStep(h + body[..n], body[n]);
    FilledSlotsAgree(h, h, body[..n]);
    if i < n {
      BodySlots(h, body[..n], i);
    }
  }

  lemma HeaderSlots(h: seq<byte>, p: SentPacket)
    requires EndsFrame(h)
    ensures var e := Encode(PacketBytes(p));
            var buf := SlotsAfter(h + e).buf;
            |e| > 2 && buf[0] == e[0] && buf[1] == e[1]
  {
    hide SlotsAfter, EndsFrame, Encode, PacketBytes;
    var e := Encode(PacketBytes(p));
    var n := |e| - 1;
    EncodedFrame(p);
    EncodedShort(p);
    assert e == e[..n] + [e[n]];
    assert h + e == h + e[..n] + [e[n]];
    BodySlots(h, e[..n], 0);
    BodySlots(h, e[..n], 1);
    FilledSlotsAgree(h, h, e[..n]);
    SlotsStep(h + e[..n], e[n]);
  }

  lemma EncodedShort(p: SentPacket)
    ensures |Encode(PacketBytes(p))| < 30
  {
    hide PacketBytes;
  }

  lemma StatusOfPacket(buf: seq<byte>, p: SentPacket)
    requires |buf| == 256 && |Encode(PacketBytes(p))| > 2
    requires buf[0] == Encode(PacketBytes(p))[0] && buf[1] == Encode(PacketBytes(p))[1]
    ensures StatusOf(buf, |Encode(PacketBytes(p))|) == NoError
  {
    hide Shift, Encode, PacketBytes, PacketSize, Status;
    RepackInvertsEncode(PacketBytes(p), 0);
    EncodedShort(p);
    PacketHeader(p);
    StatusIs(PacketByte(buf, 0), |PacketBytes(p)|);
  }

  lemma PacketHeader(p: SentPacket)
    ensures PacketBytes(p)[0] == if p.BatteryPacket? then 7 else if p.InertialPacket? then 9 else 10
  {
  }

  /** One more update replaces the struct of its kind, raises the flag of its kind, and touches no other. */
  lemma OneMoreUpdate(o: Outputs, us: seq<Update>, u: Update)
    ensures var before, after := DeliverAll(o, us), DeliverAll(o, us + [u]);
            && (u.Battery? ==> after == before.(battAndTherm := u.battAndTherm, battAndThermReady := true))
            && (u.Inertial? ==> after == before.(inertialAndMag := u.inertialAndMag, inertialAndMagReady := true))
            && (u.Quaternion? ==> after == before.(quaternion := u.quaternion, quaternionReady := true))
  {
    assert (us + [u])[..|us|] == us;
  }

  // ---------------------------------------------------------------------------------------------
  // The polling loop
  // ---------------------------------------------------------------------------------------------

  /** The bytes among the results of successive reads. */
  function Received(polls: seq<Option<byte>>): seq<byte> {
    if polls == [] then []
    else Received(polls[..|polls| - 1]) + (match polls[|polls| - 1] case None => [] case Some(c) => [c])
  }

  function Quaternions(us: seq<Update>): seq<QuaternionData> {
    if us == [] then []
    else (if us[0].Quaternion? then [us[0].quaternion] else []) + Quaternions(us[1..])
  }

  function DeliverAll(o: Outputs, us: seq<Update>): Outputs {
    if us == [] then o else Deliver(DeliverAll(o, us[..|us| - 1]), Some(us[|us| - 1]))
  }

  lemma {:induction false} QuaternionsOfConcat(a: seq<Update>, b: seq<Update>)
    ensures Quaternions(a + b) == Quaternions(a) + Quaternions(b)
  {
    if a == [] {
      assert a + b == b;
    } else {
      assert (a + b)[0] == a[0] && (a + b)[1..] == a[1..] + b;
      QuaternionsOfConcat(a[1..], b);
    }
  }

  /** The quaternions among sent packets, as the orientation is computed from them. */
  function SentQuaternions(ps: seq<SentPacket>): seq<QuaternionData> {
    if ps == [] then []
    else (match ps[0]
          case QuaternionPacket(w, x, y, z, _) =>
            [QuaternionData(w as real / 32768.0, x as real / 32768.0, y as real / 32768.0, z as real / 32768.0)]
          case _ => [])
         + SentQuaternions(ps[1..])
  }

  lemma {:induction false} QuaternionsOfMeanings(ps: seq<SentPacket>)
    ensures Quaternions(Meanings(ps)) == SentQuaternions(ps)
  {
    if ps != [] {
      QuaternionsOfMeanings(ps[1..]);
      assert Meanings(ps)[1..] == Meanings(ps[1..]);
    }
  }

  /** What one poll of the port delivers. */
  function PollUpdate(frame: seq<byte>, poll: Option<byte>): Option<Update> {
    match poll
    case None => None
    case Some(c) => if Framing(c) then FrameUpdate(Retained(frame + [c])) else None
  }

  /** A delivery readies the quaternion if it is one, and otherwise leaves it alone. */
  lemma DeliverReadies(o: Outputs, u: Option<Update>)
    ensures u.None? ==> Deliver(o, u) == o
    ensures Deliver(o, u).quaternionReady == (o.quaternionReady || (u.Some? && u.value.Quaternion?))
    ensures u.Some? && u.value.Quaternion? ==> Deliver(o, u).quaternion == u.value.quaternion
  {
  }

  /** The body of the loop. The orientation of the vehicle is computed from the quaternion returned. */
  method Poll(ximu: XimuReceiver, poll: Option<byte>) returns (published: Option<QuaternionData>)
    requires ximu.Valid() && !ximu.quaternionGetReady
    modifies ximu, ximu.buf
    ensures ximu.Valid() && !ximu.quaternionGetReady
    ensures ximu.frame == FrameAfter(old(ximu.frame), Received([poll]))
    ensures var u := PollUpdate(old(ximu.frame), poll);
            && published == (if u.Some? && u.value.Quaternion? then Some(u.value.quaternion) else None)
            && ximu.Decoded() == Deliver(old(ximu.Decoded()), u).(quaternionReady := false)
  {
    hide FrameUpdate, Retained, PacketByte, Status, PacketSize, Deliver;
    ReceivedStep([], poll);
    if poll.Some? {
      assert [poll.value][1..] == [];
      var code := ximu.ProcessNewChar(poll.value);
    }
    DeliverReadies(old(ximu.Decoded()), PollUpdate(old(ximu.frame), poll));
    published := None;
    if ximu.IsQuaternionGetReady() {
      var q := ximu.GetQuaternion();
      published := Some(q);
    }
  }

  lemma UpdateStep(us: seq<Update>, u: Option<Update>, o: Outputs)
    ensures Quaternions(us + AsSeq(u))
         == Quaternions(us) + (if u.Some? && u.value.Quaternion? then [u.value.quaternion] else [])
    ensures DeliverAll(o, us + AsSeq(u)) == Deliver(DeliverAll(o, us), u)
  {
    assert us + [] == us;
    QuaternionsOfConcat(us, AsSeq(u));
    if u.Some? {
      assert [u.value][1..] == [] && (us + [u.value])[..|us|] == us;
    }
  }

  lemma ReceivedStep(polls: seq<Option<byte>>, poll: Option<byte>)
    ensures Received([poll]) == if poll.Some? then [poll.value] else []
    ensures Received(polls + [poll]) == Received(polls) + Received([poll])
  {
    assert (polls + [poll])[..|polls|] == polls && [poll][..0] == [];
  }

  lemma UpdatesOfPoll(frame: seq<byte>, poll: Option<byte>)
    ensures Updates(frame, Received([poll])) == AsSeq(PollUpdate(frame, poll))
  {
    hide FrameUpdate, Retained;
    ReceivedStep([], poll);
    if poll.Some? {
      assert [poll.value][1..] == [];
    }
  }

  /** How the specification moves on by one poll. */
  lemma PollStep(frame: seq<byte>, polls: seq<Option<byte>>, poll: Option<byte>, o: Outputs)
    ensures var us, u := Updates(frame, Received(polls)), PollUpdate(FrameAfter(frame, Received(polls)), poll);
            && FrameAfter(frame, Received(polls + [poll]))
               == FrameAfter(FrameAfter(frame, Received(polls)), Received([poll]))
            && Updates(frame, Received(polls + [poll])) == us + AsSeq(u)
            && Quaternions(us + AsSeq(u))
               == Quaternions(us) + (if u.Some? && u.value.Quaternion? then [u.value.quaternion] else [])
            && DeliverAll(o, us + AsSeq(u)) == Deliver(DeliverAll(o, us), u)
  {
    hide FrameUpdate, Retained, Updates, FrameAfter, Quaternions, DeliverAll, Deliver, AsSeq, PollUpdate, Received;
    var bytes := Received(polls);
    ReceivedStep(polls, poll);
    UpdatesOfConcat(frame, bytes, Received([poll]));
    UpdatesOfPoll(FrameAfter(frame, bytes), poll);
    UpdateStep(Updates(frame, bytes), PollUpdate(FrameAfter(frame, bytes), poll), o);
  }

  lemma NothingReceived(frame: seq<byte>, o: Outputs)
    ensures FrameAfter(frame, Received([])) == frame && Updates(frame, Received([])) == []
    ensures Quaternions([]) == [] && DeliverAll(o, []) == o
  {
  }

  lemma NotReady(ximu: XimuReceiver)
    requires !ximu.quaternionGetReady
    ensures ximu.Decoded() == ximu.Decoded().(quaternionReady := false)
  {
  }

  /** The endless loop of init_imu over any number of polls: one orientation is published for every
    * quaternion update, in order.
    */
  method InitImu(ximu: XimuReceiver, polls: seq<Option<byte>>) returns (published: seq<QuaternionData>)
    requires ximu.Valid() && !ximu.quaternionGetReady
    modifies ximu, ximu.buf
    ensures ximu.Valid() && !ximu.quaternionGetReady
    ensures ximu.frame == FrameAfter(old(ximu.frame), Received(polls))
    ensures published == Quaternions(Updates(old(ximu.frame), Received(polls)))
    ensures ximu.Decoded() ==
            DeliverAll(old(ximu.Decoded()), Updates(old(ximu.frame), Received(polls))).(quaternionReady := false)
  {
    hide FrameUpdate, FrameAfter, Received, Updates, Quaternions, DeliverAll, PollUpdate, AsSeq;
    hide XimuReceiver.Valid, XimuReceiver.Decoded;
    published := [];
    ghost var frame0, decoded0 := ximu.frame, ximu.Decoded();
    assert polls[..0] == [];
    NothingReceived(frame0, decoded0);
    NotReady(ximu);
    for n := 0 to |polls|
      invariant ximu.Valid() && !ximu.quaternionGetReady
      invariant ximu.frame == FrameAfter(frame0, Received(polls[..n]))
      invariant published == Quaternions(Updates(frame0, Received(polls[..n])))
      invariant ximu.Decoded() == DeliverAll(decoded0, Updates(frame0, Received(polls[..n]))).(quaternionReady := false)
    {
      PollStep(frame0, polls[..n], polls[n], decoded0);
      assert polls[..n] + [polls[n]] == polls[..n + 1];
      var q := Poll(ximu, polls[n]);
      if q.Some? {
        published := published + [q.value];
      }
    }
    assert polls[..|polls|] == polls;
  }

  /** Nothing lost, repeated or reordered: after any prefix and any framing byte, the loop publishes
    * one orientation for each quaternion packet sent, in the order sent.
    */
  lemma EveryQuaternionPublishedOnce(frame: seq<byte>, junk: seq<byte>, sync: byte, ps: seq<SentPacket>)
    requires Framing(sync)
    ensures Quaternions(Updates(frame, junk + [sync] + EncodeAll(ps)))
         == Quaternions(Updates(frame, junk + [sync])) + SentQuaternions(ps)
  {
    StreamRoundTrip(frame, junk, sync, ps);
    QuaternionsOfConcat(Updates(frame, junk + [sync]), Meanings(ps));
    QuaternionsOfMeanings(ps);
  }
}
