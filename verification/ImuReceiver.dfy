/** The byte-at-a-time receiver of the x-IMU stream (src/imu/imu_receiver.cpp). */
module ImuReceiver {
  import opened Wrappers
  import opened ImuCodec

  datatype BattAndTherm = BattAndTherm(battery: real, thermometer: real)

  datatype InertialAndMag = InertialAndMag(
    gyrX: real, gyrY: real, gyrZ: real,
    accX: real, accY: real, accZ: real,
    magX: real, magY: real, magZ: real)

  datatype QuaternionData = QuaternionData(w: real, x: real, y: real, z: real)

  /** What a closed frame may deliver. */
  datatype Update =
    | Battery(battAndTherm: BattAndTherm)
    | Inertial(inertialAndMag: InertialAndMag)
    | Quaternion(quaternion: QuaternionData)

  datatype ErrorCode = NoError | InvalidNumBytesForPacketHeader

  const PKT_CAL_BATTERY_AND_THERMOMETER_DATA: byte := 7
  const PKT_CAL_INERTIAL_AND_MAGNETIC_DATA: byte := 9
  const PKT_QUATERNION_DATA: byte := 10

  const LEN_CAL_BATTERY_AND_THERMOMETER_DATA := 6
  const LEN_CAL_INERTIAL_AND_MAGNETIC_DATA := 20
  const LEN_QUATERNION_DATA := 10

  const Q_CALIBRATED_BATTERY := 12
  const Q_CALIBRATED_THERMOMETER := 8
  const Q_CALIBRATED_GYROSCOPE := 4
  const Q_CALIBRATED_ACCELEROMETER := 11
  const Q_CALIBRATED_MAGNETOMETER := 11
  const Q_QUATERNION := 15

  // ---------------------------------------------------------------------------------------------
  // Fields
  // ---------------------------------------------------------------------------------------------

  function PowerOfTwo(q: nat): (p: nat)
    ensures p > 0
  {
    if q == 0 then 1 else 2 * PowerOfTwo(q - 1)
  }

  /** The unsigned short made of two bytes. */
  function Concat(msb: byte, lsb: byte): nat {
    256 * msb + lsb
  }

  /** The sum above is the or of the code, because the two halves have no bit in common. */
  lemma ConcatIsOr(msb: byte, lsb: byte)
    ensures Concat(msb, lsb) == Or(256 * msb, lsb)
  {
    OrBy2(128 * msb, lsb / 2, lsb % 2);
    OrBy(7, msb, 0, lsb / 2);
    OrWithOne(msb);
  }

  /** Conversion of an unsigned short to a short. */
  function Short(u: nat): int {
    if u < 0x8000 then u else u - 0x1_0000
  }

  /** A 16-bit integer over a power of two is exact in binary32, so a real division models it. */
  function FixedToFloat(fixed: int, q: nat): real {
    fixed as real / PowerOfTwo(q) as real
  }

  function Scaled(msb: byte, lsb: byte, q: nat): real {
    FixedToFloat(Short(Concat(msb, lsb)), q)
  }

  /** The field made of decoded bytes k and k+1. */
  function Field(packet: seq<byte>, k: nat, q: nat): real
    requires k + 1 < |packet|
  {
    Scaled(packet[k], packet[k + 1], q)
  }

  // ---------------------------------------------------------------------------------------------
  // A closed frame
  // ---------------------------------------------------------------------------------------------

  /** The last |frame| mod 256 bytes of a frame: all that a wrapping index leaves behind. */
  function Retained(frame: seq<byte>): (w: seq<byte>)
    ensures |w| == |frame| % 256
  {
    frame[|frame| - |frame| % 256..]
  }

  lemma NothingRetained()
    ensures Retained([]) == []
  {
  }

  /** Storing one more byte at the wrapping index keeps the buffer in step with the frame. */
  lemma RetainedExtends(frame: seq<byte>, buf: seq<byte>, c: byte)
    requires |buf| == 256 && buf[..|frame| % 256] == Retained(frame)
    ensures buf[|frame| % 256 := c][..|frame + [c]| % 256] == Retained(frame + [c])
  {
    var n := |frame| % 256;
    if n == 255 {
      assert |frame + [c]| % 256 == 0;
    } else {
      assert |frame + [c]| % 256 == n + 1;
      assert buf[n := c][..n + 1] == buf[..n] + [c];
      assert (frame + [c])[|frame| - n..] == frame[|frame| - n..] + [c];
    }
  }

  /** The first 28 decoded bytes of a receive buffer; zero where the received bytes do not reach. */
  function Packet(w: seq<byte>): (packet: seq<byte>)
    ensures |packet| == 28
  {
    seq(28, k requires 0 <= k < 28 => if k + k / 7 + 1 < |w| then PacketByte(w, k) else 0)
  }

  /** p holds the 28 bytes that a whole receive buffer decodes to. */
  ghost predicate Decodes(p: seq<byte>, buf: seq<byte>)
    requires |buf| == 256
  {
    |p| == 28 && forall k {:trigger PacketByte(buf, k)} :: 0 <= k < 28 ==> p[k] == PacketByte(buf, k)
  }

  lemma PacketDecodes(buf: seq<byte>)
    requires |buf| == 256
    ensures Decodes(Packet(buf), buf)
  {
  }

  function BatteryFields(packet: seq<byte>): BattAndTherm
    requires |packet| >= 28
  {
    BattAndTherm(Field(packet, 1, Q_CALIBRATED_BATTERY), Field(packet, 3, Q_CALIBRATED_THERMOMETER))
  }

  function InertialFields(packet: seq<byte>): InertialAndMag
    requires |packet| >= 28
  {
    InertialAndMag(
      Field(packet, 1, Q_CALIBRATED_GYROSCOPE),
      Field(packet, 3, Q_CALIBRATED_GYROSCOPE),
      Field(packet, 5, Q_CALIBRATED_GYROSCOPE),
      Field(packet, 7, Q_CALIBRATED_ACCELEROMETER),
      Field(packet, 9, Q_CALIBRATED_ACCELEROMETER),
      Field(packet, 11, Q_CALIBRATED_ACCELEROMETER),
      Field(packet, 13, Q_CALIBRATED_MAGNETOMETER),
      Field(packet, 15, Q_CALIBRATED_MAGNETOMETER),
      Field(packet, 17, Q_CALIBRATED_MAGNETOMETER))
  }

  function QuaternionFields(packet: seq<byte>): QuaternionData
    requires |packet| >= 28
  {
    QuaternionData(
      Field(packet, 1, Q_QUATERNION), Field(packet, 3, Q_QUATERNION),
      Field(packet, 5, Q_QUATERNION), Field(packet, 7, Q_QUATERNION))
  }

  /** What a packet of the computed size delivers. */
  function Interpret(packet: seq<byte>, size: int): Option<Update>
    requires |packet| >= 28
  {
    var header := packet[0];
    if header == PKT_CAL_BATTERY_AND_THERMOMETER_DATA && size == LEN_CAL_BATTERY_AND_THERMOMETER_DATA then
      Some(Battery(BatteryFields(packet)))
    else if header == PKT_CAL_INERTIAL_AND_MAGNETIC_DATA && size == LEN_CAL_INERTIAL_AND_MAGNETIC_DATA then
      Some(Inertial(InertialFields(packet)))
    else if header == PKT_QUATERNION_DATA && size == LEN_QUATERNION_DATA then
      Some(Quaternion(QuaternionFields(packet)))
    else None
  }

  /** What a closed frame delivers, given the bytes retained of it. */
  function FrameUpdate(w: seq<byte>): Option<Update> {
    Interpret(Packet(w), PacketSize(|w|))
  }

  /** The code returned for a closed frame. */
  function Status(header: byte, size: int): ErrorCode {
    if || (header == PKT_CAL_BATTERY_AND_THERMOMETER_DATA && size != LEN_CAL_BATTERY_AND_THERMOMETER_DATA)
       || (header == PKT_CAL_INERTIAL_AND_MAGNETIC_DATA && size != LEN_CAL_INERTIAL_AND_MAGNETIC_DATA)
       || (header == PKT_QUATERNION_DATA && size != LEN_QUATERNION_DATA)
    then InvalidNumBytesForPacketHeader
    else NoError
  }

  /** The update the code computes from its whole buffer is the one the retained bytes determine:
    * what earlier frames left behind in the buffer never reaches a decoded struct.
    */
  lemma UpdateIgnoresStaleBytes(buf: seq<byte>, index: nat)
    requires |buf| == 256 && index < 256
    ensures Interpret(Packet(buf), PacketSize(index)) == FrameUpdate(buf[..index])
  {
    if PacketSize(index) == 6 || PacketSize(index) == 20 || PacketSize(index) == 10 {
      InterpretSame(Packet(buf), Packet(buf[..index]), PacketSize(index));
    }
  }

  lemma InterpretSame(packet: seq<byte>, other: seq<byte>, size: int)
    requires |packet| >= 28 && |other| >= 28
    requires forall k :: 0 <= k < size - 1 && k < 28 ==> packet[k] == other[k]
    ensures size > 1 ==> Interpret(packet, size) == Interpret(other, size)
  {
  }

  /** The decoded data and the flags that announce it. */
  datatype Outputs = Outputs(
    battAndTherm: BattAndTherm, inertialAndMag: InertialAndMag, quaternion: QuaternionData,
    battAndThermReady: bool, inertialAndMagReady: bool, quaternionReady: bool)

  function Deliver(o: Outputs, u: Option<Update>): Outputs {
    match u
    case None => o
    case Some(Battery(b)) => o.(battAndTherm := b, battAndThermReady := true)
    case Some(Inertial(i)) => o.(inertialAndMag := i, inertialAndMagReady := true)
    case Some(Quaternion(q)) => o.(quaternion := q, quaternionReady := true)
  }

  // ---------------------------------------------------------------------------------------------
  // The receiver object
  // ---------------------------------------------------------------------------------------------

  class XimuReceiver {
    const buf: array<byte>
    var bufIndex: nat
    var battAndTherm: BattAndTherm
    var inertialAndMag: InertialAndMag
    var quaternion: QuaternionData
    var battAndThermGetReady: bool
    var inertialAndMagGetReady: bool
    var quaternionGetReady: bool

    /** All bytes since the last framing byte, however many. */
    ghost var frame: seq<byte>

    ghost predicate Valid()
      reads this, buf
    {
      && buf.Length == 256
      && bufIndex == |frame| % 256
      && buf[..bufIndex] == Retained(frame)
      && (forall i :: 0 <= i < |frame| ==> !Framing(frame[i]))
    }

    ghost function Decoded(): Outputs
      reads this
    {
      Outputs(battAndTherm, inertialAndMag, quaternion,
              battAndThermGetReady, inertialAndMagGetReady, quaternionGetReady)
    }

    /** The one instance is a global variable, so it starts zeroed. */
    constructor ()
      ensures Valid() && fresh(buf) && frame == [] && bufIndex == 0
      ensures forall i :: 0 <= i < 256 ==> buf[i] == 0
      ensures Decoded() == Outputs(BattAndTherm(0.0, 0.0),
                                   InertialAndMag(0.0, 0.0, 0.0, 0.0, 0.0, 0.0, 0.0, 0.0, 0.0),
                                   QuaternionData(0.0, 0.0, 0.0, 0.0), false, false, false)
    {
      buf := new byte[256](_ => 0);
      bufIndex := 0;
      battAndTherm := BattAndTherm(0.0, 0.0);
      inertialAndMag := InertialAndMag(0.0, 0.0, 0.0, 0.0, 0.0, 0.0, 0.0, 0.0, 0.0);
      quaternion := QuaternionData(0.0, 0.0, 0.0, 0.0);
      battAndThermGetReady, inertialAndMagGetReady, quaternionGetReady := false, false, false;
      frame := [];
    }

    // The 28 unrolled lines that drop the top bit of every received byte, by groups of seven.

    method Lines0To6(packet: array<byte>, ghost p: seq<byte>)
      requires packet != buf && packet.Length == 256 == buf.Length && Decodes(p, buf[..])
      modifies packet
      ensures packet[0..7] == p[0..7]
    {
      ghost var b := buf[..];
      packet[0] := Byte(Or(buf[0] as int * 2, buf[1] / 64));
      packet[1] := Byte(Or(buf[1] as int * 4, buf[2] / 32));
      packet[2] := Byte(Or(buf[2] as int * 8, buf[3] / 16));
      packet[3] := Byte(Or(buf[3] as int * 16, buf[4] / 8));
      packet[4] := Byte(Or(buf[4] as int * 32, buf[5] / 4));
      packet[5] := Byte(Or(buf[5] as int * 64, buf[6] / 2));
      packet[6] := Byte(Or(buf[6] as int * 128, buf[7]));
      assert packet[0] == PacketByte(b, 0);
      assert packet[1] == PacketByte(b, 1);
      assert packet[2] == PacketByte(b, 2);
      assert packet[3] == PacketByte(b, 3);
      assert packet[4] == PacketByte(b, 4);
      assert packet[5] == PacketByte(b, 5);
      assert packet[6] == PacketByte(b, 6);
    }

    method Lines7To13(packet: array<byte>, ghost p: seq<byte>)
      requires packet != buf && packet.Length == 256 == buf.Length && Decodes(p, buf[..])
      modifies packet
      ensures packet[..7] == old(packet[..7])
      ensures packet[7..14] == p[7..14]
    {
      ghost var b := buf[..];
      packet[7] := Byte(Or(buf[8] as int * 2, buf[9] / 64));
      packet[8] := Byte(Or(buf[9] as int * 4, buf[10] / 32));
      packet[9] := Byte(Or(buf[10] as int * 8, buf[11] / 16));
      packet[10] := Byte(Or(buf[11] as int * 16, buf[12] / 8));
      packet[11] := Byte(Or(buf[12] as int * 32, buf[13] / 4));
      packet[12] := Byte(Or(buf[13] as int * 64, buf[14] / 2));
      packet[13] := Byte(Or(buf[14] as int * 128, buf[15]));
      assert packet[7] == PacketByte(b, 7);
      assert packet[8] == PacketByte(b, 8);
      assert packet[9] == PacketByte(b, 9);
      assert packet[10] == PacketByte(b, 10);
      assert packet[11] == PacketByte(b, 11);
      assert packet[12] == PacketByte(b, 12);
      assert packet[13] == PacketByte(b, 13);
    }

    method Lines14To20(packet: array<byte>, ghost p: seq<byte>)
      requires packet != buf && packet.Length == 256 == buf.Length && Decodes(p, buf[..])
      modifies packet
      ensures packet[..14] == old(packet[..14])
      ensures packet[14..21] == p[14..21]
    {
      ghost var b := buf[..];
      packet[14] := Byte(Or(buf[16] as int * 2, buf[17] / 64));
      packet[15] := Byte(Or(buf[17] as int * 4, buf[18] / 32));
      packet[16] := Byte(Or(buf[18] as int * 8, buf[19] / 16));
      packet[17] := Byte(Or(buf[19] as int * 16, buf[20] / 8));
      packet[18] := Byte(Or(buf[20] as int * 32, buf[21] / 4));
      packet[19] := Byte(Or(buf[21] as int * 64, buf[22] / 2));
      packet[20] := Byte(Or(buf[22] as int * 128, buf[23]));
      assert packet[14] == PacketByte(b, 14);
      assert packet[15] == PacketByte(b, 15);
      assert packet[16] == PacketByte(b, 16);
      assert packet[17] == PacketByte(b, 17);
      assert packet[18] == PacketByte(b, 18);
      assert packet[19] == PacketByte(b, 19);
      assert packet[20] == PacketByte(b, 20);
    }

    method Lines21To27(packet: array<byte>, ghost p: seq<byte>)
      requires packet != buf && packet.Length == 256 == buf.Length && Decodes(p, buf[..])
      modifies packet
      ensures packet[..21] == old(packet[..21])
      ensures packet[21..28] == p[21..28]
    {
      ghost var b := buf[..];
      packet[21] := Byte(Or(buf[24] as int * 2, buf[25] / 64));
      packet[22] := Byte(Or(buf[25] as int * 4, buf[26] / 32));
      packet[23] := Byte(Or(buf[26] as int * 8, buf[27] / 16));
      packet[24] := Byte(Or(buf[27] as int * 16, buf[28] / 8));
      packet[25] := Byte(Or(buf[28] as int * 32, buf[29] / 4));
      packet[26] := Byte(Or(buf[29] as int * 64, buf[30] / 2));
      packet[27] := Byte(Or(buf[30] as int * 128, buf[31]));
      assert packet[21] == PacketByte(b, 21);
      assert packet[22] == PacketByte(b, 22);
      assert packet[23] == PacketByte(b, 23);
      assert packet[24] == PacketByte(b, 24);
      assert packet[25] == PacketByte(b, 25);
      assert packet[26] == PacketByte(b, 26);
      assert packet[27] == PacketByte(b, 27);
    }

    method ExtractPacket(ghost p: seq<byte>) returns (packet: array<byte>)
      requires buf.Length == 256 && Decodes(p, buf[..])
      ensures fresh(packet) && packet.Length == 256
      ensures packet[..28] == p
    {
      packet := new byte[256](_ => 0);
      Lines0To6(packet, p);
      Lines7To13(packet, p);
      assert packet[..14] == packet[..7] + packet[7..14] == p[..14];
      Lines14To20(packet, p);
      assert packet[..21] == packet[..14] + packet[14..21] == p[..21];
      Lines21To27(packet, p);
      assert packet[..28] == packet[..21] + packet[21..28] == p[..28];
    }

    /** The switch on the packet header. */
    method Dispatch(packet: array<byte>, packetSize: int) returns (code: ErrorCode)
      requires packet.Length == 256
      modifies this
      ensures frame == old(frame) && bufIndex == old(bufIndex)
      ensures Decoded() == Deliver(old(Decoded()), Interpret(packet[..28], packetSize))
      ensures code == Status(packet[0], packetSize)
    {
      hide Scaled;
      if packet[0] == PKT_CAL_BATTERY_AND_THERMOMETER_DATA {
        if packetSize != LEN_CAL_BATTERY_AND_THERMOMETER_DATA {
          return InvalidNumBytesForPacketHeader;
        }
        battAndTherm := BattAndTherm(
          Scaled(packet[1], packet[2], Q_CALIBRATED_BATTERY),
          Scaled(packet[3], packet[4], Q_CALIBRATED_THERMOMETER));
        assert battAndTherm == BatteryFields(packet[..28]);
        battAndThermGetReady := true;
      } else if packet[0] == PKT_CAL_INERTIAL_AND_MAGNETIC_DATA {
        if packetSize != LEN_CAL_INERTIAL_AND_MAGNETIC_DATA {
          return InvalidNumBytesForPacketHeader;
        }
        inertialAndMag := InertialAndMag(
          Scaled(packet[1], packet[2], Q_CALIBRATED_GYROSCOPE),
          Scaled(packet[3], packet[4], Q_CALIBRATED_GYROSCOPE),
          Scaled(packet[5], packet[6], Q_CALIBRATED_GYROSCOPE),
          Scaled(packet[7], packet[8], Q_CALIBRATED_ACCELEROMETER),
          Scaled(packet[9], packet[10], Q_CALIBRATED_ACCELEROMETER),
          Scaled(packet[11], packet[12], Q_CALIBRATED_ACCELEROMETER),
          Scaled(packet[13], packet[14], Q_CALIBRATED_MAGNETOMETER),
          Scaled(packet[15], packet[16], Q_CALIBRATED_MAGNETOMETER),
          Scaled(packet[17], packet[18], Q_CALIBRATED_MAGNETOMETER));
        assert inertialAndMag == InertialFields(packet[..28]);
        inertialAndMagGetReady := true;
      } else if packet[0] == PKT_QUATERNION_DATA {
        if packetSize != LEN_QUATERNION_DATA {
          return InvalidNumBytesForPacketHeader;
        }
        quaternion := QuaternionData(
          Scaled(packet[1], packet[2], Q_QUATERNION),
          Scaled(packet[3], packet[4], Q_QUATERNION),
          Scaled(packet[5], packet[6], Q_QUATERNION),
          Scaled(packet[7], packet[8], Q_QUATERNION));
        assert quaternion == QuaternionFields(packet[..28]);
        quaternionGetReady := true;
      }
      code := NoError;
    }

    /** What happens once the byte just stored is a framing byte. */
    method CloseFrame() returns (code: ErrorCode)
      requires buf.Length == 256 && bufIndex < 256 && buf[..bufIndex] == Retained(frame)
      modifies this
      ensures frame == [] && bufIndex == 0
      ensures Decoded() == Deliver(old(Decoded()), FrameUpdate(old(Retained(frame))))
      ensures code == Status(PacketByte(buf[..], 0), PacketSize(old(bufIndex)))
    {
      hide Interpret, FrameUpdate, PacketByte, Packet, Status;
      ghost var b := buf[..];
      var packetSize := bufIndex - 1 - (bufIndex - 1) / 8;
      UpdateIgnoresStaleBytes(b, bufIndex);
      PacketDecodes(b);
      bufIndex := 0;
      frame := [];
      var packet := ExtractPacket(Packet(b));
      assert packet[0] == packet[..28][0] == PacketByte(b, 0);
      code := Dispatch(packet, packetSize);
    }

    /** Stores a byte in the cyclic buffer. */
    method Store(c: byte)
      requires buf.Length == 256 && bufIndex == |frame| % 256 && buf[..bufIndex] == Retained(frame)
      modifies this`bufIndex, this`frame, buf
      ensures frame == old(frame) + [c] && bufIndex == |frame| % 256
      ensures buf[..bufIndex] == Retained(frame)
      ensures buf[..] == old(buf[..])[old(bufIndex) := c]
    {
      hide Retained;
      buf[bufIndex] := c;
      bufIndex := (bufIndex + 1) % 256;
      frame := frame + [c];
      RetainedExtends(old(frame), old(buf[..]), c);
    }

    method ProcessNewChar(c: byte) returns (code: ErrorCode)
      requires Valid()
      modifies this, buf
      ensures Valid()
      ensures frame == if Framing(c) then [] else old(frame) + [c]
      ensures Decoded() == if Framing(c) then Deliver(old(Decoded()), FrameUpdate(Retained(old(frame) + [c])))
                           else old(Decoded())
      ensures buf[..] == old(buf[..])[old(bufIndex) := c]
      ensures bufIndex == if Framing(c) then 0 else (old(bufIndex) + 1) % 256
      ensures code == if Framing(c) then Status(PacketByte(buf[..], 0), PacketSize((old(bufIndex) + 1) % 256))
                      else NoError
    {
      hide FrameUpdate, PacketByte, Status, Deliver, Retained, PacketSize, Framing;
      Store(c);
      if Framing(c) {
        code := CloseFrame();
        NothingRetained();
        assert buf[..0] == [];
      } else {
        code := NoError;
      }
    }

    function IsQuaternionGetReady(): bool
      reads this
    {
      quaternionGetReady
    }

    method GetQuaternion() returns (q: QuaternionData)
      requires Valid()
      modifies this`quaternionGetReady
      ensures Valid() && q == old(Decoded()).quaternion
      ensures Decoded() == old(Decoded()).(quaternionReady := false)
    {
      quaternionGetReady := false;
      q := quaternion;
    }
  }
}
