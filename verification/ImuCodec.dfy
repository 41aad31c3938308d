/** The 7-bit transport code of the x-IMU serial stream.
  *
  * On the wire every byte carries seven payload bits; the one byte whose top bit is set closes a
  * frame. The sender's side is given here as a specification on the bit string of a packet. The
  * receiver's side is the shift/or repacking of src/imu/imu_receiver.cpp, written once for all
  * positions instead of 28 times.
  *
  * Bytes are integers, as C promotes them: a left shift is a multiplication, a right shift a
  * division, and storing into an unsigned char drops all but eight bits.
  */
module ImuCodec {

  type byte = b: int | 0 <= b < 256

  /** Storing an int into an unsigned char. */
  function Byte(v: nat): byte {
    v % 256
  }

  /** Bitwise or. */
  function Or(a: nat, b: nat): nat {
    if a == 0 then b
    else if b == 0 then a
    else 2 * Or(a / 2, b / 2) + (if a % 2 == 1 || b % 2 == 1 then 1 else 0)
  }

  /** True for the byte that closes a frame. */
  predicate Framing(c: byte) {
    c / 0x80 == 1
  }

  // ---------------------------------------------------------------------------------------------
  // Sender: packets as bit strings
  // ---------------------------------------------------------------------------------------------

  type bit = b: int | 0 <= b < 2

  /** Bit t of b, bit 0 being the least significant. */
  function Bit(b: byte, t: nat): bit
    requires t < 8
  {
    if t == 0 then b % 2
    else if t == 1 then b / 2 % 2
    else if t == 2 then b / 4 % 2
    else if t == 3 then b / 8 % 2
    else if t == 4 then b / 16 % 2
    else if t == 5 then b / 32 % 2
    else if t == 6 then b / 64 % 2
    else b / 128 % 2
  }

  /** The bit string of a packet, most significant bit of the first byte first, padded with zeros. */
  function StreamBit(p: seq<byte>, i: nat): bit {
    if i / 8 < |p| then Bit(p[i / 8], 7 - i % 8) else 0
  }

  function BitString(p: seq<byte>): nat -> bit {
    (i: nat) => StreamBit(p, i)
  }

  /** Seven consecutive bits of a bit string as a byte whose top bit is clear. */
  function Group(bits: nat -> bit, at: nat): (g: byte)
    ensures g < 0x80
  {
    64 * bits(at) + 32 * bits(at + 1) + 16 * bits(at + 2) + 8 * bits(at + 3)
    + 4 * bits(at + 4) + 2 * bits(at + 5) + bits(at + 6)
  }

  /** How many 7-bit groups hold m bytes. */
  function EncodedLength(m: nat): nat {
    (8 * m + 6) / 7
  }

  /** The first n groups of a bit string, the last one marked by the framing bit. */
  function Frame(bits: nat -> bit, n: nat): (e: seq<byte>)
    ensures |e| == n
  {
    seq(n, g requires 0 <= g < n => if g == n - 1 then Group(bits, 7 * g) + 0x80 else Group(bits, 7 * g))
  }

  /** The frame that carries packet p. */
  function Encode(p: seq<byte>): (e: seq<byte>)
    requires |p| > 0
    ensures |e| == EncodedLength(|p|)
  {
    Frame(BitString(p), EncodedLength(|p|))
  }

  // ---------------------------------------------------------------------------------------------
  // Receiver: repacking
  // ---------------------------------------------------------------------------------------------

  /** One shift/or line: j is the position of the decoded byte modulo 7. The operand shifted right
    * is not masked, so a framing bit in it is carried along.
    */
  function Shift(hi: byte, lo: byte, j: nat): byte
    requires j < 7
  {
    if j == 0 then Byte(Or(hi * 2, lo / 64))
    else if j == 1 then Byte(Or(hi * 4, lo / 32))
    else if j == 2 then Byte(Or(hi * 8, lo / 16))
    else if j == 3 then Byte(Or(hi * 16, lo / 8))
    else if j == 4 then Byte(Or(hi * 32, lo / 4))
    else if j == 5 then Byte(Or(hi * 64, lo / 2))
    else Byte(Or(hi * 128, lo))
  }

  /** Decoded byte k of a receive buffer. */
  function PacketByte(buf: seq<byte>, k: nat): byte
    requires k + k / 7 + 1 < |buf|
  {
    Shift(buf[k + k / 7], buf[k + k / 7 + 1], k % 7)
  }

  /** The packet size the receiver computes from the number of bytes in the frame. `index` is the
    * wrapped byte counter, so 0 stands for a multiple of 256; the division rounds down as the
    * arithmetic shift of a negative number does.
    */
  function PacketSize(index: int): int {
    index - 1 - (index - 1) / 8
  }

  // ---------------------------------------------------------------------------------------------
  // The repacking inverts the encoder
  // ---------------------------------------------------------------------------------------------

  /** The place value of bit t. */
  function Weight(t: nat): nat
    requires t < 8
  {
    if t == 0 then 1
    else if t == 1 then 2
    else if t == 2 then 4
    else if t == 3 then 8
    else if t == 4 then 16
    else if t == 5 then 32
    else if t == 6 then 64
    else 128
  }

  lemma WeightStep(t: nat)
    requires 0 < t < 8
    ensures Weight(t) == 2 * Weight(t - 1)
  {
  }

  /** The two shift distances of line j. */
  lemma WeightProducts(j: nat)
    requires j < 7
    ensures Weight(6 - j) * Weight(j + 1) == 128 && Weight(j + 1) * Weight(7 - j) == 256
  {
  }

  // Or works separately on the low bits b of its second operand and on the bits above them, which
  // is all of the first operand when that is a multiple of the same power of two.

  lemma OrBy2(a: nat, c: nat, b: nat)
    requires b < 2
    ensures Or(2 * a, 2 * c + b) == 2 * Or(a, c) + b
  {
  }

  lemma {:induction false} OrBy(t: nat, a: nat, c: nat, b: nat)
    requires t < 8 && b < Weight(t)
    ensures Or(Weight(t) * a, Weight(t) * c + b) == Weight(t) * Or(a, c) + b
  {
    hide Or, Weight;
    if t == 0 {
      WeightZero();
    } else {
      var w := Weight(t - 1);
      WeightStep(t);
      OrBy(t - 1, a, c, b / 2);
      OrBy2(w * a, w * c + b / 2, b % 2);
      assert Weight(t) * a == 2 * (w * a) && Weight(t) * c + b == 2 * (w * c + b / 2) + b % 2;
      assert Weight(t) * Or(a, c) == 2 * (w * Or(a, c));
    }
  }

  lemma WeightZero()
    ensures Weight(0) == 1
  {
  }

  lemma OrWithOne(a: nat)
    ensures Or(a, 0) == a && Or(a, 1) == a + 1 - a % 2
  {
  }

  /** x is b with bit t forced to 1 and no other bit changed. */
  predicate IsWithBit(x: int, b: byte, t: nat)
    requires t < 8
  {
    x == if Bit(b, t) == 1 then b else b + Weight(t)
  }

  /** Two neighbouring groups give back the byte x that straddles them, and a framing bit on the
    * second one forces exactly one bit of it.
    */
  ghost predicate GivesBack(hi: byte, lo: byte, j: nat, x: byte)
    requires j < 7 && lo < 0x80
  {
    Shift(hi, lo, j) == x && IsWithBit(Shift(hi, lo + 0x80, j), x, j + 1)
  }

  /** The eight bits from position `at` on are those of x. */
  ghost predicate CarriesByte(bits: nat -> bit, at: nat, x: byte) {
    x == 128 * bits(at) + 64 * bits(at + 1) + 32 * bits(at + 2) + 16 * bits(at + 3)
         + 8 * bits(at + 4) + 4 * bits(at + 5) + 2 * bits(at + 6) + bits(at + 7)
  }

  lemma StreamBitOfByte(p: seq<byte>, k: nat, u: nat)
    requires k < |p| && u < 8
    ensures StreamBit(p, 8 * k + u) == Bit(p[k], 7 - u)
  {
    assert (8 * k + u) / 8 == k && (8 * k + u) % 8 == u;
  }

  lemma HighBits(x: byte)
    ensures x / 16 == 8 * Bit(x, 7) + 4 * Bit(x, 6) + 2 * Bit(x, 5) + Bit(x, 4)
  {
    assert x / 16 == 2 * (x / 32) + x / 16 % 2 && x / 32 == 2 * (x / 64) + x / 32 % 2;
    assert x / 64 == 2 * (x / 128) + x / 64 % 2;
  }

  lemma LowBits(x: byte)
    ensures x == 16 * (x / 16) + 8 * Bit(x, 3) + 4 * Bit(x, 2) + 2 * Bit(x, 1) + Bit(x, 0)
  {
    assert x / 2 == 2 * (x / 4) + x / 2 % 2 && x / 4 == 2 * (x / 8) + x / 4 % 2;
    assert x / 8 == 2 * (x / 16) + x / 8 % 2;
  }

  ghost predicate CarriesBit(bits: nat -> bit, at: nat, x: byte, u: nat)
    requires u < 8
  {
    bits(at + u) == Bit(x, 7 - u)
  }

  lemma CarriesByteFromBits(bits: nat -> bit, at: nat, x: byte)
    requires forall u: nat :: u < 8 ==> CarriesBit(bits, at, x, u)
    ensures CarriesByte(bits, at, x)
  {
    assert CarriesBit(bits, at, x, 0) && CarriesBit(bits, at, x, 1) && CarriesBit(bits, at, x, 2);
    assert CarriesBit(bits, at, x, 3) && CarriesBit(bits, at, x, 4) && CarriesBit(bits, at, x, 5);
    assert CarriesBit(bits, at, x, 6) && CarriesBit(bits, at, x, 7);
    HighBits(x);
    LowBits(x);
  }

  lemma BitStringCarriesByte(p: seq<byte>, k: nat)
    requires k < |p|
    ensures CarriesByte(BitString(p), 8 * k, p[k])
  {
    forall u: nat | u < 8
      ensures CarriesBit(BitString(p), 8 * k, p[k], u)
    {
      StreamBitOfByte(p, k, u);
    }
    CarriesByteFromBits(BitString(p), 8 * k, p[k]);
  }

  lemma Wraps(h: nat, v: nat)
    requires v < 256
    ensures Byte(256 * h + v) == v
  {
  }

  lemma Quotient(k: nat, z: nat, t: nat)
    requires k < 8 && t < Weight(k)
    ensures (Weight(k) * z + t) / Weight(k) == z
  {
    if k == 0 {
    } else if k == 1 {
    } else if k == 2 {
    } else if k == 3 {
    } else if k == 4 {
    } else if k == 5 {
    } else if k == 6 {
    }
  }

  lemma Distribute(p: int, a: int, b: int)
    ensures p * (a + b) == p * a + p * b
  {
  }

  lemma Associate(p: int, q: int, h: int)
    ensures p * (q * h) == (p * q) * h
  {
  }

  /** p * a + b is a two-digit number in base p. */
  lemma TwoDigits(p: nat, q: nat, a: nat, b: nat)
    requires a < q && b < p
    ensures p * a + b < p * q
  {
    Distribute(p, a, 1);
    Distribute(p, a + 1, q - a - 1);
  }

  lemma ShiftIs(hi: byte, lo: byte, j: nat)
    requires j < 7
    ensures Shift(hi, lo, j) == Byte(Or(Weight(j + 1) * hi, lo / Weight(6 - j)))
  {
    hide Or;
  }

  lemma BitIs(b: byte, t: nat)
    requires t < 8
    ensures Bit(b, t) == b / Weight(t) % 2
  {
  }

  // The decoded byte x is made of y, at the bottom of the first group (below h), and z, at the top of
  // the second one (above t). Line is the shift/or line as arithmetic, Parts the arithmetic of its
  // parts, Splice both together.

  lemma Line(j: nat, hi: byte, z: nat, t: nat)
    requires j < 7 && z < Weight(j + 1) && t < Weight(6 - j)
    ensures Weight(6 - j) * z + t < 128
    ensures Shift(hi, Weight(6 - j) * z + t, j) == Byte(Weight(j + 1) * hi + z)
    ensures Shift(hi, Weight(6 - j) * z + t + 0x80, j) == Byte(Weight(j + 1) * (hi + 1 - hi % 2) + z)
  {
    hide Or, Weight, Shift, Byte;
    var p, r := Weight(j + 1), Weight(6 - j);
    WeightProducts(j);
    TwoDigits(r, p, z, t);
    Distribute(r, z, p);
    Quotient(6 - j, z, t);
    Quotient(6 - j, z + p, t);
    ShiftIs(hi, r * z + t, j);
    ShiftIs(hi, r * z + t + 0x80, j);
    OrOfParts(j + 1, hi, z);
  }

  lemma OrOfParts(k: nat, hi: byte, z: nat)
    requires k < 8 && z < Weight(k)
    ensures Or(Weight(k) * hi, z) == Weight(k) * hi + z
    ensures Or(Weight(k) * hi, z + Weight(k)) == Weight(k) * (hi + 1 - hi % 2) + z
  {
    hide Or, Weight;
    OrBy(k, hi, 0, z);
    OrBy(k, hi, 1, z);
    OrWithOne(hi);
  }

  lemma Parts(j: nat, h: nat, y: nat, z: nat)
    requires j < 7 && y < Weight(7 - j) && z < Weight(j + 1)
    ensures Weight(j + 1) * y + z < 256
    ensures Byte(Weight(j + 1) * (Weight(7 - j) * h + y) + z) == Weight(j + 1) * y + z
    ensures var hi := Weight(7 - j) * h + y;
            IsWithBit(Byte(Weight(j + 1) * (hi + 1 - hi % 2) + z), Weight(j + 1) * y + z, j + 1)
  {
    hide Weight, IsWithBit, Byte;
    var p, q := Weight(j + 1), Weight(7 - j);
    WeightProducts(j);
    WeightStep(7 - j);
    Parity(q, Weight(6 - j), h, y);
    PartsWrap(p, q, h, y, z);
    PartsWrap(p, q, h, y + 1 - y % 2, z);
    MarkedPart(j + 1, y, z);
  }

  lemma MarkedPart(k: nat, y: nat, z: nat)
    requires k < 8 && z < Weight(k) && Weight(k) * y + z < 256
    ensures IsWithBit(Weight(k) * (y + 1 - y % 2) + z, Weight(k) * y + z, k)
  {
    hide Weight, Bit;
    BitIs(Weight(k) * y + z, k);
    Quotient(k, y, z);
    Distribute(Weight(k), y, 1 - y % 2);
  }

  /** Setting the lowest bit of y sets that of any even number plus y. */
  lemma Parity(q: nat, half: nat, h: nat, y: nat)
    requires q == 2 * half && y < q
    ensures y + 1 - y % 2 < q
    ensures q * h + y + 1 - (q * h + y) % 2 == q * h + (y + 1 - y % 2)
  {
    Associate(2, half, h);
  }

  lemma PartsWrap(p: nat, q: nat, h: nat, y: nat, z: nat)
    requires p * q == 256 && y < q && z < p
    ensures p * y + z < 256 && Byte(p * (q * h + y) + z) == p * y + z
  {
    TwoDigits(p, q, y, z);
    Distribute(p, q * h, y);
    Associate(p, q, h);
    Wraps(h, p * y + z);
  }

  lemma Splice(j: nat, h: nat, y: nat, z: nat, t: nat, hi: byte, lo: byte, x: byte)
    requires j < 7 && y < Weight(7 - j) && z < Weight(j + 1) && t < Weight(6 - j)
    requires hi == Weight(7 - j) * h + y && lo == Weight(6 - j) * z + t && x == Weight(j + 1) * y + z
    ensures lo < 0x80 && GivesBack(hi, lo, j, x)
  {
    hide Weight, Shift, IsWithBit, Byte;
    Line(j, hi, z, t);
    Parts(j, h, y, z);
  }

  /** The number that n consecutive bits make. */
  function Value(bits: nat -> bit, at: nat, n: nat): nat {
    if n == 0 then 0 else 2 * Value(bits, at, n - 1) + bits(at + n - 1)
  }

  lemma ValueZero(bits: nat -> bit, at: nat)
    ensures Value(bits, at, 0) == 0
  {
  }

  lemma ValueStep(bits: nat -> bit, at: nat, n: nat)
    requires n > 0
    ensures Value(bits, at, n) == 2 * Value(bits, at, n - 1) + bits(at + n - 1)
  {
  }

  lemma {:induction false} ValueBound(bits: nat -> bit, at: nat, n: nat)
    requires n < 8
    ensures Value(bits, at, n) < Weight(n)
  {
    hide Weight;
    if n == 0 {
      WeightZero();
    } else {
      WeightStep(n);
      ValueBound(bits, at, n - 1);
    }
  }

  lemma {:induction false} ValueSplits(bits: nat -> bit, at: nat, m: nat, n: nat)
    requires n < 8
    ensures Value(bits, at, m + n) == Weight(n) * Value(bits, at, m) + Value(bits, at + m, n)
  {
    hide Weight, Value;
    if n == 0 {
      WeightZero();
      ValueZero(bits, at + m);
    } else {
      var w, v, low := Weight(n - 1), Value(bits, at, m), Value(bits, at + m, n - 1);
      WeightStep(n);
      ValueStep(bits, at, m + n);
      ValueStep(bits, at + m, n);
      ValueSplits(bits, at, m, n - 1);
      assert at + (m + n) - 1 == at + m + n - 1;
      assert Weight(n) * v == 2 * (w * v);
    }
  }

  lemma ValueOfSeven(bits: nat -> bit, at: nat)
    ensures Value(bits, at, 7) == Group(bits, at)
  {
    hide Value;
    ValueZero(bits, at);
    ValueStep(bits, at, 1);
    ValueStep(bits, at, 2);
    ValueStep(bits, at, 3);
    ValueStep(bits, at, 4);
    ValueStep(bits, at, 5);
    ValueStep(bits, at, 6);
    ValueStep(bits, at, 7);
  }

  lemma ValueOfEight(bits: nat -> bit, at: nat, x: byte)
    requires CarriesByte(bits, at, x)
    ensures x == Value(bits, at, 8)
  {
    hide Value;
    ValueStep(bits, at, 8);
    ValueOfSeven(bits, at);
  }

  /** Two neighbouring groups give back the byte that starts at bit j of the first one. */
  lemma ShiftOfGroups(bits: nat -> bit, first: nat, j: nat, at: nat, x: byte)
    requires j < 7 && at == first + j && CarriesByte(bits, at, x)
    ensures GivesBack(Group(bits, first), Group(bits, first + 7), j, x)
  {
    hide GivesBack, Weight, Value, CarriesByte, Group;
    var h, y := Value(bits, first, j), Value(bits, first + j, 7 - j);
    var z, t := Value(bits, first + 7, j + 1), Value(bits, first + 7 + (j + 1), 6 - j);
    ValueOfSeven(bits, first);
    ValueOfSeven(bits, first + 7);
    ValueOfEight(bits, at, x);
    ValueSplits(bits, first, j, 7 - j);
    ValueSplits(bits, first + 7, j + 1, 6 - j);
    ValueSplits(bits, first + j, 7 - j, j + 1);
    ValueBound(bits, first + j, 7 - j);
    ValueBound(bits, first + 7, j + 1);
    ValueBound(bits, first + 7 + (j + 1), 6 - j);
    Splice(j, h, y, z, t, Group(bits, first), Group(bits, first + 7), x);
  }

  /** Byte k of a packet of m bytes straddles groups k + k/7 and k + k/7 + 1; the second of them is
    * the marked one only for the last byte.
    */
  lemma GroupsOfByte(m: nat, k: nat)
    requires k < m
    ensures k + k / 7 + 1 < EncodedLength(m)
    ensures k == m - 1 <==> k + k / 7 + 1 == EncodedLength(m) - 1
    ensures 7 * (k + k / 7) + k % 7 == 8 * k
  {
  }

  lemma PacketSizeOfEncoding(m: nat)
    ensures PacketSize(EncodedLength(m)) == m
  {
  }

  lemma PacketByteOfFrame(bits: nat -> bit, m: nat, k: nat, x: byte)
    requires k < m && CarriesByte(bits, 8 * k, x)
    ensures k + k / 7 + 1 < EncodedLength(m)
    ensures k < m - 1 ==> PacketByte(Frame(bits, EncodedLength(m)), k) == x
    ensures k == m - 1 ==> IsWithBit(PacketByte(Frame(bits, EncodedLength(m)), k), x, k % 7 + 1)
  {
    hide Shift, IsWithBit, Group, CarriesByte;
    GroupsOfByte(m, k);
    hide EncodedLength;
    var g := k + k / 7;
    assert 7 * (g + 1) == 7 * g + 7;
    ShiftOfGroups(bits, 7 * g, k % 7, 8 * k, x);
  }

  /** The computed size is 7n/8 rounded down for a frame of n bytes, also when the index has wrapped to 0. */
  lemma PacketSizeIsPayload(n: nat)
    ensures PacketSize(n) == 7 * n / 8
  {
  }

  /** Decoding what the encoder sent: the computed size is the packet's, all bytes but the last come
    * back unchanged, and the last one (the checksum) comes back with bit (|p|-1) mod 7 + 1 forced to
    * 1 by the framing bit.
    */
  lemma {:induction false} RepackInvertsEncode(p: seq<byte>, k: nat)
    requires k < |p|
    ensures k + k / 7 + 1 < |Encode(p)|
    ensures PacketSize(|Encode(p)|) == |p|
    ensures k < |p| - 1 ==> PacketByte(Encode(p), k) == p[k]
    ensures k == |p| - 1 ==> IsWithBit(PacketByte(Encode(p), k), p[k], k % 7 + 1)
  {
    PacketSizeOfEncoding(|p|);
    BitStringCarriesByte(p, k);
    PacketByteOfFrame(BitString(p), |p|, k, p[k]);
  }

  /** Only the last byte of an encoded packet closes a frame. */
  lemma FramingOnlyAtEnd(p: seq<byte>, g: nat)
    requires |p| > 0 && g < |Encode(p)|
    ensures Framing(Encode(p)[g]) <==> g == |Encode(p)| - 1
  {
  }
}
