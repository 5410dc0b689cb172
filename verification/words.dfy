/**
 * Bytes on the wire and 16-bit scan-list codes.
 *
 * Every sample the instruments stream is two bytes read as they arrive. Python's
 * `int.from_bytes` and its shift and mask operators on those bytes are modelled with
 * unbounded integers: `x >> k` is `x / 2^k` (floor division, which Dafny's Euclidean
 * division agrees with for a positive divisor) and `x & (2^k - 1)` is `x % 2^k`.
 */
module Words {
  import Arith

  type Byte = b: int | 0 <= b < 0x100

  /** A scan-list ("slist") code as configured on the instrument. */
  type Word = w: int | 0 <= w < 0x1_0000

  /** One sample: the two bytes returned by one `ser.read(2)`, in arrival order. */
  datatype BytePair = BytePair(first: Byte, second: Byte)

  /** `int.from_bytes(bytes, byteorder='little', signed=False)` */
  function UnsignedLE(p: BytePair): (u: int)
    ensures 0 <= u < 0x1_0000
  {
    p.first + 0x100 * p.second
  }

  /** `int.from_bytes(bytes, byteorder='little', signed=True)`: two's complement 16-bit. */
  function SignedLE(p: BytePair): (r: int)
    ensures -0x8000 <= r < 0x8000
    ensures r % 0x1_0000 == UnsignedLE(p)
    ensures r < 0 <==> p.second >= 0x80
  {
    var u := UnsignedLE(p);
    if u < 0x8000 then u else u - 0x1_0000
  }

  /** The instrument-side encoding of a signed 16-bit value, little-endian. */
  function EncodeLE(v: int): (p: BytePair)
    requires -0x8000 <= v < 0x8000
    ensures SignedLE(p) == v
  {
    var u := v % 0x1_0000;
    BytePair(u % 0x100, u / 0x100)
  }

  /** Signed little-endian decoding is a bijection between byte pairs and [-32768, 32767]. */
  lemma SignedLERoundTrip(p: BytePair)
    ensures EncodeLE(SignedLE(p)) == p
  {
  }

  /** `int.from_bytes(bytes, byteorder='big', signed=False)` */
  function UnsignedBE(p: BytePair): (u: int)
    ensures 0 <= u < 0x1_0000
  {
    0x100 * p.first + p.second
  }

  /**
   * The digital-input channel: big-endian unsigned masked with `0x007f`. Only the
   * second byte's seven low bits survive the mask.
   */
  function DigitalBits7(p: BytePair): (d: int)
    ensures 0 <= d < 0x80
    ensures d == p.second % 0x80
  {
    UnsignedBE(p) % 0x80
  }

  /**
   * Rate and counter samples: the signed reading plus 32768, i.e. the unsigned
   * quantity the instrument carries in a signed field (offset binary).
   */
  function BiasedLE(p: BytePair): (n: int)
    ensures 0 <= n < 0x1_0000
    ensures n == (UnsignedLE(p) + 0x8000) % 0x1_0000
    ensures SignedLE(p) == -0x8000 ==> n == 0
    ensures SignedLE(p) == 0x7FFF ==> n == 0xFFFF
  {
    SignedLE(p) + 0x8000
  }

  /** The bias keeps the order of readings. */
  lemma BiasMonotone(p: BytePair, q: BytePair)
    ensures SignedLE(p) < SignedLE(q) <==> BiasedLE(p) < BiasedLE(q)
  {
  }

  /**
   * `(r >> 2) << 2`: the reading with its two least significant bits cleared. What is
   * removed is exactly `r & 3`, and the sign of the reading survives.
   */
  function StripLsbs(r: int): (s: int)
    ensures s % 4 == 0
    ensures s <= r && r - s == r % 4
    ensures 0 <= r - s <= 3
    ensures s < 0 <==> r < 0
  {
    (r / 4) * 4
  }

  /** The measurement function field, `item & 0xf`. */
  function Nibble(item: Word): (f: int)
    ensures 0 <= f < 0x10
  {
    item % 0x10
  }

  /** The mode bit of the DI-2008 and DI-245, `item & 0x1000 != 0`. */
  predicate ModeBit(item: Word)
  {
    (item / 0x1000) % 2 == 1
  }

  /** The gain (or rate range) code, `item >> 8`. */
  function GainCode(item: Word): (g: int)
    ensures 0 <= g < 0x100
  {
    item / 0x100
  }

  /** The thermocouple type, `(item & 0x0700) >> 8`: bits 8 to 10 of the code. */
  function TcType(item: Word): (t: int)
    ensures 0 <= t < 8
    ensures t == GainCode(item) % 8
  {
    TcTypeBits(item);
    (item % 0x800) / 0x100
  }

  /** Masking with 0x0700 then shifting keeps exactly the low three bits of `item >> 8`. */
  lemma TcTypeBits(item: Word)
    ensures (item % 0x800) / 0x100 == (item / 0x100) % 8
  {
    var g, a := item / 0x100, item % 0x100;
    var h, b := g / 8, g % 8;
    assert item == h * 0x800 + (b * 0x100 + a);
    Arith.DivModUnique(item, 0x800, h, b * 0x100 + a);
    Arith.DivModUnique(b * 0x100 + a, 0x100, b, a);
  }
}
