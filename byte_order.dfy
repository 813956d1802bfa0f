/**
 * Fixed-width little-endian integers, as the `byteorder` crate writes and
 * reads them: the 8-byte header of the size-prefixed framing and the raw
 * bit pattern of an `f64`.
 */
module ByteOrder {

  newtype byte = b: int | 0 <= b < 0x100

  const U64_LIMIT: nat := 0x1_0000_0000_0000_0000
  const I64_LIMIT: nat := 0x8000_0000_0000_0000

  predicate IsU64(n: int) {
    0 <= n < U64_LIMIT
  }

  predicate IsI64(x: int) {
    -(I64_LIMIT as int) <= x < I64_LIMIT
  }

  function Pow256(n: nat): (r: nat)
    ensures r > 0
  {
    if n == 0 then 1 else 0x100 * Pow256(n - 1)
  }

  /** The `width` low-order bytes of `u`, least significant byte first. */
  function LittleEndian(u: nat, width: nat): (r: seq<byte>)
    ensures |r| == width
  {
    if width == 0 then [] else [(u % 0x100) as byte] + LittleEndian(u / 0x100, width - 1)
  }

  /** The unsigned number whose little-endian bytes are `s`. */
  function FromLittleEndian(s: seq<byte>): (u: nat)
    ensures u < Pow256(|s|)
  {
    if s == [] then 0 else s[0] as nat + 0x100 * FromLittleEndian(s[1..])
  }

  /** Reading back `width` bytes written from `u` gives `u` whenever it fits. */
  lemma {:induction false} LittleEndianRoundTrip(u: nat, width: nat)
    requires u < Pow256(width)
    ensures FromLittleEndian(LittleEndian(u, width)) == u
  {
    if width > 0 {
      LittleEndianRoundTrip(u / 0x100, width - 1);
    }
  }

  /** Writing back the number read from any bytes reproduces those bytes. */
  lemma {:induction false} FromLittleEndianRoundTrip(s: seq<byte>)
    ensures LittleEndian(FromLittleEndian(s), |s|) == s
  {
    if s != [] {
      FromLittleEndianRoundTrip(s[1..]);
      var u := FromLittleEndian(s);
      assert u % 0x100 == s[0] as nat;
      assert u / 0x100 == FromLittleEndian(s[1..]);
    }
  }

  lemma Pow256Of8()
    ensures Pow256(8) == U64_LIMIT
  {
  }

  /** `write_i64::<LittleEndian>`: the two's-complement bytes of `x`. */
  function WriteI64Le(x: int): (r: seq<byte>)
    requires IsI64(x)
    ensures |r| == 8
  {
    LittleEndian(if x < 0 then x + U64_LIMIT else x, 8)
  }

  /** `read_i64::<LittleEndian>`: eight bytes taken as a two's-complement number. */
  function ReadI64Le(s: seq<byte>): (x: int)
    requires |s| == 8
    ensures IsI64(x)
  {
    Pow256Of8();
    var u := FromLittleEndian(s);
    if u < I64_LIMIT then u else u - U64_LIMIT
  }

  /** Rust's `n as i64` for a 64-bit `usize`: the same bits read as signed. */
  function UsizeAsI64(n: nat): (x: int)
    requires IsU64(n)
    ensures IsI64(x)
    ensures x % U64_LIMIT == n
  {
    if n < I64_LIMIT then n else n - U64_LIMIT
  }

  lemma {:induction false} I64RoundTrip(x: int)
    requires IsI64(x)
    ensures ReadI64Le(WriteI64Le(x)) == x
  {
    Pow256Of8();
    LittleEndianRoundTrip(if x < 0 then x + U64_LIMIT else x, 8);
  }

  /** The header `write_i64(n as i64)` writes for a size `n` holds the bytes of `n` itself. */
  lemma {:induction false} UsizeHeaderBytes(n: nat)
    requires IsU64(n)
    ensures WriteI64Le(UsizeAsI64(n)) == LittleEndian(n, 8)
    ensures n < I64_LIMIT ==> ReadI64Le(WriteI64Le(UsizeAsI64(n))) == n
  {
    I64RoundTrip(UsizeAsI64(n));
  }
}
