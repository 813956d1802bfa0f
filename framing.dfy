/**
 * The two length framings: `binprot_write_with_size`, an 8-byte
 * little-endian size before the value, and `WithLen<T>`, a `nat0` size
 * before the payload. Both readers read the length and then decode the
 * payload without comparing the two.
 */
module Framing {
  import opened ByteOrder
  import opened Errors
  import opened IntCodec
  import opened Wire
  import opened Encoding
  import opened Decoding
  import RoundTrip

  /**
   * The size-prefixed form is the 8 little-endian bytes of the size, then
   * the value; the header reads back as the size whenever the size is
   * below 2^63 (`len as i64` stays non-negative).
   */
  lemma WithSizeLayout(c: Codec, order: KeyOrder, v: Value)
    requires IsU64(Size(c, order, v))
    ensures var r := EncodeWithSize(c, order, v);
      && r == LittleEndian(Size(c, order, v), 8) + Encode(c, order, v)
      && |r| == 8 + |Encode(c, order, v)|
      && (Size(c, order, v) < I64_LIMIT ==> ReadI64Le(r[..8]) == Size(c, order, v))
  {
    UsizeHeaderBytes(Size(c, order, v));
    EncodedLength(c, order, v);
  }

  /**
   * `binprot_read_with_size` takes any 8 bytes as the header and decodes
   * what follows them: the header's value is never looked at.
   */
  lemma WithSizeIgnoresHeader(c: Codec, order: KeyOrder, v: Value, t: Ty, header: seq<byte>,
                              data: seq<byte>, pos: nat)
    requires Lawful(c) && OrderValid(order) && HasType(v, t) && IsU64(|data|)
    requires |header| == 8 && At(data, pos, header + Encode(c, order, v))
    ensures DecodeWithSize(c, t, data, pos) == Ok((v, pos + 8 + |Encode(c, order, v)|))
  {
    AtConcat(data, pos, header, Encode(c, order, v));
    RoundTrip.RoundTrip(c, order, v, t, data, pos + 8);
  }

  /** Reading back a size-prefixed value gives the value and consumes all `8 + size` bytes. */
  lemma WithSizeRoundTrip(c: Codec, order: KeyOrder, v: Value, t: Ty, data: seq<byte>, pos: nat)
    requires Lawful(c) && OrderValid(order) && HasType(v, t) && IsU64(|data|)
    requires IsU64(Size(c, order, v))
    requires At(data, pos, EncodeWithSize(c, order, v))
    ensures DecodeWithSize(c, t, data, pos) == Ok((v, pos + 8 + Size(c, order, v)))
  {
    EncodedLength(c, order, v);
    var header := WriteI64Le(UsizeAsI64(Size(c, order, v)));
    WithSizeIgnoresHeader(c, order, v, t, header, data, pos);
  }

  /** The `WithLen` prefix is the exact byte length of the payload that follows it. */
  lemma WithLenLayout(c: Codec, order: KeyOrder, x: Value)
    ensures Encode(c, order, WithLen(x)) == c.writeNat0(|Encode(c, order, x)|) + Encode(c, order, x)
  {
    EncodedLength(c, order, x);
  }

  /**
   * The `WithLen` reader accepts any `nat0` length before the payload,
   * right or wrong, and returns the payload it decodes after it.
   */
  lemma WithLenIgnoresLength(c: Codec, order: KeyOrder, x: Value, t: Ty, n: nat, data: seq<byte>, pos: nat)
    requires Lawful(c) && OrderValid(order) && t.WithLenTy? && HasType(x, t.inner) && IsU64(|data|)
    requires IsU64(n) && At(data, pos, c.writeNat0(n) + Encode(c, order, x))
    ensures DecodeWithLen(c, t, data, pos) == Ok((WithLen(x), pos + |c.writeNat0(n)| + |Encode(c, order, x)|))
  {
    var p := pos + |c.writeNat0(n)|;
    AtConcat(data, pos, c.writeNat0(n), Encode(c, order, x));
    RoundTrip.RoundTrip(c, order, x, t.inner, data, p);
    ReadNat0At(c, data, pos, n);
  }
}
