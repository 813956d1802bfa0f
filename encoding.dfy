/**
 * The writer side as functions: the bytes every `binprot_write` appends,
 * and `binprot_size`, which counts them without writing.
 */
module Encoding {
  import opened ByteOrder
  import opened IntCodec
  import opened Wire

  /** `binprot_size`: the number of bytes `binprot_write` emits for `v`. */
  function Size(c: Codec, order: KeyOrder, v: Value): nat
    decreases v, 1, 0
  {
    match v
    case Unit => 1
    case Bool(_) => 1
    case Nat0(n) => |c.writeNat0(n)|
    case I64(i) => |c.writeI64(i)|
    case F64(_) => 8
    case OptNone => 1
    case OptSome(x) => 1 + Size(c, order, x)
    case List(items) => |c.writeNat0(|items|)| + SizeAll(c, order, items)
    case Str(bytes) => |c.writeNat0(|bytes|)| + |bytes|
    case Map(m) => |c.writeNat0(|m|)| + SizeEntries(c, order, v, order(m))
    case Tuple(fields) => SizeAll(c, order, fields)
    case WithLen(x) => |c.writeNat0(Size(c, order, x))| + Size(c, order, x)
  }

  function SizeAll(c: Codec, order: KeyOrder, vs: seq<Value>): nat
    decreases vs, 0, 0
  {
    if vs == [] then 0 else Size(c, order, vs[0]) + SizeAll(c, order, vs[1..])
  }

  function SizeEntries(c: Codec, order: KeyOrder, v: Value, ks: seq<Value>): nat
    requires v.Map?
    decreases v, 0, |ks|
  {
    if ks == [] then 0
    else if ks[0] in v.entries then
      assert ks[0] in v.entries.Keys;
      Size(c, order, ks[0]) + Size(c, order, v.entries[ks[0]]) + SizeEntries(c, order, v, ks[1..])
    else SizeEntries(c, order, v, ks[1..])
  }

  /**
   * The bytes `binprot_write` appends for `v`: a one-byte tag for unit,
   * bool and option; a `nat0` count or length before the elements, bytes or
   * entries of a list, string or map; nothing before the fields of a tuple;
   * the `nat0` size before a `WithLen` payload. Map entries follow `order`.
   */
  function Encode(c: Codec, order: KeyOrder, v: Value): seq<byte>
    decreases v, 1, 0
  {
    match v
    case Unit => [0]
    case Bool(b) => [if b then 1 else 0]
    case Nat0(n) => c.writeNat0(n)
    case I64(i) => c.writeI64(i)
    case F64(bits) => LittleEndian(bits, 8)
    case OptNone => [0]
    case OptSome(x) => [1] + Encode(c, order, x)
    case List(items) => c.writeNat0(|items|) + EncodeAll(c, order, items)
    case Str(bytes) => c.writeNat0(|bytes|) + bytes
    case Map(m) => c.writeNat0(|m|) + EncodeEntries(c, order, v, order(m))
    case Tuple(fields) => EncodeAll(c, order, fields)
    case WithLen(x) => c.writeNat0(Size(c, order, x)) + Encode(c, order, x)
  }

  /** The encodings of `vs`, one after the other, in index order. */
  function EncodeAll(c: Codec, order: KeyOrder, vs: seq<Value>): seq<byte>
    decreases vs, 0, 0
  {
    if vs == [] then [] else Encode(c, order, vs[0]) + EncodeAll(c, order, vs[1..])
  }

  /**
   * Key then value, for each key of `ks` in turn. An order that lists
   * something that is not a key writes nothing for it; `OrderValid` orders
   * never do.
   */
  function EncodeEntries(c: Codec, order: KeyOrder, v: Value, ks: seq<Value>): seq<byte>
    requires v.Map?
    decreases v, 0, |ks|
  {
    if ks == [] then []
    else if ks[0] in v.entries then
      assert ks[0] in v.entries.Keys;
      Encode(c, order, ks[0]) + Encode(c, order, v.entries[ks[0]])
        + EncodeEntries(c, order, v, ks[1..])
    else EncodeEntries(c, order, v, ks[1..])
  }

  /**
   * `binprot_write_with_size`: the size as an 8-byte little-endian `i64`
   * (`len as i64`), then the value.
   */
  function EncodeWithSize(c: Codec, order: KeyOrder, v: Value): (r: seq<byte>)
    requires IsU64(Size(c, order, v))
    ensures |r| == 8 + Size(c, order, v)
    ensures r[8..] == Encode(c, order, v)
  {
    EncodedLength(c, order, v);
    WriteI64Le(UsizeAsI64(Size(c, order, v))) + Encode(c, order, v)
  }

  /**
   * Encoding a list of values one after the other is plain concatenation:
   * no separator and no prefix, so the encoding of `a + b` is that of `a`
   * followed by that of `b` (a tuple's fields, a list's elements).
   */
  lemma {:induction false} EncodeAllAppend(c: Codec, order: KeyOrder, a: seq<Value>, b: seq<Value>)
    ensures EncodeAll(c, order, a + b) == EncodeAll(c, order, a) + EncodeAll(c, order, b)
    decreases |a|
  {
    if a == [] {
      assert a + b == b;
    } else {
      assert (a + b)[0] == a[0];
      assert (a + b)[1..] == a[1..] + b;
      EncodeAllAppend(c, order, a[1..], b);
    }
  }

  /** Writing one more key's entry appends its key and value, or nothing when it is not a key. */
  lemma {:induction false} EncodeEntriesAppend(c: Codec, order: KeyOrder, v: Value, ks: seq<Value>, k: Value)
    requires v.Map? && k in v.entries
    ensures EncodeEntries(c, order, v, ks + [k])
      == EncodeEntries(c, order, v, ks) + Encode(c, order, k) + Encode(c, order, v.entries[k])
    decreases |ks|
  {
    if ks == [] {
      assert ([] + [k])[1..] == [];
    } else {
      assert (ks + [k])[0] == ks[0];
      assert (ks + [k])[1..] == ks[1..] + [k];
      EncodeEntriesAppend(c, order, v, ks[1..], k);
    }
  }

  /** `binprot_size` is exactly the number of bytes `binprot_write` emits. */
  lemma {:induction false} EncodedLength(c: Codec, order: KeyOrder, v: Value)
    ensures |Encode(c, order, v)| == Size(c, order, v)
    decreases v, 1, 0
  {
    match v
    case OptSome(x) => EncodedLength(c, order, x);
    case List(items) => EncodedLengthAll(c, order, items);
    case Map(m) => EncodedLengthEntries(c, order, v, order(m));
    case Tuple(fields) => EncodedLengthAll(c, order, fields);
    case WithLen(x) => EncodedLength(c, order, x);
    case _ =>
  }

  lemma {:induction false} EncodedLengthAll(c: Codec, order: KeyOrder, vs: seq<Value>)
    ensures |EncodeAll(c, order, vs)| == SizeAll(c, order, vs)
    decreases vs, 0, 0
  {
    if vs != [] {
      EncodedLength(c, order, vs[0]);
      EncodedLengthAll(c, order, vs[1..]);
    }
  }

  lemma {:induction false} EncodedLengthEntries(c: Codec, order: KeyOrder, v: Value, ks: seq<Value>)
    requires v.Map?
    ensures |EncodeEntries(c, order, v, ks)| == SizeEntries(c, order, v, ks)
    decreases v, 0, |ks|
  {
    if ks != [] {
      if ks[0] in v.entries {
        assert ks[0] in v.entries.Keys;
        EncodedLength(c, order, ks[0]);
        EncodedLength(c, order, v.entries[ks[0]]);
      }
      EncodedLengthEntries(c, order, v, ks[1..]);
    }
  }
}
