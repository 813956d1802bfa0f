/**
 * The `BinProtWrite` impls as methods of a sink. The sink stands for the
 * `W: Write` every writer appends to; `out` is everything written to it
 * so far. Each method appends exactly the bytes `Encode` gives for its
 * value, so `binprot_size` (`Size`) and the readers' round trip carry over
 * to what the methods write.
 */
module Writer {
  import opened ByteOrder
  import opened IntCodec
  import opened Wire
  import opened Encoding

  class Sink {
    /** The integer codec of `src/int.rs` the writers call. */
    const codec: Codec
    /** The order in which the maps written through this sink yield their keys. */
    const order: KeyOrder
    var out: seq<byte>

    constructor (codec: Codec, order: KeyOrder)
      ensures this.codec == codec && this.order == order && out == []
    {
      this.codec := codec;
      this.order := order;
      out := [];
    }

    /** `w.write_all(bytes)`. */
    method WriteAll(bytes: seq<byte>)
      modifies this
      ensures out == old(out) + bytes
    {
      out := out + bytes;
    }

    /** `int::write_nat0`. */
    method WriteNat0(n: nat)
      modifies this
      ensures out == old(out) + codec.writeNat0(n)
    {
      WriteAll(codec.writeNat0(n));
    }

    /** `int::write_i64`. */
    method WriteI64(x: int)
      modifies this
      ensures out == old(out) + codec.writeI64(x)
    {
      WriteAll(codec.writeI64(x));
    }

    /** `()`: the single byte 0. */
    method WriteUnit()
      modifies this
      ensures out == old(out) + Encode(codec, order, Unit)
    {
      WriteAll([0]);
    }

    /** `bool`: 1 for true, 0 for false. */
    method WriteBool(b: bool)
      modifies this
      ensures out == old(out) + Encode(codec, order, Bool(b))
    {
      var tag: byte := if b then 1 else 0;
      WriteAll([tag]);
    }

    /** `f64`: `to_le_bytes` of its bit pattern. */
    method WriteF64(bits: nat)
      modifies this
      ensures out == old(out) + Encode(codec, order, F64(bits))
    {
      WriteAll(LittleEndian(bits, 8));
    }

    /** `Option<T>`: 0 for `None`; 1 and then the value for `Some`. */
    method WriteOption(v: Value)
      requires OrderValid(order) && (v.OptNone? || v.OptSome?)
      modifies this
      ensures out == old(out) + Encode(codec, order, v)
      decreases v, 0
    {
      if v.OptNone? {
        WriteAll([0]);
      } else {
        WriteAll([1]);
        Write(v.some);
      }
    }

    /** `Vec<T>` and `&[T]`: the `nat0` length, then each element in index order. */
    method WriteList(v: Value)
      requires OrderValid(order) && v.List?
      modifies this
      ensures out == old(out) + Encode(codec, order, v)
      decreases v, 0
    {
      var items := v.items;
      WriteNat0(|items|);
      for i := 0 to |items|
        invariant out == old(out) + codec.writeNat0(|items|) + EncodeAll(codec, order, items[..i])
      {
        Write(items[i]);
        EncodeAllPrefix(codec, order, items, i);
      }
      assert items[..|items|] == items;
    }

    /** `String` and `&str`: the `nat0` byte length, then the bytes. */
    method WriteStr(v: Value)
      requires v.Str?
      modifies this
      ensures out == old(out) + Encode(codec, order, v)
    {
      WriteNat0(|v.bytes|);
      WriteAll(v.bytes);
    }

    /**
     * `BTreeMap` and `HashMap`: the `nat0` number of entries, then key and
     * value of each entry, in the order the map's iterator yields them.
     */
    method WriteMap(v: Value)
      requires OrderValid(order) && v.Map?
      modifies this
      ensures out == old(out) + Encode(codec, order, v)
      decreases v, 0
    {
      var m := v.entries;
      var ks := order(m);
      assert ListsKeysOf(order, m);
      WriteNat0(|m|);
      ghost var header := out;
      for i := 0 to |ks|
        invariant out == header + EncodeEntries(codec, order, v, ks[..i])
      {
        var k := ks[i];
        assert k in m.Keys;
        Write(k);
        Write(m[k]);
        EncodeEntriesPrefix(codec, order, v, ks, i);
        SeqAssoc(header, EncodeEntries(codec, order, v, ks[..i]), Encode(codec, order, k), Encode(codec, order, m[k]));
      }
      assert ks[..|ks|] == ks;
    }

    /** A tuple of any arity: its fields one after the other, with nothing before them. */
    method WriteTuple(v: Value)
      requires OrderValid(order) && v.Tuple?
      modifies this
      ensures out == old(out) + Encode(codec, order, v)
      decreases v, 0
    {
      var fields := v.fields;
      for i := 0 to |fields|
        invariant out == old(out) + EncodeAll(codec, order, fields[..i])
      {
        Write(fields[i]);
        EncodeAllPrefix(codec, order, fields, i);
      }
      assert fields[..|fields|] == fields;
    }

    /** `WithLen<T>`: the `nat0` of the payload's `binprot_size`, then the payload. */
    method WriteWithLen(v: Value)
      requires OrderValid(order) && v.WithLen?
      modifies this
      ensures out == old(out) + Encode(codec, order, v)
      decreases v, 0
    {
      WriteNat0(Size(codec, order, v.inner));
      Write(v.inner);
    }

    /** `binprot_write`, dispatched on the shape of the value. */
    method Write(v: Value)
      requires OrderValid(order)
      modifies this
      ensures out == old(out) + Encode(codec, order, v)
      decreases v, 1
    {
      match v
      case Unit => WriteUnit();
      case Bool(b) => WriteBool(b);
      case Nat0(n) => WriteNat0(n);
      case I64(i) => WriteI64(i);
      case F64(bits) => WriteF64(bits);
      case OptNone => WriteOption(v);
      case OptSome(_) => WriteOption(v);
      case List(_) => WriteList(v);
      case Str(_) => WriteStr(v);
      case Map(_) => WriteMap(v);
      case Tuple(_) => WriteTuple(v);
      case WithLen(_) => WriteWithLen(v);
    }
  }

  lemma SeqAssoc(a: seq<byte>, b: seq<byte>, c: seq<byte>, d: seq<byte>)
    ensures a + b + c + d == a + (b + c + d)
  {
  }

  /** One more element of the prefix written so far. */
  lemma EncodeAllPrefix(c: Codec, order: KeyOrder, vs: seq<Value>, i: nat)
    requires i < |vs|
    ensures EncodeAll(c, order, vs[..i + 1]) == EncodeAll(c, order, vs[..i]) + Encode(c, order, vs[i])
  {
    EncodeAllAppend(c, order, vs[..i], [vs[i]]);
    assert vs[..i + 1] == vs[..i] + [vs[i]];
  }

  /** One more entry of the prefix of keys written so far. */
  lemma EncodeEntriesPrefix(c: Codec, order: KeyOrder, v: Value, ks: seq<Value>, i: nat)
    requires v.Map? && i < |ks| && ks[i] in v.entries
    ensures EncodeEntries(c, order, v, ks[..i + 1])
      == EncodeEntries(c, order, v, ks[..i]) + Encode(c, order, ks[i]) + Encode(c, order, v.entries[ks[i]])
  {
    EncodeEntriesAppend(c, order, v, ks[..i], ks[i]);
    assert ks[..i + 1] == ks[..i] + [ks[i]];
  }

  /** `binprot_write_with_size`: the size as a little-endian `i64`, then the value. */
  method WriteWithSize(w: Sink, v: Value)
    requires OrderValid(w.order) && IsU64(Size(w.codec, w.order, v))
    modifies w
    ensures w.out == old(w.out) + EncodeWithSize(w.codec, w.order, v)
  {
    var len := Size(w.codec, w.order, v);
    w.WriteAll(WriteI64Le(UsizeAsI64(len)));
    w.Write(v);
  }
}
