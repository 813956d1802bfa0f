/**
 * The `BinProtRead` impls as methods of a source. The source stands for
 * the `R: Read` every reader consumes: the whole input `data` and the
 * position `pos` of the next unread byte. Each method returns what the
 * matching `Decoding` function returns and, on success, leaves `pos` just
 * after the value; after an error the position is not specified, beyond
 * staying within the input.
 */
module Reader {
  import opened ByteOrder
  import opened Errors
  import opened Utf8
  import opened IntCodec
  import opened Wire
  import opened Decoding

  class Source {
    /** The integer codec of `src/int.rs` the readers call. */
    const codec: Codec
    const data: seq<byte>
    var pos: nat

    ghost predicate Valid()
      reads this
    {
      ReadersBounded(codec) && pos <= |data|
    }

    constructor (codec: Codec, data: seq<byte>)
      requires ReadersBounded(codec)
      ensures this.codec == codec && this.data == data && pos == 0 && Valid()
    {
      this.codec := codec;
      this.data := data;
      pos := 0;
    }

    /**
     * `r` is what the reader specification `d` answers: its value, with the
     * source advanced to the position it names, or its error.
     */
    ghost predicate Agrees<T>(r: Result<T>, d: Result<(T, nat)>)
      reads this
    {
      && (d.Ok? ==> r == Ok(d.value.0) && pos == d.value.1)
      && (d.Err? ==> r == Err(d.error))
    }

    /** `read_u8`. */
    method ReadByte() returns (r: Result<byte>)
      requires Valid()
      modifies this
      ensures Valid()
      ensures r == ReadU8(data, old(pos))
      ensures r.Ok? ==> pos == old(pos) + 1
    {
      if pos == |data| {
        return Err(Io);
      }
      r := Ok(data[pos]);
      pos := pos + 1;
    }

    /** `read_exact` of `n` bytes. */
    method ReadExact(n: nat) returns (r: Result<seq<byte>>)
      requires Valid()
      modifies this
      ensures Valid()
      ensures |data| - old(pos) < n ==> r == Err(Io)
      ensures |data| - old(pos) >= n ==> r == Ok(data[old(pos)..old(pos) + n]) && pos == old(pos) + n
    {
      if |data| - pos < n {
        return Err(Io);
      }
      r := Ok(data[pos..pos + n]);
      pos := pos + n;
    }

    /** `int::read_nat0`. */
    method ReadNat0() returns (r: Result<nat>)
      requires Valid()
      modifies this
      ensures Valid() && Agrees(r, codec.readNat0(data, old(pos)))
    {
      var res := codec.readNat0(data, pos);
      if res.Err? {
        return Err(res.error);
      }
      pos := res.value.1;
      r := Ok(res.value.0);
    }

    /** `int::read_signed`. */
    method ReadSigned() returns (r: Result<int>)
      requires Valid()
      modifies this
      ensures Valid() && Agrees(r, codec.readSigned(data, old(pos)))
    {
      var res := codec.readSigned(data, pos);
      if res.Err? {
        return Err(res.error);
      }
      pos := res.value.1;
      r := Ok(res.value.0);
    }

    /** `()`: only the byte 0. */
    method ReadUnit() returns (r: Result<Value>)
      requires Valid()
      modifies this
      ensures Valid() && Agrees(r, DecodeUnit(data, old(pos)))
    {
      var b := ReadByte();
      if b.Err? {
        return Err(b.error);
      }
      if b.value == 0 {
        return Ok(Unit);
      }
      return Err(UnexpectedValueForUnit(b.value));
    }

    /** `bool`: 0 is false, 1 is true. */
    method ReadBool() returns (r: Result<Value>)
      requires Valid()
      modifies this
      ensures Valid() && Agrees(r, DecodeBool(data, old(pos)))
    {
      var b := ReadByte();
      if b.Err? {
        return Err(b.error);
      }
      if b.value == 0 {
        return Ok(Bool(false));
      } else if b.value == 1 {
        return Ok(Bool(true));
      }
      return Err(UnexpectedValueForBool(b.value));
    }

    /** `read_f64::<LittleEndian>`, kept as its bit pattern. */
    method ReadF64() returns (r: Result<Value>)
      requires Valid()
      modifies this
      ensures Valid() && Agrees(r, DecodeF64(data, old(pos)))
    {
      var bytes := ReadExact(8);
      if bytes.Err? {
        return Err(bytes.error);
      }
      return Ok(F64(FromLittleEndian(bytes.value)));
    }

    /** `Option<T>`: 0 is `None`, 1 is `Some` of the value that follows. */
    method ReadOption(t: Ty) returns (r: Result<Value>)
      requires Valid() && t.OptionTy?
      modifies this
      ensures Valid() && Agrees(r, DecodeOption(codec, t, data, old(pos)))
      decreases t, 1
    {
      var tag := ReadByte();
      if tag.Err? {
        return Err(tag.error);
      }
      if tag.value == 0 {
        return Ok(OptNone);
      } else if tag.value == 1 {
        var x := Read(t.elem);
        if x.Err? {
          return Err(x.error);
        }
        return Ok(OptSome(x.value));
      }
      return Err(UnexpectedValueForOption(tag.value));
    }

    /** `Vec<T>`: the `nat0` length, then that many elements, pushed in order. */
    method ReadVec(t: Ty) returns (r: Result<Value>)
      requires Valid() && t.VecTy?
      modifies this
      ensures Valid() && Agrees(r, DecodeVec(codec, t, data, old(pos)))
      decreases t, 1
    {
      var len := ReadNat0();
      if len.Err? {
        return Err(len.error);
      }
      var n := len.value;
      ghost var start := pos;
      var items: seq<Value> := [];
      for i := 0 to n
        invariant Valid()
        invariant DecodeItems(codec, t, data, start, n, []) == DecodeItems(codec, t, data, pos, n - i, items)
      {
        var item := Read(t.elem);
        if item.Err? {
          return Err(item.error);
        }
        items := items + [item.value];
      }
      return Ok(List(items));
    }

    /**
     * `String`: the `nat0` length, then exactly that many bytes, which must
     * be UTF-8.
     */
    method ReadString() returns (r: Result<Value>)
      requires Valid()
      modifies this
      ensures Valid() && Agrees(r, DecodeString(codec, data, old(pos)))
    {
      var len := ReadNat0();
      if len.Err? {
        return Err(len.error);
      }
      var bytes := ReadExact(len.value);
      if bytes.Err? {
        return Err(bytes.error);
      }
      if !ValidUtf8(bytes.value) {
        return Err(Utf8Error);
      }
      return Ok(Str(bytes.value));
    }

    /**
     * `BTreeMap` and `HashMap`: the `nat0` number of entries, then key and
     * value of each; a key met a second time fails the read. (The Rust code
     * inserts and then looks at the displaced value; the map is dropped on
     * that error, so checking first returns the same.)
     */
    method ReadMap(t: Ty) returns (r: Result<Value>)
      requires Valid() && t.MapTy?
      modifies this
      ensures Valid() && Agrees(r, DecodeMap(codec, t, data, old(pos)))
      decreases t, 1
    {
      var len := ReadNat0();
      if len.Err? {
        return Err(len.error);
      }
      var n := len.value;
      ghost var start := pos;
      var res: map<Value, Value> := map[];
      for i := 0 to n
        invariant Valid()
        invariant DecodeEntries(codec, t, data, start, n, map[]) == DecodeEntries(codec, t, data, pos, n - i, res)
      {
        var k := Read(t.key);
        if k.Err? {
          return Err(k.error);
        }
        var x := Read(t.val);
        if x.Err? {
          return Err(x.error);
        }
        if k.value in res {
          return Err(SameKeyAppearsTwiceInMap);
        }
        res := res[k.value := x.value];
      }
      return Ok(Map(res));
    }

    /** A tuple of any arity: each field with its own type, in order. */
    method ReadTuple(t: Ty) returns (r: Result<Value>)
      requires Valid() && t.TupleTy?
      modifies this
      ensures Valid() && Agrees(r, DecodeTuple(codec, t, data, old(pos)))
      decreases t, 1
    {
      ghost var start := pos;
      var fields: seq<Value> := [];
      for i := 0 to |t.fieldTys|
        invariant Valid() && |fields| == i
        invariant DecodeFields(codec, t, data, start, []) == DecodeFields(codec, t, data, pos, fields)
      {
        var x := Read(t.fieldTys[i]);
        if x.Err? {
          return Err(x.error);
        }
        fields := fields + [x.value];
      }
      return Ok(Tuple(fields));
    }

    /** `WithLen<T>`: the `nat0` length is read and dropped, then the payload. */
    method ReadWithLen(t: Ty) returns (r: Result<Value>)
      requires Valid() && t.WithLenTy?
      modifies this
      ensures Valid() && Agrees(r, DecodeWithLen(codec, t, data, old(pos)))
      decreases t, 1
    {
      var len := ReadNat0();
      if len.Err? {
        return Err(len.error);
      }
      var x := Read(t.inner);
      if x.Err? {
        return Err(x.error);
      }
      return Ok(WithLen(x.value));
    }

    /** `T::binprot_read` for the type `t`. */
    method Read(t: Ty) returns (r: Result<Value>)
      requires Valid()
      modifies this
      ensures Valid() && Agrees(r, Decode(codec, t, data, old(pos)))
      decreases t, 2
    {
      match t
      case UnitTy => r := ReadUnit();
      case BoolTy => r := ReadBool();
      case Nat0Ty =>
        var n := ReadNat0();
        r := if n.Ok? then Ok(Nat0(n.value)) else Err(n.error);
      case I64Ty =>
        var x := ReadSigned();
        r := if x.Ok? then Ok(I64(x.value)) else Err(x.error);
      case F64Ty => r := ReadF64();
      case OptionTy(_) => r := ReadOption(t);
      case VecTy(_) => r := ReadVec(t);
      case StringTy => r := ReadString();
      case MapTy(_, _) => r := ReadMap(t);
      case TupleTy(_) => r := ReadTuple(t);
      case WithLenTy(_) => r := ReadWithLen(t);
    }
  }

  /** `binprot_read_with_size`: an 8-byte little-endian `i64`, dropped, then the value. */
  method ReadWithSize(s: Source, t: Ty) returns (r: Result<Value>)
    requires s.Valid()
    modifies s
    ensures s.Valid() && s.Agrees(r, DecodeWithSize(s.codec, t, s.data, old(s.pos)))
  {
    var header := s.ReadExact(8);
    if header.Err? {
      return Err(header.error);
    }
    var _ := ReadI64Le(header.value);
    r := s.Read(t);
  }
}
