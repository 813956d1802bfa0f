/**
 * The reader side as functions over the whole input `data` and the
 * position `pos` of the next unread byte. Each answers the decoded value
 * and the position after it, or the error the Rust reader returns.
 */
module Decoding {
  import opened ByteOrder
  import opened Errors
  import opened Utf8
  import opened IntCodec
  import opened Wire

  /** `read_u8`: the next byte, or an I/O error at the end of the input. */
  function ReadU8(data: seq<byte>, pos: nat): (r: Result<byte>)
    requires pos <= |data|
  {
    if pos < |data| then Ok(data[pos]) else Err(Io)
  }

  /**
   * `T::binprot_read` for the type `t`: on success the value's bytes lie
   * between `pos` and the returned position (`DecodeWellTyped` shows the
   * value has type `t`).
   */
  function Decode(c: Codec, t: Ty, data: seq<byte>, pos: nat): (r: Result<(Value, nat)>)
    requires ReadersBounded(c) && pos <= |data|
    ensures r.Ok? ==> pos <= r.value.1 <= |data|
    decreases t, 2, 0
  {
    match t
    case UnitTy => DecodeUnit(data, pos)
    case BoolTy => DecodeBool(data, pos)
    case Nat0Ty => DecodeNat0(c, data, pos)
    case I64Ty => DecodeI64(c, data, pos)
    case F64Ty => DecodeF64(data, pos)
    case OptionTy(_) => DecodeOption(c, t, data, pos)
    case VecTy(_) => DecodeVec(c, t, data, pos)
    case StringTy => DecodeString(c, data, pos)
    case MapTy(_, _) => DecodeMap(c, t, data, pos)
    case TupleTy(_) => DecodeTuple(c, t, data, pos)
    case WithLenTy(_) => DecodeWithLen(c, t, data, pos)
  }

  function DecodeUnit(data: seq<byte>, pos: nat): (r: Result<(Value, nat)>)
    requires pos <= |data|
    ensures r.Ok? ==> pos < r.value.1 <= |data|
  {
    var b :- ReadU8(data, pos);
    if b == 0 then Ok((Unit, pos + 1)) else Err(UnexpectedValueForUnit(b))
  }

  function DecodeBool(data: seq<byte>, pos: nat): (r: Result<(Value, nat)>)
    requires pos <= |data|
    ensures r.Ok? ==> pos < r.value.1 <= |data|
  {
    var b :- ReadU8(data, pos);
    if b == 0 then Ok((Bool(false), pos + 1))
    else if b == 1 then Ok((Bool(true), pos + 1))
    else Err(UnexpectedValueForBool(b))
  }

  function DecodeNat0(c: Codec, data: seq<byte>, pos: nat): (r: Result<(Value, nat)>)
    requires ReadersBounded(c) && pos <= |data|
    ensures r.Ok? ==> pos < r.value.1 <= |data|
  {
    var (n, p) :- c.readNat0(data, pos);
    Ok((Nat0(n), p))
  }

  function DecodeI64(c: Codec, data: seq<byte>, pos: nat): (r: Result<(Value, nat)>)
    requires ReadersBounded(c) && pos <= |data|
    ensures r.Ok? ==> pos < r.value.1 <= |data|
  {
    var (x, p) :- c.readSigned(data, pos);
    Ok((I64(x), p))
  }

  /** `read_f64::<LittleEndian>`, kept as the raw 64-bit pattern. */
  function DecodeF64(data: seq<byte>, pos: nat): (r: Result<(Value, nat)>)
    requires pos <= |data|
    ensures r.Ok? ==> pos < r.value.1 <= |data|
  {
    if |data| - pos < 8 then Err(Io)
    else
      Pow256Of8();
      Ok((F64(FromLittleEndian(data[pos..pos + 8])), pos + 8))
  }

  function DecodeOption(c: Codec, t: Ty, data: seq<byte>, pos: nat): (r: Result<(Value, nat)>)
    requires ReadersBounded(c) && pos <= |data| && t.OptionTy?
    ensures r.Ok? ==> pos < r.value.1 <= |data|
    decreases t, 1, 0
  {
    var tag :- ReadU8(data, pos);
    if tag == 0 then Ok((OptNone, pos + 1))
    else if tag == 1 then
      var (x, p) :- Decode(c, t.elem, data, pos + 1);
      Ok((OptSome(x), p))
    else Err(UnexpectedValueForOption(tag))
  }

  function DecodeVec(c: Codec, t: Ty, data: seq<byte>, pos: nat): (r: Result<(Value, nat)>)
    requires ReadersBounded(c) && pos <= |data| && t.VecTy?
    ensures r.Ok? ==> pos < r.value.1 <= |data|
    decreases t, 1, 0
  {
    var (n, p) :- c.readNat0(data, pos);
    var (items, q) :- DecodeItems(c, t, data, p, n, []);
    Ok((List(items), q))
  }

  /** Reads `n` more elements after those in `acc`, stopping at the first error. */
  function DecodeItems(c: Codec, t: Ty, data: seq<byte>, pos: nat, n: nat, acc: seq<Value>)
    : (r: Result<(seq<Value>, nat)>)
    requires ReadersBounded(c) && pos <= |data| && t.VecTy?
    ensures r.Ok? ==> pos <= r.value.1 <= |data|
    decreases t, 0, n
  {
    if n == 0 then Ok((acc, pos))
    else
      var (x, p) :- Decode(c, t.elem, data, pos);
      DecodeItems(c, t, data, p, n - 1, acc + [x])
  }

  function DecodeString(c: Codec, data: seq<byte>, pos: nat): (r: Result<(Value, nat)>)
    requires ReadersBounded(c) && pos <= |data|
    ensures r.Ok? ==> pos < r.value.1 <= |data|
  {
    var (n, p) :- c.readNat0(data, pos);
    if |data| - p < n then Err(Io)
    else
      var bytes := data[p..p + n];
      if ValidUtf8(bytes) then Ok((Str(bytes), p + n)) else Err(Utf8Error)
  }

  function DecodeMap(c: Codec, t: Ty, data: seq<byte>, pos: nat): (r: Result<(Value, nat)>)
    requires ReadersBounded(c) && pos <= |data| && t.MapTy?
    ensures r.Ok? ==> pos < r.value.1 <= |data|
    decreases t, 1, 0
  {
    var (n, p) :- c.readNat0(data, pos);
    var (m, q) :- DecodeEntries(c, t, data, p, n, map[]);
    Ok((Map(m), q))
  }

  /**
   * Reads `n` more key/value pairs into `acc`; a key already present fails
   * the whole read, after its value has been read.
   */
  function DecodeEntries(c: Codec, t: Ty, data: seq<byte>, pos: nat, n: nat, acc: map<Value, Value>)
    : (r: Result<(map<Value, Value>, nat)>)
    requires ReadersBounded(c) && pos <= |data| && t.MapTy?
    ensures r.Ok? ==> pos <= r.value.1 <= |data|
    decreases t, 0, n
  {
    if n == 0 then Ok((acc, pos))
    else
      var (k, p) :- Decode(c, t.key, data, pos);
      var (x, q) :- Decode(c, t.val, data, p);
      if k in acc then Err(SameKeyAppearsTwiceInMap)
      else DecodeEntries(c, t, data, q, n - 1, acc[k := x])
  }

  function DecodeTuple(c: Codec, t: Ty, data: seq<byte>, pos: nat): (r: Result<(Value, nat)>)
    requires ReadersBounded(c) && pos <= |data| && t.TupleTy?
    ensures r.Ok? ==> pos <= r.value.1 <= |data|
    decreases t, 1, 0
  {
    var (fields, p) :- DecodeFields(c, t, data, pos, []);
    Ok((Tuple(fields), p))
  }

  /** Reads the fields after those in `acc`, each with its own type, in order. */
  function DecodeFields(c: Codec, t: Ty, data: seq<byte>, pos: nat, acc: seq<Value>)
    : (r: Result<(seq<Value>, nat)>)
    requires ReadersBounded(c) && pos <= |data| && t.TupleTy?
    requires |acc| <= |t.fieldTys|
    ensures r.Ok? ==> pos <= r.value.1 <= |data|
    decreases t, 0, |t.fieldTys| - |acc|
  {
    if |acc| == |t.fieldTys| then Ok((acc, pos))
    else
      var (x, p) :- Decode(c, t.fieldTys[|acc|], data, pos);
      DecodeFields(c, t, data, p, acc + [x])
  }

  /** The declared length is read and then not used. */
  function DecodeWithLen(c: Codec, t: Ty, data: seq<byte>, pos: nat): (r: Result<(Value, nat)>)
    requires ReadersBounded(c) && pos <= |data| && t.WithLenTy?
    ensures r.Ok? ==> pos < r.value.1 <= |data|
    decreases t, 1, 0
  {
    var (_, p) :- c.readNat0(data, pos);
    var (x, q) :- Decode(c, t.inner, data, p);
    Ok((WithLen(x), q))
  }

  /**
   * `binprot_read_with_size`: an 8-byte little-endian `i64` length, which is
   * not used, then the value.
   */
  function DecodeWithSize(c: Codec, t: Ty, data: seq<byte>, pos: nat): (r: Result<(Value, nat)>)
    requires ReadersBounded(c) && pos <= |data|
    ensures r.Ok? ==> pos + 8 <= r.value.1 <= |data|
  {
    if |data| - pos < 8 then Err(Io)
    else Decode(c, t, data, pos + 8)
  }
}
