/**
 * What a successful read guarantees on any input, not only on the output
 * of a writer: the value has the requested type, a list has exactly the
 * announced number of elements, and a map has exactly the announced number
 * of keys, each bound to the value read right after it.
 */
module Soundness {
  import opened ByteOrder
  import opened Errors
  import opened IntCodec
  import opened Wire
  import opened Encoding
  import opened Decoding

  /** Every value a reader returns is a value of the type it was asked for. */
  lemma {:induction false} DecodeWellTyped(c: Codec, t: Ty, data: seq<byte>, pos: nat)
    requires ReadersBounded(c) && pos <= |data|
    requires Decode(c, t, data, pos).Ok?
    ensures HasType(Decode(c, t, data, pos).value.0, t)
    decreases t, 2, 0
  {
    match t
    case UnitTy =>
    case BoolTy =>
    case Nat0Ty =>
    case I64Ty =>
    case F64Ty => Pow256Of8();
    case OptionTy(e) =>
      if data[pos] == 1 {
        DecodeWellTyped(c, e, data, pos + 1);
      }
    case VecTy(_) => VecWellTyped(c, t, data, pos);
    case StringTy =>
    case MapTy(_, _) => MapWellTyped(c, t, data, pos);
    case TupleTy(_) => TupleWellTyped(c, t, data, pos);
    case WithLenTy(e) =>
      var (_, p) := c.readNat0(data, pos).value;
      DecodeWellTyped(c, e, data, p);
  }

  lemma {:induction false} VecWellTyped(c: Codec, t: Ty, data: seq<byte>, pos: nat)
    requires ReadersBounded(c) && pos <= |data| && t.VecTy?
    requires DecodeVec(c, t, data, pos).Ok?
    ensures HasType(DecodeVec(c, t, data, pos).value.0, t)
    ensures c.readNat0(data, pos).Ok? && DecodeVec(c, t, data, pos).value.0.List?
    ensures |DecodeVec(c, t, data, pos).value.0.items| == c.readNat0(data, pos).value.0
    decreases t, 1, 0
  {
    var (n, p) := c.readNat0(data, pos).value;
    ItemsWellTyped(c, t, data, p, n, []);
  }

  /** The elements read are those in `acc` and then exactly `n` more, all of the element type. */
  lemma {:induction false} ItemsWellTyped(c: Codec, t: Ty, data: seq<byte>, pos: nat, n: nat, acc: seq<Value>)
    requires ReadersBounded(c) && pos <= |data| && t.VecTy?
    requires forall i :: 0 <= i < |acc| ==> HasType(acc[i], t.elem)
    requires DecodeItems(c, t, data, pos, n, acc).Ok?
    ensures |DecodeItems(c, t, data, pos, n, acc).value.0| == |acc| + n
    ensures forall i :: 0 <= i < |acc| + n ==> HasType(DecodeItems(c, t, data, pos, n, acc).value.0[i], t.elem)
    decreases t, 0, n
  {
    if n > 0 {
      var (x, p) := Decode(c, t.elem, data, pos).value;
      DecodeWellTyped(c, t.elem, data, pos);
      ItemsWellTyped(c, t, data, p, n - 1, acc + [x]);
    }
  }

  lemma {:induction false} MapWellTyped(c: Codec, t: Ty, data: seq<byte>, pos: nat)
    requires ReadersBounded(c) && pos <= |data| && t.MapTy?
    requires DecodeMap(c, t, data, pos).Ok?
    ensures HasType(DecodeMap(c, t, data, pos).value.0, t)
    ensures c.readNat0(data, pos).Ok? && DecodeMap(c, t, data, pos).value.0.Map?
    ensures |DecodeMap(c, t, data, pos).value.0.entries| == c.readNat0(data, pos).value.0
    decreases t, 1, 0
  {
    var (n, p) := c.readNat0(data, pos).value;
    EntriesWellTyped(c, t, data, p, n, map[]);
  }

  /** The keys and values read are those in `acc` and then exactly `n` new keys, all well typed. */
  lemma {:induction false} EntriesWellTyped(c: Codec, t: Ty, data: seq<byte>, pos: nat, n: nat,
                                            acc: map<Value, Value>)
    requires ReadersBounded(c) && pos <= |data| && t.MapTy?
    requires forall k :: k in acc ==> HasType(k, t.key) && HasType(acc[k], t.val)
    requires DecodeEntries(c, t, data, pos, n, acc).Ok?
    ensures |DecodeEntries(c, t, data, pos, n, acc).value.0| == |acc| + n
    ensures forall k :: k in DecodeEntries(c, t, data, pos, n, acc).value.0 ==>
      HasType(k, t.key) && HasType(DecodeEntries(c, t, data, pos, n, acc).value.0[k], t.val)
    decreases t, 0, n
  {
    if n > 0 {
      var (k, p) := Decode(c, t.key, data, pos).value;
      var (x, q) := Decode(c, t.val, data, p).value;
      DecodeWellTyped(c, t.key, data, pos);
      DecodeWellTyped(c, t.val, data, p);
      EntriesWellTyped(c, t, data, q, n - 1, acc[k := x]);
    }
  }

  lemma {:induction false} TupleWellTyped(c: Codec, t: Ty, data: seq<byte>, pos: nat)
    requires ReadersBounded(c) && pos <= |data| && t.TupleTy?
    requires DecodeTuple(c, t, data, pos).Ok?
    ensures HasType(DecodeTuple(c, t, data, pos).value.0, t)
    decreases t, 1, 0
  {
    FieldsWellTyped(c, t, data, pos, []);
  }

  /** The fields read are those in `acc` and then one of each remaining field type. */
  lemma {:induction false} FieldsWellTyped(c: Codec, t: Ty, data: seq<byte>, pos: nat, acc: seq<Value>)
    requires ReadersBounded(c) && pos <= |data| && t.TupleTy? && |acc| <= |t.fieldTys|
    requires forall i :: 0 <= i < |acc| ==> HasType(acc[i], t.fieldTys[i])
    requires DecodeFields(c, t, data, pos, acc).Ok?
    ensures |DecodeFields(c, t, data, pos, acc).value.0| == |t.fieldTys|
    ensures forall i :: 0 <= i < |t.fieldTys| ==>
      HasType(DecodeFields(c, t, data, pos, acc).value.0[i], t.fieldTys[i])
    decreases t, 0, |t.fieldTys| - |acc|
  {
    if |acc| < |t.fieldTys| {
      var (x, p) := Decode(c, t.fieldTys[|acc|], data, pos).value;
      DecodeWellTyped(c, t.fieldTys[|acc|], data, pos);
      FieldsWellTyped(c, t, data, p, acc + [x]);
    }
  }

  /** Reading more entries never drops or rebinds a key already read. */
  lemma {:induction false} EntriesKeep(c: Codec, t: Ty, data: seq<byte>, pos: nat, n: nat, acc: map<Value, Value>)
    requires ReadersBounded(c) && pos <= |data| && t.MapTy?
    requires DecodeEntries(c, t, data, pos, n, acc).Ok?
    ensures forall k :: k in acc ==>
      k in DecodeEntries(c, t, data, pos, n, acc).value.0 && DecodeEntries(c, t, data, pos, n, acc).value.0[k] == acc[k]
    decreases n
  {
    if n > 0 {
      var (k, p) := Decode(c, t.key, data, pos).value;
      var (x, q) := Decode(c, t.val, data, p).value;
      EntriesKeep(c, t, data, q, n - 1, acc[k := x]);
    }
  }

  /**
   * The first key read is new, and the map finally read binds it to the
   * value read right after it.
   */
  lemma EntriesBindFollowingValue(c: Codec, t: Ty, data: seq<byte>, pos: nat, n: nat, acc: map<Value, Value>)
    requires ReadersBounded(c) && pos <= |data| && t.MapTy? && n > 0
    requires DecodeEntries(c, t, data, pos, n, acc).Ok?
    ensures Decode(c, t.key, data, pos).Ok?
    ensures Decode(c, t.val, data, Decode(c, t.key, data, pos).value.1).Ok?
    ensures Decode(c, t.key, data, pos).value.0 !in acc
    ensures var m := DecodeEntries(c, t, data, pos, n, acc).value.0;
      var k := Decode(c, t.key, data, pos).value.0;
      k in m && m[k] == Decode(c, t.val, data, Decode(c, t.key, data, pos).value.1).value.0
  {
    var (k, p) := Decode(c, t.key, data, pos).value;
    var (x, q) := Decode(c, t.val, data, p).value;
    EntriesKeep(c, t, data, q, n - 1, acc[k := x]);
  }

  /**
   * Any eight bytes read as an `f64`, and writing that `f64` back gives the
   * same eight bytes: the bit pattern passes through unchanged.
   */
  lemma F64BytesRoundTrip(c: Codec, order: KeyOrder, data: seq<byte>, pos: nat)
    requires pos + 8 <= |data|
    ensures DecodeF64(data, pos).Ok?
    ensures Encode(c, order, DecodeF64(data, pos).value.0) == data[pos..pos + 8]
  {
    FromLittleEndianRoundTrip(data[pos..pos + 8]);
  }
}
