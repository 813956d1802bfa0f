/**
 * Reading back what was written: for every value of a type, every lawful
 * integer codec and every map iteration order, the reader for that type
 * returns the value and stops right after its bytes.
 */
module RoundTrip {
  import opened ByteOrder
  import opened Errors
  import opened IntCodec
  import opened Wire
  import opened Encoding
  import opened Decoding

  /**
   * `read(write(v)) == v`, whatever follows the encoding. Maps compare as
   * maps: the entries come back whatever order the writer chose. The input
   * is assumed shorter than 2^64 bytes, so that every `WithLen` size fits
   * its `u64` prefix.
   */
  lemma {:induction false} RoundTrip(c: Codec, order: KeyOrder, v: Value, t: Ty, data: seq<byte>, pos: nat)
    requires Lawful(c) && OrderValid(order) && HasType(v, t) && IsU64(|data|)
    requires At(data, pos, Encode(c, order, v))
    ensures Decode(c, t, data, pos) == Ok((v, pos + |Encode(c, order, v)|))
    decreases v, 2, 0
  {
    match t
    case UnitTy => AtHead(data, pos, Encode(c, order, v));
    case BoolTy => AtHead(data, pos, Encode(c, order, v));
    case Nat0Ty => ReadNat0At(c, data, pos, v.n);
    case I64Ty => ReadSignedAt(c, data, pos, v.i);
    case F64Ty => F64RoundTrip(c, order, v, t, data, pos);
    case OptionTy(_) => OptionRoundTrip(c, order, v, t, data, pos);
    case VecTy(_) => VecCase(c, order, v, t, data, pos);
    case StringTy => StringRoundTrip(c, order, v, t, data, pos);
    case MapTy(_, _) => MapRoundTrip(c, order, v, t, data, pos);
    case TupleTy(_) => TupleRoundTrip(c, order, v, t, data, pos);
    case WithLenTy(_) => WithLenRoundTrip(c, order, v, t, data, pos);
  }

  /** The 8 little-endian bytes of an `f64` read back as its bit pattern. */
  lemma F64RoundTrip(c: Codec, order: KeyOrder, v: Value, t: Ty, data: seq<byte>, pos: nat)
    requires ReadersBounded(c) && t.F64Ty? && HasType(v, t) && At(data, pos, Encode(c, order, v))
    ensures Decode(c, t, data, pos) == Ok((v, pos + |Encode(c, order, v)|))
  {
    Pow256Of8();
    AtSlice(data, pos, Encode(c, order, v));
    LittleEndianRoundTrip(v.bits, 8);
  }

  /** The string reader gives back the UTF-8 bytes the string writer wrote. */
  lemma StringRoundTrip(c: Codec, order: KeyOrder, v: Value, t: Ty, data: seq<byte>, pos: nat)
    requires Lawful(c) && t.StringTy? && HasType(v, t) && At(data, pos, Encode(c, order, v))
    ensures Decode(c, t, data, pos) == Ok((v, pos + |Encode(c, order, v)|))
  {
    var w := c.writeNat0(|v.bytes|);
    AtConcat(data, pos, w, v.bytes);
    ReadNat0At(c, data, pos, |v.bytes|);
    AtSlice(data, pos + |w|, v.bytes);
  }

  lemma {:induction false} OptionRoundTrip(c: Codec, order: KeyOrder, v: Value, t: Ty, data: seq<byte>, pos: nat)
    requires Lawful(c) && OrderValid(order) && t.OptionTy? && HasType(v, t) && IsU64(|data|)
    requires At(data, pos, Encode(c, order, v))
    ensures Decode(c, t, data, pos) == Ok((v, pos + |Encode(c, order, v)|))
    decreases v, 1, 0
  {
    AtHead(data, pos, Encode(c, order, v));
    if v.OptSome? {
      AtConcat(data, pos, [1], Encode(c, order, v.some));
      RoundTrip(c, order, v.some, t.elem, data, pos + 1);
    }
  }

  lemma {:induction false} VecRoundTrip(c: Codec, order: KeyOrder, v: Value, t: Ty, data: seq<byte>, pos: nat)
    requires Lawful(c) && OrderValid(order) && t.VecTy? && v.List? && IsU64(|v.items|) && IsU64(|data|)
    requires forall i :: 0 <= i < |v.items| ==> HasType(v.items[i], t.elem)
    requires At(data, pos, c.writeNat0(|v.items|) + EncodeAll(c, order, v.items))
    ensures DecodeVec(c, t, data, pos)
      == Ok((v, pos + |c.writeNat0(|v.items|)| + |EncodeAll(c, order, v.items)|))
    decreases v, 1, 0
  {
    var w := c.writeNat0(|v.items|);
    AtConcat(data, pos, w, EncodeAll(c, order, v.items));
    ReadNat0At(c, data, pos, |v.items|);
    AllHaveTypeFrom(v.items, t.elem);
    ItemsRoundTrip(c, order, t, v.items, [], data, pos + |w|);
    assert [] + v.items == v.items;
  }

  lemma {:induction false} VecCase(c: Codec, order: KeyOrder, v: Value, t: Ty, data: seq<byte>, pos: nat)
    requires Lawful(c) && OrderValid(order) && t.VecTy? && HasType(v, t) && IsU64(|data|)
    requires At(data, pos, Encode(c, order, v))
    ensures Decode(c, t, data, pos) == Ok((v, pos + |Encode(c, order, v)|))
    decreases v, 1, 1
  {
    VecRoundTrip(c, order, v, t, data, pos);
  }

  /** The elements of a list, read one after the other after those already read. */
  lemma {:induction false} ItemsRoundTrip(c: Codec, order: KeyOrder, t: Ty, vs: seq<Value>, acc: seq<Value>,
                                          data: seq<byte>, pos: nat)
    requires Lawful(c) && OrderValid(order) && t.VecTy? && IsU64(|data|)
    requires AllHaveType(vs, t.elem)
    requires At(data, pos, EncodeAll(c, order, vs))
    ensures DecodeItems(c, t, data, pos, |vs|, acc) == Ok((acc + vs, pos + |EncodeAll(c, order, vs)|))
    decreases vs, 0, 0
  {
    if vs == [] {
      assert acc + vs == acc;
    } else {
      var first := Encode(c, order, vs[0]);
      AtConcat(data, pos, first, EncodeAll(c, order, vs[1..]));
      RoundTrip(c, order, vs[0], t.elem, data, pos);
      ItemsRoundTrip(c, order, t, vs[1..], acc + [vs[0]], data, pos + |first|);
      ItemsChain(c, order, t, vs, acc, data, pos);
    }
  }

  predicate AllHaveType(vs: seq<Value>, t: Ty) {
    vs == [] || (HasType(vs[0], t) && AllHaveType(vs[1..], t))
  }

  lemma {:induction false} AllHaveTypeFrom(vs: seq<Value>, t: Ty)
    requires forall i :: 0 <= i < |vs| ==> HasType(vs[i], t)
    ensures AllHaveType(vs, t)
  {
    if vs != [] {
      AllHaveTypeFrom(vs[1..], t);
    }
  }

  /** Chains the read of the first element of `vs` with the reads of the elements after it. */
  lemma ItemsChain(c: Codec, order: KeyOrder, t: Ty, vs: seq<Value>, acc: seq<Value>, data: seq<byte>, pos: nat)
    requires ReadersBounded(c) && t.VecTy? && vs != [] && pos <= |data|
    requires Decode(c, t.elem, data, pos) == Ok((vs[0], pos + |Encode(c, order, vs[0])|))
    requires DecodeItems(c, t, data, pos + |Encode(c, order, vs[0])|, |vs[1..]|, acc + [vs[0]])
      == Ok((acc + [vs[0]] + vs[1..], pos + |Encode(c, order, vs[0])| + |EncodeAll(c, order, vs[1..])|))
    ensures DecodeItems(c, t, data, pos, |vs|, acc) == Ok((acc + vs, pos + |EncodeAll(c, order, vs)|))
  {
    assert acc + [vs[0]] + vs[1..] == acc + vs;
  }

  lemma {:induction false} MapRoundTrip(c: Codec, order: KeyOrder, v: Value, t: Ty, data: seq<byte>, pos: nat)
    requires Lawful(c) && OrderValid(order) && t.MapTy? && HasType(v, t) && IsU64(|data|)
    requires At(data, pos, Encode(c, order, v))
    ensures Decode(c, t, data, pos) == Ok((v, pos + |Encode(c, order, v)|))
    decreases v, 1, 0
  {
    var m := v.entries;
    var ks := order(m);
    assert ListsKeysOf(order, m);
    var w := c.writeNat0(|m|);
    AtConcat(data, pos, w, EncodeEntries(c, order, v, ks));
    ReadNat0At(c, data, pos, |m|);
    EntriesRoundTrip(c, order, t, v, ks, |ks|, map[], data, pos + |w|);
  }

  /**
   * The entries still to read are those of `ks`, each once; `acc` holds the
   * others, bound as in `m`.
   */
  ghost predicate Pending(m: map<Value, Value>, acc: map<Value, Value>, ks: seq<Value>) {
    && (forall i :: 0 <= i < |ks| ==> ks[i] in m)
    && Distinct(ks)
    && (forall k :: k in acc ==> k in m && acc[k] == m[k] && k !in ks)
    && (forall k :: k in m ==> k in acc || k in ks)
  }

  /** Reads the entries of `ks` on top of `acc`, ending with the whole map. */
  lemma {:induction false} EntriesRoundTrip(c: Codec, order: KeyOrder, t: Ty, v: Value, ks: seq<Value>, n: nat,
                                            acc: map<Value, Value>, data: seq<byte>, pos: nat)
    requires Lawful(c) && OrderValid(order) && t.MapTy? && HasType(v, t) && IsU64(|data|)
    requires v.Map? && Pending(v.entries, acc, ks) && n == |ks|
    requires At(data, pos, EncodeEntries(c, order, v, ks))
    ensures DecodeEntries(c, t, data, pos, n, acc) == Ok((v.entries, pos + |EncodeEntries(c, order, v, ks)|))
    decreases v, 0, n
  {
    if ks == [] {
      EntriesDone(c, order, t, v, ks, n, acc, data, pos);
    } else {
      var k := ks[0];
      RemainingKeys(v.entries, acc, ks);
      assert k in v.entries.Keys;
      EncodeEntriesCons(c, order, v, ks);
      var rest := EncodeEntries(c, order, v, ks[1..]);
      var q := EntryRoundTrip(c, order, t, v, k, rest, acc, n, data, pos);
      EntriesRoundTrip(c, order, t, v, ks[1..], n - 1, acc[k := v.entries[k]], data, q);
      assert q + |rest| == pos + |EncodeEntries(c, order, v, ks)|;
    }
  }

  /** With no key left to read, `acc` is the whole map. */
  lemma EntriesDone(c: Codec, order: KeyOrder, t: Ty, v: Value, ks: seq<Value>, n: nat, acc: map<Value, Value>,
                    data: seq<byte>, pos: nat)
    requires ReadersBounded(c) && t.MapTy? && v.Map? && pos <= |data|
    requires ks == [] && n == 0 && Pending(v.entries, acc, ks)
    ensures DecodeEntries(c, t, data, pos, n, acc) == Ok((v.entries, pos + |EncodeEntries(c, order, v, ks)|))
  {
    assert acc.Keys == v.entries.Keys;
    assert acc == v.entries;
  }

  lemma EncodeEntriesCons(c: Codec, order: KeyOrder, v: Value, ks: seq<Value>)
    requires v.Map? && ks != [] && ks[0] in v.entries
    ensures EncodeEntries(c, order, v, ks)
      == Encode(c, order, ks[0]) + Encode(c, order, v.entries[ks[0]]) + EncodeEntries(c, order, v, ks[1..])
  {
  }

  /** Reading the entry of `v` at key `k`, when `k` is not yet in `acc`. */
  lemma {:induction false} EntryRoundTrip(c: Codec, order: KeyOrder, t: Ty, v: Value, k: Value, rest: seq<byte>,
                                          acc: map<Value, Value>, n: nat, data: seq<byte>, pos: nat)
    returns (q: nat)
    requires Lawful(c) && OrderValid(order) && t.MapTy? && IsU64(|data|)
    requires v.Map? && k in v.entries && HasType(k, t.key) && HasType(v.entries[k], t.val)
    requires k !in acc && n > 0
    requires At(data, pos, Encode(c, order, k) + Encode(c, order, v.entries[k]) + rest)
    ensures q + |rest| == pos + |Encode(c, order, k) + Encode(c, order, v.entries[k]) + rest|
    ensures At(data, q, rest)
    ensures DecodeEntries(c, t, data, pos, n, acc) == DecodeEntries(c, t, data, q, n - 1, acc[k := v.entries[k]])
    decreases v, 0, 0
  {
    assert k in v.entries.Keys;
    var x := v.entries[k];
    var ek, ex := Encode(c, order, k), Encode(c, order, x);
    AtConcat(data, pos, ek + ex, rest);
    AtConcat(data, pos, ek, ex);
    RoundTrip(c, order, k, t.key, data, pos);
    RoundTrip(c, order, x, t.val, data, pos + |ek|);
    EntriesStep(c, t, data, pos, n, acc, k, x, pos + |ek|, pos + |ek| + |ex|);
    q := pos + |ek| + |ex|;
  }

  /** Moving the first key of `ks` into `acc` keeps the bookkeeping of `EntriesRoundTrip`. */
  lemma RemainingKeys(m: map<Value, Value>, acc: map<Value, Value>, ks: seq<Value>)
    requires ks != [] && Pending(m, acc, ks)
    ensures ks[0] in m && ks[0] !in acc
    ensures Pending(m, acc[ks[0] := m[ks[0]]], ks[1..])
  {
    forall key | key in m && key !in acc && key != ks[0] ensures key in ks[1..] {
      var j :| 0 <= j < |ks| && ks[j] == key;
      assert ks[1..][j - 1] == key;
    }
  }

  /** One entry read: what `DecodeEntries` does when the key is new. */
  lemma EntriesStep(c: Codec, t: Ty, data: seq<byte>, pos: nat, n: nat, acc: map<Value, Value>,
                    k: Value, x: Value, p: nat, q: nat)
    requires ReadersBounded(c) && pos <= |data| && t.MapTy? && n > 0
    requires Decode(c, t.key, data, pos) == Ok((k, p))
    requires Decode(c, t.val, data, p) == Ok((x, q))
    requires k !in acc
    ensures DecodeEntries(c, t, data, pos, n, acc) == DecodeEntries(c, t, data, q, n - 1, acc[k := x])
  {
  }

  lemma {:induction false} TupleRoundTrip(c: Codec, order: KeyOrder, v: Value, t: Ty, data: seq<byte>, pos: nat)
    requires Lawful(c) && OrderValid(order) && t.TupleTy? && HasType(v, t) && IsU64(|data|)
    requires At(data, pos, Encode(c, order, v))
    ensures Decode(c, t, data, pos) == Ok((v, pos + |Encode(c, order, v)|))
    decreases v, 1, 0
  {
    FieldsRoundTrip(c, order, t, v.fields, [], data, pos);
    assert [] + v.fields == v.fields;
  }

  /** The fields of a tuple still to read, each with its own type. */
  lemma {:induction false} FieldsRoundTrip(c: Codec, order: KeyOrder, t: Ty, vs: seq<Value>, acc: seq<Value>,
                                           data: seq<byte>, pos: nat)
    requires Lawful(c) && OrderValid(order) && t.TupleTy? && IsU64(|data|)
    requires |acc| + |vs| == |t.fieldTys|
    requires forall i :: 0 <= i < |vs| ==> HasType(vs[i], t.fieldTys[|acc| + i])
    requires At(data, pos, EncodeAll(c, order, vs))
    ensures DecodeFields(c, t, data, pos, acc) == Ok((acc + vs, pos + |EncodeAll(c, order, vs)|))
    decreases vs, 0, 0
  {
    if vs == [] {
      assert acc + vs == acc;
    } else {
      var first, rest := Encode(c, order, vs[0]), EncodeAll(c, order, vs[1..]);
      AtConcat(data, pos, first, rest);
      RoundTrip(c, order, vs[0], t.fieldTys[|acc|], data, pos);
      var p := pos + |first|;
      FieldsStep(c, t, data, pos, acc, vs[0], p);
      FieldsRoundTrip(c, order, t, vs[1..], acc + [vs[0]], data, p);
      MoveFirst(acc, vs);
      assert p + |rest| == pos + |EncodeAll(c, order, vs)|;
    }
  }

  /** Moving the first of `vs` to the end of `acc` keeps their concatenation. */
  lemma MoveFirst(acc: seq<Value>, vs: seq<Value>)
    requires vs != []
    ensures acc + [vs[0]] + vs[1..] == acc + vs
  {
    assert vs == [vs[0]] + vs[1..];
  }

  /** One field read: what `DecodeFields` does when a field is left. */
  lemma FieldsStep(c: Codec, t: Ty, data: seq<byte>, pos: nat, acc: seq<Value>, x: Value, p: nat)
    requires ReadersBounded(c) && pos <= |data| && t.TupleTy? && |acc| < |t.fieldTys|
    requires Decode(c, t.fieldTys[|acc|], data, pos) == Ok((x, p))
    ensures p <= |data|
    ensures DecodeFields(c, t, data, pos, acc) == DecodeFields(c, t, data, p, acc + [x])
  {
  }

  lemma {:induction false} WithLenRoundTrip(c: Codec, order: KeyOrder, v: Value, t: Ty, data: seq<byte>, pos: nat)
    requires Lawful(c) && OrderValid(order) && t.WithLenTy? && HasType(v, t) && IsU64(|data|)
    requires At(data, pos, Encode(c, order, v))
    ensures Decode(c, t, data, pos) == Ok((v, pos + |Encode(c, order, v)|))
    decreases v, 1, 0
  {
    var size := Size(c, order, v.inner);
    EncodedLength(c, order, v.inner);
    var w := c.writeNat0(size);
    AtConcat(data, pos, w, Encode(c, order, v.inner));
    ReadNat0At(c, data, pos, size);
    RoundTrip(c, order, v.inner, t.inner, data, pos + |w|);
  }
}
