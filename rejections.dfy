/**
 * What the readers refuse, and with which error: a tag byte other than the
 * ones the writers emit, a string payload that is not UTF-8, a key met a
 * second time, and an element that fails inside a list.
 */
module Rejections {
  import opened ByteOrder
  import opened Errors
  import opened Utf8
  import opened IntCodec
  import opened Wire
  import opened Encoding
  import opened Decoding
  import RoundTrip

  /** The unit reader accepts exactly the byte the unit writer emits; any other byte is reported. */
  lemma UnitTag(c: Codec, order: KeyOrder, data: seq<byte>, pos: nat)
    requires pos <= |data|
    ensures DecodeUnit(data, pos).Ok? <==> At(data, pos, Encode(c, order, Unit))
    ensures DecodeUnit(data, pos).Ok? ==> DecodeUnit(data, pos).value == (Unit, pos + 1)
    ensures pos == |data| ==> DecodeUnit(data, pos) == Err(Io)
    ensures pos < |data| && data[pos] != 0 ==> DecodeUnit(data, pos) == Err(UnexpectedValueForUnit(data[pos]))
  {
    if pos < |data| && data[pos] == 0 {
      assert At(data, pos, [0]) by {
        assert data[pos + 0] == 0;
      }
    }
    if At(data, pos, Encode(c, order, Unit)) {
      AtHead(data, pos, Encode(c, order, Unit));
    }
  }

  /** 0 reads as false and 1 as true, exactly the bytes the bool writer emits; any other byte is reported. */
  lemma BoolTag(c: Codec, order: KeyOrder, b: bool, data: seq<byte>, pos: nat)
    requires pos <= |data|
    ensures DecodeBool(data, pos) == Ok((Bool(b), pos + 1)) <==> At(data, pos, Encode(c, order, Bool(b)))
    ensures pos == |data| ==> DecodeBool(data, pos) == Err(Io)
    ensures pos < |data| && data[pos] > 1 ==> DecodeBool(data, pos) == Err(UnexpectedValueForBool(data[pos]))
  {
    var tag: byte := if b then 1 else 0;
    if pos < |data| && data[pos] == tag {
      assert At(data, pos, [tag]) by {
        assert data[pos + 0] == tag;
      }
    }
    if At(data, pos, Encode(c, order, Bool(b))) {
      AtHead(data, pos, Encode(c, order, Bool(b)));
    }
  }

  /**
   * 0 reads as `None`; 1 reads a value of the element type, and the option
   * reader then succeeds or fails exactly as that read does; any other
   * byte is reported.
   */
  lemma OptionTag(c: Codec, t: Ty, data: seq<byte>, pos: nat)
    requires ReadersBounded(c) && t.OptionTy? && pos <= |data|
    ensures pos == |data| ==> DecodeOption(c, t, data, pos) == Err(Io)
    ensures pos < |data| && data[pos] == 0 ==> DecodeOption(c, t, data, pos) == Ok((OptNone, pos + 1))
    ensures pos < |data| && data[pos] == 1 ==>
      var inner := Decode(c, t.elem, data, pos + 1);
      DecodeOption(c, t, data, pos) ==
        if inner.Ok? then Ok((OptSome(inner.value.0), inner.value.1)) else Err(inner.error)
    ensures pos < |data| && data[pos] > 1 ==>
      DecodeOption(c, t, data, pos) == Err(UnexpectedValueForOption(data[pos]))
  {
  }

  /**
   * The list reader fails as soon as an element fails: when the first `i`
   * of `n` announced elements were read and the next one fails, the whole
   * read fails with that element's error.
   */
  lemma {:induction false} ItemsErrorAborts(c: Codec, t: Ty, data: seq<byte>, pos: nat, n: nat, acc: seq<Value>,
                                            i: nat, e: Error)
    requires ReadersBounded(c) && t.VecTy? && pos <= |data| && i < n
    requires DecodeItems(c, t, data, pos, i, acc).Ok?
    requires Decode(c, t.elem, data, DecodeItems(c, t, data, pos, i, acc).value.1) == Err(e)
    ensures DecodeItems(c, t, data, pos, n, acc) == Err(e)
    decreases i
  {
    if i > 0 {
      var (x, p) := Decode(c, t.elem, data, pos).value;
      ItemsErrorAborts(c, t, data, p, n - 1, acc + [x], i - 1, e);
    }
  }

  /** A failing length or a failing element fails the whole list read with the same error. */
  lemma VecErrorAborts(c: Codec, t: Ty, data: seq<byte>, pos: nat, i: nat, e: Error)
    requires ReadersBounded(c) && t.VecTy? && pos <= |data|
    requires c.readNat0(data, pos).Ok? ==>
      var (n, p) := c.readNat0(data, pos).value;
      i < n && DecodeItems(c, t, data, p, i, []).Ok? &&
      Decode(c, t.elem, data, DecodeItems(c, t, data, p, i, []).value.1) == Err(e)
    requires c.readNat0(data, pos).Err? ==> c.readNat0(data, pos).error == e
    ensures DecodeVec(c, t, data, pos) == Err(e)
  {
    if c.readNat0(data, pos).Ok? {
      var (n, p) := c.readNat0(data, pos).value;
      ItemsErrorAborts(c, t, data, p, n, [], i, e);
    }
  }

  /**
   * After the `nat0` length, the string reader takes exactly that many
   * bytes: too few left is an I/O error, and the bytes are returned as the
   * string exactly when they are valid UTF-8, the UTF-8 error otherwise.
   */
  lemma StringPayload(c: Codec, data: seq<byte>, pos: nat)
    requires ReadersBounded(c) && pos <= |data| && c.readNat0(data, pos).Ok?
    ensures var (n, p) := c.readNat0(data, pos).value;
      && (p + n > |data| ==> DecodeString(c, data, pos) == Err(Io))
      && (p + n <= |data| ==>
            && (DecodeString(c, data, pos).Ok? <==> ValidUtf8(data[p..p + n]))
            && (ValidUtf8(data[p..p + n]) ==> DecodeString(c, data, pos) == Ok((Str(data[p..p + n]), p + n)))
            && (!ValidUtf8(data[p..p + n]) ==> DecodeString(c, data, pos) == Err(Utf8Error)))
  {
  }

  /** A well-framed string whose bytes are not UTF-8 is refused with the UTF-8 error. */
  lemma StringRejectsInvalidUtf8(c: Codec, bytes: seq<byte>, data: seq<byte>, pos: nat)
    requires Lawful(c) && IsU64(|bytes|) && !ValidUtf8(bytes)
    requires At(data, pos, c.writeNat0(|bytes|) + bytes)
    ensures DecodeString(c, data, pos) == Err(Utf8Error)
  {
    StringFramed(c, bytes, data, pos);
  }

  /** A well-framed string reads back as its bytes when they are UTF-8, and as the UTF-8 error otherwise. */
  lemma StringFramed(c: Codec, bytes: seq<byte>, data: seq<byte>, pos: nat)
    requires Lawful(c) && IsU64(|bytes|)
    requires At(data, pos, c.writeNat0(|bytes|) + bytes)
    ensures var end := pos + |c.writeNat0(|bytes|)| + |bytes|;
      DecodeString(c, data, pos) == if ValidUtf8(bytes) then Ok((Str(bytes), end)) else Err(Utf8Error)
  {
    var w := c.writeNat0(|bytes|);
    AtConcat(data, pos, w, bytes);
    ReadNat0At(c, data, pos, |bytes|);
    AtSlice(data, pos + |w|, bytes);
  }

  /** Reading a key that is already in the map fails, once its value has been read. */
  lemma EntriesRejectRepeat(c: Codec, t: Ty, data: seq<byte>, pos: nat, n: nat, acc: map<Value, Value>)
    requires ReadersBounded(c) && t.MapTy? && pos <= |data| && n > 0
    requires Decode(c, t.key, data, pos).Ok?
    requires Decode(c, t.val, data, Decode(c, t.key, data, pos).value.1).Ok?
    requires Decode(c, t.key, data, pos).value.0 in acc
    ensures DecodeEntries(c, t, data, pos, n, acc) == Err(SameKeyAppearsTwiceInMap)
  {
  }

  /** Splits a placement of five pieces one after the other. */
  lemma AtConcat5(data: seq<byte>, pos: nat, a: seq<byte>, b: seq<byte>, c: seq<byte>, d: seq<byte>, e: seq<byte>)
    requires At(data, pos, a + b + c + d + e)
    ensures At(data, pos, a) && At(data, pos + |a|, b) && At(data, pos + |a| + |b|, c)
    ensures At(data, pos + |a| + |b| + |c|, d) && At(data, pos + |a| + |b| + |c| + |d|, e)
  {
    AtConcat(data, pos, a + b + c + d, e);
    AtConcat(data, pos, a + b + c, d);
    AtConcat(data, pos, a + b, c);
    AtConcat(data, pos, a, b);
  }

  /** A map whose second key read is its first key again is refused. */
  lemma RepeatInFirstTwoEntries(c: Codec, t: Ty, data: seq<byte>, pos: nat, n: nat, k: Value, x: Value,
                                p0: nat, p1: nat, p2: nat, p3: nat)
    requires ReadersBounded(c) && t.MapTy? && pos <= |data|
    requires c.readNat0(data, pos) == Ok((n, p0)) && n >= 2 && p0 <= p1 <= p2 <= p3 <= |data|
    requires Decode(c, t.key, data, p0) == Ok((k, p1))
    requires Decode(c, t.val, data, p1) == Ok((x, p2))
    requires Decode(c, t.key, data, p2) == Ok((k, p3))
    requires Decode(c, t.val, data, p3).Ok?
    ensures DecodeMap(c, t, data, pos) == Err(SameKeyAppearsTwiceInMap)
  {
    EntriesRejectRepeat(c, t, data, p2, n - 1, map[k := x]);
  }

  /**
   * Two entries with the same key at the head of a map's entries are
   * refused, whatever values they carry and whatever follows them.
   */
  lemma {:induction false} DuplicateKeyRejected(c: Codec, order: KeyOrder, t: Ty, n: nat, k: Value, x: Value, y: Value,
                                                data: seq<byte>, pos: nat)
    requires Lawful(c) && OrderValid(order) && t.MapTy? && IsU64(|data|) && IsU64(n) && n >= 2
    requires HasType(k, t.key) && HasType(x, t.val) && HasType(y, t.val)
    requires At(data, pos, c.writeNat0(n) + Encode(c, order, k) + Encode(c, order, x)
                           + Encode(c, order, k) + Encode(c, order, y))
    ensures DecodeMap(c, t, data, pos) == Err(SameKeyAppearsTwiceInMap)
  {
    var w, ek, ex, ey := c.writeNat0(n), Encode(c, order, k), Encode(c, order, x), Encode(c, order, y);
    AtConcat5(data, pos, w, ek, ex, ek, ey);
    ReadNat0At(c, data, pos, n);
    var p0 := pos + |w|;
    var p1 := p0 + |ek|;
    var p2 := p1 + |ex|;
    var p3 := p2 + |ek|;
    RoundTrip.RoundTrip(c, order, k, t.key, data, p0);
    RoundTrip.RoundTrip(c, order, x, t.val, data, p1);
    RoundTrip.RoundTrip(c, order, k, t.key, data, p2);
    RoundTrip.RoundTrip(c, order, y, t.val, data, p3);
    RepeatInFirstTwoEntries(c, t, data, pos, n, k, x, p0, p1, p2, p3);
  }
}
