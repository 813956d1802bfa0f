/**
 * The variable-width integer codec of `src/int.rs` (`write_nat0`,
 * `read_nat0`, `write_i64`, `read_signed`). Its byte layout is not part of
 * this model: a codec is any four functions, and the properties the
 * composition relies on are the hypotheses `ReadersBounded` and
 * `RoundTrips` below. A reader is given the whole input and the position
 * of the next unread byte, and answers the value and the position after it.
 */
module IntCodec {
  import opened ByteOrder
  import opened Errors

  datatype Codec = Codec(
    writeNat0: nat -> seq<byte>,
    readNat0: (seq<byte>, nat) -> Result<(nat, nat)>,
    writeI64: int -> seq<byte>,
    readSigned: (seq<byte>, nat) -> Result<(int, nat)>)

  /** `bytes` sits in `data` at position `pos`. */
  predicate At(data: seq<byte>, pos: nat, bytes: seq<byte>) {
    pos + |bytes| <= |data| && forall i :: 0 <= i < |bytes| ==> data[pos + i] == bytes[i]
  }

  /** The readers return values in range and consume at least one byte and no more than there are. */
  ghost predicate ReadersBounded(c: Codec) {
    && (forall data: seq<byte>, pos: nat :: pos <= |data| && c.readNat0(data, pos).Ok? ==>
          IsU64(c.readNat0(data, pos).value.0) && pos < c.readNat0(data, pos).value.1 <= |data|)
    && (forall data: seq<byte>, pos: nat :: pos <= |data| && c.readSigned(data, pos).Ok? ==>
          IsI64(c.readSigned(data, pos).value.0) && pos < c.readSigned(data, pos).value.1 <= |data|)
  }

  /** `read_nat0` gives back `n` at a position where `write_nat0(n)` sits, stopping right after it. */
  ghost predicate Nat0ReadsBack(c: Codec, data: seq<byte>, pos: nat, n: nat) {
    IsU64(n) && At(data, pos, c.writeNat0(n)) ==> c.readNat0(data, pos) == Ok((n, pos + |c.writeNat0(n)|))
  }

  /** `read_signed` gives back `x` at a position where `write_i64(x)` sits, stopping right after it. */
  ghost predicate SignedReadsBack(c: Codec, data: seq<byte>, pos: nat, x: int) {
    IsI64(x) && At(data, pos, c.writeI64(x)) ==> c.readSigned(data, pos) == Ok((x, pos + |c.writeI64(x)|))
  }

  /**
   * Each reader gives back what its writer wrote, stopping right after the
   * written bytes whatever follows them (the encodings are self-delimiting).
   */
  ghost predicate RoundTrips(c: Codec) {
    && (forall data: seq<byte>, pos: nat, n: nat :: Nat0ReadsBack(c, data, pos, n))
    && (forall data: seq<byte>, pos: nat, x: int :: SignedReadsBack(c, data, pos, x))
  }

  ghost predicate Lawful(c: Codec) {
    ReadersBounded(c) && RoundTrips(c)
  }

  /** Splits a placement of `a + b` into a placement of `a` followed by one of `b`. */
  lemma AtConcat(data: seq<byte>, pos: nat, a: seq<byte>, b: seq<byte>)
    requires At(data, pos, a + b)
    ensures At(data, pos, a) && At(data, pos + |a|, b)
  {
    forall i | 0 <= i < |a| ensures data[pos + i] == a[i] {
      assert (a + b)[i] == a[i];
    }
    forall i | 0 <= i < |b| ensures data[pos + |a| + i] == b[i] {
      assert (a + b)[|a| + i] == b[i];
    }
  }

  /** `read_nat0` at a position where `write_nat0(n)` sits. */
  lemma ReadNat0At(c: Codec, data: seq<byte>, pos: nat, n: nat)
    requires RoundTrips(c) && IsU64(n) && At(data, pos, c.writeNat0(n))
    ensures c.readNat0(data, pos) == Ok((n, pos + |c.writeNat0(n)|))
  {
    assert Nat0ReadsBack(c, data, pos, n);
  }

  /** `read_signed` at a position where `write_i64(x)` sits. */
  lemma ReadSignedAt(c: Codec, data: seq<byte>, pos: nat, x: int)
    requires RoundTrips(c) && IsI64(x) && At(data, pos, c.writeI64(x))
    ensures c.readSigned(data, pos) == Ok((x, pos + |c.writeI64(x)|))
  {
    assert SignedReadsBack(c, data, pos, x);
  }

  /** The first byte of a non-empty placement. */
  lemma AtHead(data: seq<byte>, pos: nat, bytes: seq<byte>)
    requires At(data, pos, bytes) && |bytes| > 0
    ensures pos < |data| && data[pos] == bytes[0]
  {
    assert data[pos + 0] == bytes[0];
  }

  /** The bytes at a placement, as a slice. */
  lemma AtSlice(data: seq<byte>, pos: nat, bytes: seq<byte>)
    requires At(data, pos, bytes)
    ensures data[pos..pos + |bytes|] == bytes
  {
  }
}
