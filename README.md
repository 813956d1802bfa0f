# bin_prot codec composition, modelled in Dafny

This project models `src/lib.rs` of openmina-binprot-rs: the Rust implementation of
Jane Street's bin_prot binary protocol for unit, bool, `Nat0`, `i64`, `f64`, `Option<T>`,
`Vec<T>`/`&[T]`, `String`/`&str`, `BTreeMap`/`HashMap`, tuples, the size-prefixed framing
(`binprot_write_with_size`/`binprot_read_with_size`) and `WithLen<T>`.

- `Wire`: the shapes. `Ty` is the Rust type a reader is asked for, and `Value` is a value of one of those types.
  - `HasType` says a value fits its type: 64-bit integers, `u64` lengths, UTF-8 strings.
  - `KeyOrder` is the order in which a map's iterator yields its keys. The protocol leaves this order open, so it is a parameter.
- `IntCodec`: the variable-width integer codec of `src/int.rs` (`write_nat0`, `read_nat0`, `write_i64`, `read_signed`).
  - It is a parameter: any four functions.
  - Its assumed laws are stated once as hypotheses (`ReadersBounded`, `RoundTrips`).
- `Encoding`: what each `binprot_write` appends (`Encode`), and `binprot_size` (`Size`).
- `Decoding`: what each `binprot_read` returns on an input with a read position (`Decode`). The result is the value and the next position, or the error the Rust reader returns.
- `Writer` and `Reader`: the imperative form of the impls.
  - A `Sink` holds the bytes written so far.
  - A `Source` holds the input and a cursor.
  - Each writer method is proved to append exactly `Encode` of its value.
  - Each reader method is proved to return exactly what `Decode` returns. The `for` loops over list elements, map entries and tuple fields carry the invariants that make this hold.
- `RoundTrip`: the main theorem. For every value of a type, every lawful integer codec and every map iteration order, reading back what was written gives the value. The reader stops right after the written bytes, whatever follows them. Maps come back equal as maps, whatever order the writer chose.
- `Soundness`: what a successful read guarantees on any input. The value has the requested type. A list has exactly the announced number of elements. A map has exactly the announced number of distinct keys, each bound to the value read right after it.
- `Rejections`: what the readers refuse, and with which error. This covers tag bytes, truncated input, UTF-8, repeated map keys and a failing list element.
- `Framing`: the layout of the two length framings. Both readers read the length and ignore it.

## Model

| member | source | states |
|---|---|---|
| ByteOrder.UsizeAsI64 | src/lib.rs:19 | `len as i64` keeps the 64 bits of the size: the result is a valid `i64` congruent to the size modulo 2^64 |
| ByteOrder.UsizeHeaderBytes | src/lib.rs:17-21 | the `i64` header written for a size holds the size's own 8 little-endian bytes, and reads back as the size when it is below 2^63 |
| ByteOrder.I64RoundTrip | src/lib.rs:19-26 | `read_i64::<LittleEndian>` of the bytes `write_i64::<LittleEndian>` wrote is the same number |
| ByteOrder.LittleEndianRoundTrip | src/lib.rs:192-200 | 8 little-endian bytes read back as the bit pattern they were written from |
| ByteOrder.FromLittleEndianRoundTrip | src/lib.rs:45-49 | writing back the bit pattern read from any 8 bytes reproduces those bytes |
| Encoding.Encode | src/lib.rs:33-147 | the bytes each `binprot_write` impl appends, shape by shape (the `WithLen` case is src/lib.rs:316-322); `RoundTrip.RoundTrip` and `Writer.Sink.Write` are stated against it |
| Encoding.EncodeAll | src/lib.rs:76-94 | the elements of a list, or the fields of a tuple, written one after another in index order |
| Encoding.EncodeEntries | src/lib.rs:112-134 | key then value for each key in the iterator's order |
| Encoding.Size | src/lib.rs:316-322 | `binprot_size`, the count `WithLen` and the size-prefixed framing write; `Encoding.EncodedLength` proves it is the encoded length |
| Encoding.EncodeWithSize | src/lib.rs:17-21 | the size-prefixed form is 8 + `binprot_size` bytes, and the value's own encoding follows the 8-byte header |
| Encoding.EncodedLength | src/lib.rs:316-322 | `binprot_size` equals the number of bytes `binprot_write` emits, so the `WithLen` prefix is the payload's length |
| Encoding.EncodeAllAppend | src/lib.rs:136-147 | fields and elements are written one after another with no separator: the encoding of `a + b` is that of `a` followed by that of `b` |
| Encoding.EncodeEntriesAppend | src/lib.rs:112-134 | each further map entry appends its key's encoding and then its value's |
| ByteOrder.WriteI64Le | src/lib.rs:19 | `write_i64::<LittleEndian>`: 8 bytes, two's complement; `ByteOrder.I64RoundTrip` is its partner |
| ByteOrder.ReadI64Le | src/lib.rs:26 | `read_i64::<LittleEndian>`: any 8 bytes give a valid `i64` |
| Utf8.ValidUtf8 | src/lib.rs:308 | what `std::str::from_utf8` accepts: a sequence of well-formed UTF-8 characters (RFC 3629, section 4) |
| Decoding.Decode | src/lib.rs:172-334 | what `T::binprot_read` returns for the type `t`: the value and the position after it, or the reader's error; on success the position stays within the input |
| Decoding.DecodeUnit | src/lib.rs:202-214 | one byte: 0 is unit, another byte is `UnexpectedValueForUnit`, none is `Io`; on success the position advances within the input |
| Decoding.DecodeBool | src/lib.rs:216-230 | one byte: 0 is false, 1 is true, another byte is `UnexpectedValueForBool`; on success the position advances within the input |
| Decoding.ReadU8 | src/lib.rs:207 | `read_u8`: the byte at the position, or `Io` at the end of the input (also src/lib.rs:221 and 237) |
| Decoding.DecodeNat0 | src/lib.rs:172-180 | `Nat0` is whatever `int::read_nat0` returns, its error passed on; on success the position advances within the input |
| Decoding.DecodeI64 | src/lib.rs:182-190 | `i64` is whatever `int::read_signed` returns, its error passed on; on success the position advances within the input |
| Decoding.DecodeF64 | src/lib.rs:192-200 | 8 little-endian bytes as the bit pattern, `Io` when fewer remain |
| Decoding.DecodeOption | src/lib.rs:232-247 | tag 0 is `None`, 1 is `Some` of the next value, another tag is `UnexpectedValueForOption` |
| Decoding.DecodeVec | src/lib.rs:249-262 | the `nat0` length and then that many elements; the first failing read is the result |
| Decoding.DecodeItems | src/lib.rs:255-259 | the element loop: n reads, each pushed after those before |
| Decoding.DecodeString | src/lib.rs:300-311 | the `nat0` length, exactly that many bytes, then the UTF-8 check |
| Decoding.DecodeMap | src/lib.rs:264-298 | the `nat0` count and then that many key/value pairs |
| Decoding.DecodeEntries | src/lib.rs:270-277 | the entry loop: key, value, then `SameKeyAppearsTwiceInMap` when the key is already present |
| Decoding.DecodeTuple | src/lib.rs:148-159 | the fields read in order, each with its own type |
| Decoding.DecodeFields | src/lib.rs:155 | the remaining fields, one read per field type |
| Decoding.DecodeWithLen | src/lib.rs:324-334 | a `nat0` length that is dropped, then the payload |
| Decoding.DecodeWithSize | src/lib.rs:24-28 | an 8-byte `i64` that is dropped, then the value; on success at least the 8 header bytes are consumed |
| Writer.Sink.WriteAll | src/lib.rs:100 | `w.write_all(bytes)` appends exactly the given bytes (also src/lib.rs:47, 53, 60, 67 and 69) |
| Writer.Sink.WriteNat0 | src/lib.rs:33-37 | appends exactly the bytes of `int::write_nat0` |
| Writer.Sink.WriteI64 | src/lib.rs:39-43 | appends exactly the bytes of `int::write_i64` |
| Writer.Sink.WriteF64 | src/lib.rs:45-49 | appends the 8 little-endian bytes of the bit pattern |
| Writer.Sink.WriteUnit | src/lib.rs:51-55 | appends the single byte 0 |
| Writer.Sink.WriteBool | src/lib.rs:57-62 | appends 1 for true and 0 for false |
| Writer.Sink.WriteOption | src/lib.rs:64-74 | appends 0 for `None`, or 1 and then the value's encoding for `Some` |
| Writer.Sink.WriteList | src/lib.rs:76-94 | appends `nat0(len)` and then each element's encoding in index order; the loop invariant is that the output so far is the header plus the encodings of the elements written |
| Writer.Sink.WriteStr | src/lib.rs:96-110 | appends `nat0(byte length)` and then the bytes |
| Writer.Sink.WriteMap | src/lib.rs:112-134 | appends `nat0(number of entries)` and then key and value of every entry, each exactly once, in the iterator's order |
| Writer.Sink.WriteTuple | src/lib.rs:136-147 | appends the fields' encodings in positional order, with no prefix |
| Writer.Sink.WriteWithLen | src/lib.rs:316-322 | appends `nat0(binprot_size of the payload)` and then the payload |
| Writer.Sink.Write | src/lib.rs:33-147 | every writer, tuples included, appends exactly `Encode` of its value (the `WithLen` writer is src/lib.rs:316-322) |
| Writer.WriteWithSize | src/lib.rs:17-21 | appends the 8-byte `i64` size header and then the value |
| Reader.Source.ReadByte | src/lib.rs:207 | `read_u8` returns what `ReadU8` says and advances one byte on success (also src/lib.rs:221 and 237) |
| Reader.Source.ReadExact | src/lib.rs:307 | `read_exact` of n bytes returns the next n bytes and advances past them, or `Io` when fewer remain (also the 8-byte reads at src/lib.rs:26 and 197) |
| Reader.Source.ReadNat0 | src/lib.rs:172-180 | returns what `int::read_nat0` returns and advances past its bytes |
| Reader.Source.ReadSigned | src/lib.rs:182-190 | returns what `int::read_signed` returns and advances past its bytes |
| Reader.Source.ReadF64 | src/lib.rs:192-200 | takes 8 bytes as a little-endian bit pattern; fewer than 8 left is an I/O error |
| Reader.Source.ReadUnit | src/lib.rs:202-214 | reads one byte: 0 is unit, any other byte `c` is `UnexpectedValueForUnit(c)`, and no byte is an I/O error |
| Reader.Source.ReadBool | src/lib.rs:216-230 | 0 is false, 1 is true, any other byte `c` is `UnexpectedValueForBool(c)` |
| Reader.Source.ReadOption | src/lib.rs:232-247 | 0 is `None`, 1 is `Some` of the value read next, any other byte `c` is `UnexpectedValueForOption(c)` |
| Reader.Source.ReadVec | src/lib.rs:249-262 | reads `nat0` n and then n elements, pushed in order, returning the first error met; the loop keeps the invariant that what remains to read is the rest of the specified read |
| Reader.Source.ReadString | src/lib.rs:300-311 | reads `nat0` n, then exactly n bytes, which become the string when they are UTF-8 and give the UTF-8 error otherwise |
| Reader.Source.ReadMap | src/lib.rs:264-298 | reads `nat0` n and then n key/value pairs; a key already read gives `SameKeyAppearsTwiceInMap` |
| Reader.Source.ReadTuple | src/lib.rs:148-159 | reads each field with its own type, in order |
| Reader.Source.ReadWithLen | src/lib.rs:324-334 | reads and drops a `nat0` length, then reads the payload |
| Reader.Source.Read | src/lib.rs:172-334 | every reader returns exactly what `Decode` returns and, on success, stops where it says |
| Reader.ReadWithSize | src/lib.rs:24-28 | reads and drops an 8-byte `i64`, then reads the value |
| RoundTrip.RoundTrip | src/lib.rs:33-334 | reading a value of type `t` from where its encoding sits gives the value back and stops right after the encoding (maps compare as maps) |
| RoundTrip.F64RoundTrip | src/lib.rs:192-200 | the 8 little-endian bytes the `f64` writer emits read back as the same bit pattern, consuming exactly 8 bytes |
| RoundTrip.StringRoundTrip | src/lib.rs:300-311 | the string reader gives back the UTF-8 bytes the string writer wrote, consuming the length prefix and the bytes |
| RoundTrip.OptionRoundTrip | src/lib.rs:232-247 | the option reader gives back `None`/`Some(v)` written by the option writer |
| RoundTrip.VecRoundTrip | src/lib.rs:249-262 | the list reader gives back the list the list writer wrote, element for element |
| RoundTrip.ItemsRoundTrip | src/lib.rs:255-259 | the element loop reads back the written elements, in order, after those already pushed |
| RoundTrip.MapRoundTrip | src/lib.rs:264-298 | the map reader gives back the map the map writer wrote, whatever order the entries were written in |
| RoundTrip.EntriesRoundTrip | src/lib.rs:270-277 | the entry loop, fed distinct keys of the map, never meets a repeated key and ends with exactly the map |
| RoundTrip.TupleRoundTrip | src/lib.rs:148-159 | the tuple reader gives back the tuple the tuple writer wrote |
| RoundTrip.FieldsRoundTrip | src/lib.rs:155 | the fields are read back in positional order, each with its own type |
| RoundTrip.WithLenRoundTrip | src/lib.rs:324-334 | the `WithLen` reader gives back the payload the `WithLen` writer wrote |
| Soundness.DecodeWellTyped | src/lib.rs:172-334 | any successful read returns a value of the requested type |
| Soundness.VecWellTyped | src/lib.rs:249-262 | a list read from any input has exactly the announced length and well-typed elements |
| Soundness.ItemsWellTyped | src/lib.rs:255-259 | the element loop adds exactly n elements to those pushed before |
| Soundness.MapWellTyped | src/lib.rs:264-298 | a map read from any input has exactly the announced number of distinct keys, all well typed |
| Soundness.EntriesWellTyped | src/lib.rs:270-277 | the entry loop adds exactly n new keys to those inserted before |
| Soundness.TupleWellTyped | src/lib.rs:148-159 | a tuple read from any input has one field per field type, each of that type |
| Soundness.FieldsWellTyped | src/lib.rs:155 | the remaining fields are read one per field type |
| Soundness.EntriesKeep | src/lib.rs:270-277 | once a key is inserted, a successful read never rebinds or drops it |
| Soundness.EntriesBindFollowingValue | src/lib.rs:270-277 | the key read first is new, and the final map binds it to the value read right after it |
| Soundness.F64BytesRoundTrip | src/lib.rs:192-200 | any 8 bytes read as an `f64`, and writing it back gives the same 8 bytes |
| Rejections.UnitTag | src/lib.rs:202-214 | the unit reader succeeds exactly where the unit writer's byte sits; no byte is an I/O error; any other byte `c` is `UnexpectedValueForUnit(c)` |
| Rejections.BoolTag | src/lib.rs:216-230 | the bool reader returns `b` exactly where the writer's byte for `b` sits; any byte above 1 is `UnexpectedValueForBool` carrying it |
| Rejections.OptionTag | src/lib.rs:232-247 | 0 gives `None`; 1 gives `Some` of the next value or that value's error; end of input is an I/O error; any byte above 1 is `UnexpectedValueForOption` carrying it |
| Rejections.ItemsErrorAborts | src/lib.rs:255-259 | an element that fails after i successful ones fails the whole loop with its own error |
| Rejections.VecErrorAborts | src/lib.rs:249-262 | a failing length or element fails the list read with that same error |
| Rejections.StringPayload | src/lib.rs:300-311 | after the length, too few bytes is an I/O error, and the read succeeds exactly when the n bytes are UTF-8, with the UTF-8 error otherwise |
| Rejections.StringFramed | src/lib.rs:300-311 | a correctly framed string reads back as its bytes, ending after them, exactly when they are UTF-8, and as the UTF-8 error otherwise |
| Rejections.StringRejectsInvalidUtf8 | src/lib.rs:300-311 | a correctly framed string whose bytes are not UTF-8 is refused with the UTF-8 error |
| Rejections.EntriesRejectRepeat | src/lib.rs:270-277 | a key already in the map fails the read with `SameKeyAppearsTwiceInMap`, once its value is read |
| Rejections.RepeatInFirstTwoEntries | src/lib.rs:264-280 | a second key equal to the first fails the map read |
| Rejections.DuplicateKeyRejected | src/lib.rs:264-280 | the first two entries of a map with the same key, whatever their values, are refused with `SameKeyAppearsTwiceInMap` (a repeat further on: `Rejections.EntriesRejectRepeat`) |
| Framing.WithSizeLayout | src/lib.rs:17-21 | the size-prefixed form is the size's 8 little-endian bytes and then the value, 8 + N bytes, and the header reads back as the size when the size is below 2^63 |
| Framing.WithSizeIgnoresHeader | src/lib.rs:24-28 | any 8 header bytes are accepted: the value after them is read whatever they say |
| Framing.WithSizeRoundTrip | src/lib.rs:17-28 | reading the size-prefixed form gives the value back and consumes 8 + size bytes |
| Framing.WithLenLayout | src/lib.rs:316-322 | the `WithLen` form is `nat0` of the payload's exact byte length, then the payload |
| Framing.WithLenIgnoresLength | src/lib.rs:324-334 | any `nat0` length before a payload is accepted, right or wrong, and the payload is returned |

## Left out

- `src/int.rs` is not part of this model. The codec is a parameter, and its round trip, self-delimitation and value ranges are hypotheses. Its byte layout is not modelled.
- `src/traits.rs` is not part of this model. `binprot_size` is the function `Size`, defined to count what `Encode` writes. Trait dispatch is the `Ty` argument of the readers.
- A failure of the integer codec itself (a malformed `nat0` or integer prefix) is reported as one of the existing `Error` variants, since `readNat0` and `readSigned` return that type. `src/int.rs` is not part of this model, so which Rust error it raises is left to the codec parameter.
- `src/error.rs` is not part of this model. Its variants used here are the `Error` datatype. Every `std::io` failure is the single `Io` error, and the UTF-8 error carries no detail.
- The `async_traits` module is left out: it is feature-gated asynchronous plumbing.
- Writers never fail. A `std::io::Write` error in the middle of a write is not modelled.
- The position of a `Source` after a failed read is not specified, beyond staying within the input.
- `f64` is its raw 64-bit pattern. IEEE-754 arithmetic, NaN payloads and comparisons are left out.
- `BTreeMap` and `HashMap` are one Dafny `map`.
  - Hashing, key ordering and iteration internals are left out.
  - The write order is any `KeyOrder` that lists every key once (`OrderValid`).
  - For orders that do not, `EncodeEntries` skips listed values that are not keys.
- Tuples are any arity, not only 1 to 9, since the macro expands the same code for each arity. Each arity's straight-line field sequence is the loop in `Writer.Sink.WriteTuple` and `Reader.Source.ReadTuple`.
- The map reader checks for a repeated key before inserting, where the Rust code inserts and then looks at the displaced value. The returned result is the same, since the map is dropped on that error.
- `Tuple([])` of the type `TupleTy([])` writes and reads zero bytes. It has no Rust counterpart: the macro starts at arity 1, and the Rust 0-tuple `()` is the unit type, which writes the byte 0.
- `KeyOrder` is a function of a map's contents, so two equal maps inside one value are written in the same order. Two equal Rust `HashMap`s with different hash seeds can iterate in different orders; the round trip would hold for them too, but the theorems here do not cover that case.
- The declared lengths of `binprot_read_with_size` and `WithLen` are not enforced, as in the code.
- RoundTrip.RoundTrip: requires an input shorter than 2^64 bytes, so that every `WithLen` size fits its `u64` prefix. A `Read` stream has no such bound; the hypothesis stands in for the bound Rust does have, that every `binprot_size` is a `usize`.
- Writer.WriteWithSize: requires `binprot_size` below 2^64, as a Rust `usize` on a 64-bit target is.
- Writer.Sink.Write: requires a valid key order, a hypothesis about the map iterator.
- Every `as usize` / `as u64` cast (for example `vec![0u8; len as usize]` at src/lib.rs:306) is taken on a 64-bit target, where it keeps the value. On a 32-bit target the string reader would truncate the length. The `len as i64` at src/lib.rs:19 is written as the size's 8 low bytes, which is the same bit pattern.
- Reading a string of huge announced length allocates `len` bytes before reading. Allocation failure is not modelled; the read fails with `Io` when the input is too short.
