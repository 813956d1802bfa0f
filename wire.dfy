/**
 * The shapes the codec supports. `Ty` is the static type a reader is asked
 * for (Rust picks the `BinProtRead` impl from it); `Value` is a value of one
 * of those types. `Vec<T>` and `&[T]` are both `List`, `String` and `&str`
 * both `Str`, `BTreeMap` and `HashMap` both `Map`.
 */
module Wire {
  import opened ByteOrder
  import opened Utf8

  datatype Ty =
    | UnitTy
    | BoolTy
    | Nat0Ty
    | I64Ty
    | F64Ty
    | OptionTy(elem: Ty)
    | VecTy(elem: Ty)
    | StringTy
    | MapTy(key: Ty, val: Ty)
    | TupleTy(fieldTys: seq<Ty>)
    | WithLenTy(inner: Ty)

  datatype Value =
    | Unit
    | Bool(b: bool)
    | Nat0(n: nat)
    | I64(i: int)
    | F64(bits: nat)                    // the IEEE-754 bit pattern, uninterpreted
    | OptNone
    | OptSome(some: Value)
    | List(items: seq<Value>)
    | Str(bytes: seq<byte>)             // the string's UTF-8 bytes
    | Map(entries: map<Value, Value>)
    | Tuple(fields: seq<Value>)
    | WithLen(inner: Value)

  /**
   * `v` is a value of the Rust type `t`: integers within their 64-bit
   * range, collection lengths within `u64`, strings valid UTF-8.
   */
  predicate HasType(v: Value, t: Ty)
    decreases t
  {
    match t
    case UnitTy => v.Unit?
    case BoolTy => v.Bool?
    case Nat0Ty => v.Nat0? && IsU64(v.n)
    case I64Ty => v.I64? && IsI64(v.i)
    case F64Ty => v.F64? && IsU64(v.bits)
    case OptionTy(e) => v.OptNone? || (v.OptSome? && HasType(v.some, e))
    case VecTy(e) =>
      v.List? && IsU64(|v.items|) &&
      forall i {:trigger HasType(v.items[i], e)} :: 0 <= i < |v.items| ==> HasType(v.items[i], e)
    case StringTy => v.Str? && IsU64(|v.bytes|) && ValidUtf8(v.bytes)
    case MapTy(kt, vt) =>
      v.Map? && IsU64(|v.entries|) &&
      (forall k {:trigger HasType(k, kt)} :: k in v.entries ==> HasType(k, kt)) &&
      (forall k {:trigger HasType(v.entries[k], vt)} :: k in v.entries ==> HasType(v.entries[k], vt))
    case TupleTy(fts) =>
      v.Tuple? && |v.fields| == |fts| &&
      forall i {:trigger HasType(v.fields[i], fts[i])} :: 0 <= i < |fts| ==> HasType(v.fields[i], fts[i])
    case WithLenTy(e) => v.WithLen? && HasType(v.inner, e)
  }

  /**
   * The order in which a map's iterator yields its keys. The protocol does
   * not fix it (a `BTreeMap` yields keys sorted, a `HashMap` in bucket order).
   */
  type KeyOrder = map<Value, Value> -> seq<Value>

  /** No value occurs twice in `ks`. */
  predicate Distinct(ks: seq<Value>)
    decreases |ks|
  {
    ks == [] || (ks[0] !in ks[1..] && Distinct(ks[1..]))
  }

  /** `ks` lists every key of `m` exactly once. */
  predicate Enumerates(ks: seq<Value>, m: map<Value, Value>) {
    && |ks| == |m|
    && Distinct(ks)
    && (forall i :: 0 <= i < |ks| ==> ks[i] in m)
    && (forall k :: k in m ==> k in ks)
  }

  /** `order` lists the keys of `m` as its iterator would. */
  ghost predicate ListsKeysOf(order: KeyOrder, m: map<Value, Value>) {
    Enumerates(order(m), m)
  }

  ghost predicate OrderValid(order: KeyOrder) {
    forall m :: ListsKeysOf(order, m)
  }
}
