/**
 * The wire format of persisted records: printers, parsers, and the forward-only decoder.
 *
 * A printer `PutX(v, rest)` puts the encoding of `v` in front of `rest`. A parser `GetX(s)` takes one
 * value off the front of `s`; its contract says that the printer gives back what was taken.
 */
module Wire {
  import opened Bytes

  const U32_MAX: int := 0xFFFF_FFFF
  const MAX_FIELD_SIZE: nat := 0x10_0000
  const TENANT_SIZE: nat := 32

  type u32 = n: int | 0 <= n <= U32_MAX
  type Tenant = b: Bytes | |b| == 32 witness seq(32, _ => 0)

  /** Byte strings whose length fits the 32-bit length prefix. */
  type Blob = b: Bytes | |b| <= U32_MAX

  datatype CodecError =
    | Truncated(needed: nat, remaining: nat)
    | InvalidVersionPrefix
    | InvalidBlobKind(actual: byte)
    | UnexpectedBlobKind(actual: byte)
    | InvalidBool(actual: byte)
    | InvalidEnum(actual: byte)
    | FieldTooLarge(size: nat, max: nat)
    | TrailingBytes(remaining: nat)
    | InvariantViolation
    | InvalidSpec
    | InvalidCursor
    | SlabFull

  type Result<T> = Fallible<T, CodecError>

  /** A parsed value and the input after it. */
  datatype Parsed<+T> = Parsed(value: T, rest: Bytes)

  // ---------------------------------------------------------------------
  // Little-endian numbers
  // ---------------------------------------------------------------------

  function Pow256(k: nat): (p: nat)
    ensures p > 0
  {
    if k == 0 then 1 else 256 * Pow256(k - 1)
  }

  function ToLe(n: nat, width: nat): (s: Bytes)
    ensures |s| == width
  {
    if width == 0 then [] else [n % 256] + ToLe(n / 256, width - 1)
  }

  function FromLe(s: Bytes): (n: nat)
    ensures n < Pow256(|s|)
  {
    if s == [] then 0 else s[0] + 256 * FromLe(s[1..])
  }

  lemma {:induction false} LeRoundTrip(n: nat, width: nat)
    requires n < Pow256(width)
    ensures FromLe(ToLe(n, width)) == n
    decreases width
  {
    if width > 0 {
      LeRoundTrip(n / 256, width - 1);
      assert ToLe(n, width)[1..] == ToLe(n / 256, width - 1);
    }
  }

  lemma LowByte(b: byte, high: nat)
    ensures (b + 256 * high) % 256 == b && (b + 256 * high) / 256 == high
  {
  }

  lemma {:induction false} LeIsCanonical(s: Bytes)
    ensures ToLe(FromLe(s), |s|) == s
    decreases |s|
  {
    if s != [] {
      LeIsCanonical(s[1..]);
      LowByte(s[0], FromLe(s[1..]));
      assert s == [s[0]] + s[1..];
    }
  }

  lemma WidthBounds()
    ensures Pow256(4) == U32_MAX + 1 && Pow256(8) == U64_MAX + 1
  {
    assert Pow256(1) == 256 && Pow256(2) == 0x1_0000 && Pow256(3) == 0x100_0000;
    assert Pow256(4) == 0x1_0000_0000 && Pow256(5) == 0x100_0000_0000;
    assert Pow256(6) == 0x1_0000_0000_0000 && Pow256(7) == 0x100_0000_0000_0000;
  }

  // ---------------------------------------------------------------------
  // Fixed-width fields
  // ---------------------------------------------------------------------

  function Take(s: Bytes, n: nat): (r: Result<Parsed<Bytes>>)
    ensures r.Ok? ==> |r.value.value| == n && s == r.value.value + r.value.rest
  {
    if |s| < n then Err(Truncated(n, |s|)) else Ok(Parsed(s[..n], s[n..]))
  }

  lemma TakeComplete(b: Bytes, rest: Bytes)
    ensures Take(b + rest, |b|) == Ok(Parsed(b, rest))
  {
    assert (b + rest)[..|b|] == b && (b + rest)[|b|..] == rest;
  }

  function PutU8(v: byte, rest: Bytes): Bytes { [v] + rest }

  function GetU8(s: Bytes): (r: Result<Parsed<byte>>)
    ensures r.Ok? ==> s == PutU8(r.value.value, r.value.rest)
  {
    var p :- Take(s, 1);
    assert p.value == [p.value[0]];
    Ok(Parsed(p.value[0], p.rest))
  }

  function PutU32(v: u32, rest: Bytes): Bytes { ToLe(v, 4) + rest }

  function GetU32(s: Bytes): (r: Result<Parsed<u32>>)
    ensures r.Ok? ==> s == PutU32(r.value.value, r.value.rest)
  {
    var p :- Take(s, 4);
    WidthBounds();
    LeIsCanonical(p.value);
    Ok(Parsed(FromLe(p.value), p.rest))
  }

  function PutU64(v: u64, rest: Bytes): Bytes { ToLe(v, 8) + rest }

  function GetU64(s: Bytes): (r: Result<Parsed<u64>>)
    ensures r.Ok? ==> s == PutU64(r.value.value, r.value.rest)
  {
    var p :- Take(s, 8);
    WidthBounds();
    LeIsCanonical(p.value);
    Ok(Parsed(FromLe(p.value), p.rest))
  }

  function PutTenant(t: Tenant, rest: Bytes): Bytes { t + rest }

  function GetTenant(s: Bytes): (r: Result<Parsed<Tenant>>)
    ensures r.Ok? ==> s == PutTenant(r.value.value, r.value.rest)
  {
    var p :- Take(s, TENANT_SIZE);
    Ok(Parsed(p.value, p.rest))
  }

  function PutBool(v: bool, rest: Bytes): Bytes { PutU8(if v then 1 else 0, rest) }

  function GetBool(s: Bytes): (r: Result<Parsed<bool>>)
    ensures r.Ok? ==> s == PutBool(r.value.value, r.value.rest)
  {
    var p :- GetU8(s);
    if p.value > 1 then Err(InvalidBool(p.value)) else Ok(Parsed(p.value == 1, p.rest))
  }

  lemma U8Complete(v: byte, rest: Bytes)
    ensures GetU8(PutU8(v, rest)) == Ok(Parsed(v, rest))
  {
    TakeComplete([v], rest);
  }

  lemma U32Complete(v: u32, rest: Bytes)
    ensures GetU32(PutU32(v, rest)) == Ok(Parsed(v, rest))
  {
    WidthBounds();
    TakeComplete(ToLe(v, 4), rest);
    LeRoundTrip(v, 4);
  }

  lemma U64Complete(v: u64, rest: Bytes)
    ensures GetU64(PutU64(v, rest)) == Ok(Parsed(v, rest))
  {
    WidthBounds();
    TakeComplete(ToLe(v, 8), rest);
    LeRoundTrip(v, 8);
  }

  lemma TenantComplete(t: Tenant, rest: Bytes)
    ensures GetTenant(PutTenant(t, rest)) == Ok(Parsed(t, rest))
  {
    TakeComplete(t, rest);
  }

  lemma BoolComplete(v: bool, rest: Bytes)
    ensures GetBool(PutBool(v, rest)) == Ok(Parsed(v, rest))
  {
    U8Complete(if v then 1 else 0, rest);
  }

  // ---------------------------------------------------------------------
  // Variable-length and optional fields
  // ---------------------------------------------------------------------

  function PutBytes(b: Blob, rest: Bytes): Bytes { PutU32(|b|, b + rest) }

  function GetBytes(s: Bytes): (r: Result<Parsed<Blob>>)
    ensures r.Ok? ==> |r.value.value| <= MAX_FIELD_SIZE && s == PutBytes(r.value.value, r.value.rest)
  {
    var n :- GetU32(s);
    if n.value > MAX_FIELD_SIZE then Err(FieldTooLarge(n.value, MAX_FIELD_SIZE))
    else
      var b :- Take(n.rest, n.value);
      Ok(Parsed(b.value, b.rest))
  }

  lemma BytesComplete(b: Blob, rest: Bytes)
    requires |b| <= MAX_FIELD_SIZE
    ensures GetBytes(PutBytes(b, rest)) == Ok(Parsed(b, rest))
  {
    U32Complete(|b|, b + rest);
    TakeComplete(b, rest);
  }

  function PutOptBytes(v: Option<Blob>, rest: Bytes): Bytes {
    if v.Some? then PutBool(true, PutBytes(v.value, rest)) else PutBool(false, rest)
  }

  function GetOptBytes(s: Bytes): (r: Result<Parsed<Option<Blob>>>)
    ensures r.Ok? ==> FitsField(r.value.value) && s == PutOptBytes(r.value.value, r.value.rest)
  {
    var tag :- GetBool(s);
    if !tag.value then Ok(Parsed(None, tag.rest))
    else
      var b :- GetBytes(tag.rest);
      Ok(Parsed(Some(b.value), b.rest))
  }

  predicate FitsField(v: Option<Blob>) { v.Some? ==> |v.value| <= MAX_FIELD_SIZE }

  lemma OptBytesComplete(v: Option<Blob>, rest: Bytes)
    requires FitsField(v)
    ensures GetOptBytes(PutOptBytes(v, rest)) == Ok(Parsed(v, rest))
  {
    if v.Some? {
      BoolComplete(true, PutBytes(v.value, rest));
      BytesComplete(v.value, rest);
    } else {
      BoolComplete(false, rest);
    }
  }

  function PutOptU64(v: Option<u64>, rest: Bytes): Bytes {
    if v.Some? then PutBool(true, PutU64(v.value, rest)) else PutBool(false, rest)
  }

  function GetOptU64(s: Bytes): (r: Result<Parsed<Option<u64>>>)
    ensures r.Ok? ==> s == PutOptU64(r.value.value, r.value.rest)
  {
    var tag :- GetBool(s);
    if !tag.value then Ok(Parsed(None, tag.rest))
    else
      var n :- GetU64(tag.rest);
      Ok(Parsed(Some(n.value), n.rest))
  }

  lemma OptU64Complete(v: Option<u64>, rest: Bytes)
    ensures GetOptU64(PutOptU64(v, rest)) == Ok(Parsed(v, rest))
  {
    if v.Some? {
      BoolComplete(true, PutU64(v.value, rest));
      U64Complete(v.value, rest);
    } else {
      BoolComplete(false, rest);
    }
  }

  function PutOptU32(v: Option<u32>, rest: Bytes): Bytes {
    if v.Some? then PutBool(true, PutU32(v.value, rest)) else PutBool(false, rest)
  }

  function GetOptU32(s: Bytes): (r: Result<Parsed<Option<u32>>>)
    ensures r.Ok? ==> s == PutOptU32(r.value.value, r.value.rest)
  {
    var tag :- GetBool(s);
    if !tag.value then Ok(Parsed(None, tag.rest))
    else
      var n :- GetU32(tag.rest);
      Ok(Parsed(Some(n.value), n.rest))
  }

  lemma OptU32Complete(v: Option<u32>, rest: Bytes)
    ensures GetOptU32(PutOptU32(v, rest)) == Ok(Parsed(v, rest))
  {
    if v.Some? {
      BoolComplete(true, PutU32(v.value, rest));
      U32Complete(v.value, rest);
    } else {
      BoolComplete(false, rest);
    }
  }

  function PutOptU8(v: Option<byte>, rest: Bytes): Bytes {
    if v.Some? then PutBool(true, PutU8(v.value, rest)) else PutBool(false, rest)
  }

  function GetOptU8(s: Bytes): (r: Result<Parsed<Option<byte>>>)
    ensures r.Ok? ==> s == PutOptU8(r.value.value, r.value.rest)
  {
    var tag :- GetBool(s);
    if !tag.value then Ok(Parsed(None, tag.rest))
    else
      var n :- GetU8(tag.rest);
      Ok(Parsed(Some(n.value), n.rest))
  }

  lemma OptU8Complete(v: Option<byte>, rest: Bytes)
    ensures GetOptU8(PutOptU8(v, rest)) == Ok(Parsed(v, rest))
  {
    if v.Some? {
      BoolComplete(true, PutU8(v.value, rest));
      U8Complete(v.value, rest);
    } else {
      BoolComplete(false, rest);
    }
  }

  // ---------------------------------------------------------------------
  // Lists, for any kind of element
  // ---------------------------------------------------------------------

  function PutAll<T>(put: (T, Bytes) -> Bytes, xs: seq<T>, rest: Bytes): Bytes
    decreases |xs|
  {
    if xs == [] then rest else PutAll(put, xs[..|xs| - 1], put(xs[|xs| - 1], rest))
  }

  function GetAll<T>(get: Bytes -> Result<Parsed<T>>, s: Bytes, n: nat): (r: Result<Parsed<seq<T>>>)
    ensures r.Ok? ==> |r.value.value| == n
    decreases n
  {
    if n == 0 then Ok(Parsed([], s))
    else
      var init :- GetAll(get, s, n - 1);
      var last :- get(init.rest);
      Ok(Parsed(init.value + [last.value], last.rest))
  }

  /** The printer gives back what the parser took, and what it took is acceptable. */
  ghost predicate Sound<T(!new)>(put: (T, Bytes) -> Bytes, get: Bytes -> Result<Parsed<T>>, ok: T -> bool) {
    forall s :: get(s).Ok? ==> ok(get(s).value.value) && s == put(get(s).value.value, get(s).value.rest)
  }

  /** The parser takes every acceptable value back off the front. */
  ghost predicate Complete<T(!new)>(put: (T, Bytes) -> Bytes, get: Bytes -> Result<Parsed<T>>, ok: T -> bool) {
    forall v, rest :: ok(v) ==> get(put(v, rest)) == Ok(Parsed(v, rest))
  }

  ghost predicate Every<T(!new)>(ok: T -> bool, xs: seq<T>) { forall i :: 0 <= i < |xs| ==> ok(xs[i]) }

  lemma {:induction false} GetAllSound<T(!new)>(put: (T, Bytes) -> Bytes, get: Bytes -> Result<Parsed<T>>, ok: T -> bool,
                                                s: Bytes, n: nat)
    requires Sound(put, get, ok)
    ensures var r := GetAll(get, s, n); r.Ok? ==> Every(ok, r.value.value) && s == PutAll(put, r.value.value, r.value.rest)
    decreases n
  {
    if n > 0 && GetAll(get, s, n).Ok? {
      GetAllSound(put, get, ok, s, n - 1);
      var init := GetAll(get, s, n - 1).value;
      var last := get(init.rest).value;
      assert (init.value + [last.value])[..n - 1] == init.value;
    }
  }

  lemma {:induction false} GetAllComplete<T(!new)>(put: (T, Bytes) -> Bytes, get: Bytes -> Result<Parsed<T>>, ok: T -> bool,
                                                   xs: seq<T>, rest: Bytes)
    requires Complete(put, get, ok) && Every(ok, xs)
    ensures GetAll(get, PutAll(put, xs, rest), |xs|) == Ok(Parsed(xs, rest))
    decreases |xs|
  {
    if xs != [] {
      var n := |xs| - 1;
      GetAllComplete(put, get, ok, xs[..n], put(xs[n], rest));
      assert xs == xs[..n] + [xs[n]];
    }
  }

  /** A failed read ends the whole list. */
  lemma {:induction false} GetAllFails<T>(get: Bytes -> Result<Parsed<T>>, s: Bytes, i: nat, n: nat, error: CodecError)
    requires i <= n && GetAll(get, s, i) == Err(error)
    ensures GetAll(get, s, n) == Err(error)
    decreases n
  {
    if i < n { GetAllFails(get, s, i, n - 1, error); }
  }

  /** Lists print front to back as well as back to front. */
  lemma {:induction false} PutAllFront<T>(put: (T, Bytes) -> Bytes, xs: seq<T>, rest: Bytes)
    requires xs != []
    ensures PutAll(put, xs, rest) == put(xs[0], PutAll(put, xs[1..], rest))
    decreases |xs|
  {
    var n := |xs| - 1;
    if n > 0 {
      PutAllFront(put, xs[..n], put(xs[n], rest));
      assert xs[..n][1..] == xs[1..][..n - 1];
    } else {
      assert xs[..0] == [] && xs[1..] == [];
    }
  }

  // ---------------------------------------------------------------------
  // Lists of shard ids
  // ---------------------------------------------------------------------

  type Ids = ids: seq<u64> | |ids| <= U32_MAX

  function PutEach(ids: seq<u64>, rest: Bytes): Bytes { PutAll(PutU64, ids, rest) }

  function GetEach(s: Bytes, n: nat): (r: Result<Parsed<seq<u64>>>)
    ensures r.Ok? ==> |r.value.value| == n && s == PutEach(r.value.value, r.value.rest)
  {
    GetAllSound(PutU64, GetU64, (id: u64) => true, s, n);
    GetAll(GetU64, s, n)
  }

  lemma {:induction false} EachLength(ids: seq<u64>, rest: Bytes)
    ensures |PutEach(ids, rest)| == 8 * |ids| + |rest|
    decreases |ids|
  {
    if ids != [] { EachLength(ids[..|ids| - 1], PutU64(ids[|ids| - 1], rest)); }
  }

  lemma EachComplete(ids: seq<u64>, rest: Bytes)
    ensures GetEach(PutEach(ids, rest), |ids|) == Ok(Parsed(ids, rest))
  {
    forall id: u64, r ensures GetU64(PutU64(id, r)) == Ok(Parsed(id, r)) { U64Complete(id, r); }
    GetAllComplete(PutU64, GetU64, (id: u64) => true, ids, rest);
  }

  function PutIds(ids: Ids, rest: Bytes): Bytes { PutU32(|ids|, PutEach(ids, rest)) }

  // ---------------------------------------------------------------------
  // Blob header
  // ---------------------------------------------------------------------

  datatype BlobKind = RunBlob | ShardBlob | OwnerBlob

  function KindTag(k: BlobKind): byte {
    match k
    case RunBlob => 1
    case ShardBlob => 2
    case OwnerBlob => 3
  }

  const VERSION_PREFIX: Bytes := [118, 49]

  function PutHeader(k: BlobKind, rest: Bytes): Bytes { VERSION_PREFIX + PutU8(KindTag(k), rest) }

  function GetHeader(s: Bytes, k: BlobKind): (r: Result<Bytes>)
    ensures r.Ok? ==> s == PutHeader(k, r.value)
  {
    var prefix :- Take(s, 2);
    if prefix.value != VERSION_PREFIX then Err(InvalidVersionPrefix)
    else
      var tag :- GetU8(prefix.rest);
      if tag.value == 0 || tag.value > 3 then Err(InvalidBlobKind(tag.value))
      else if tag.value != KindTag(k) then Err(UnexpectedBlobKind(tag.value))
      else Ok(tag.rest)
  }

  lemma HeaderComplete(k: BlobKind, rest: Bytes)
    ensures GetHeader(PutHeader(k, rest), k) == Ok(rest)
  {
    TakeComplete(VERSION_PREFIX, PutU8(KindTag(k), rest));
    U8Complete(KindTag(k), rest);
  }
}
