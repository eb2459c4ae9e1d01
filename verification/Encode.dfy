// The canonical binary encoding: what a byte string parses to, and the reader and
// writer that do it in place.
module Encode {
  import opened Prelude
  import opened LittleEndian

  const MAX_FIELD_LEN: int := 8 * 1024 * 1024

  datatype Reason = FieldTooLong | TooMany | UnknownLock | UnknownScheme

  datatype DecodeError = Eof | Invalid(reason: Reason) | Trailing

  // A value and the bytes left after it.
  datatype Read<+T> = Read(value: T, rest: Bytes)

  type Parsed<+T> = Result<Read<T>, DecodeError>

  // ----- parsing -----

  function ParseBytes(s: Bytes, n: nat): Parsed<Bytes> {
    if |s| < n then Err(Eof) else Ok(Read(s[..n], s[n..]))
  }

  function ParseU8(s: Bytes): Parsed<byte> {
    if |s| < 1 then Err(Eof) else Ok(Read(s[0], s[1..]))
  }

  function ParseU16(s: Bytes): Parsed<U16> {
    var raw :- ParseBytes(s, 2);
    LeCanonical(raw.value);
    Widths();
    Ok(Read(LeValue(raw.value), raw.rest))
  }

  function ParseU32(s: Bytes): Parsed<U32> {
    var raw :- ParseBytes(s, 4);
    LeCanonical(raw.value);
    Widths();
    Ok(Read(LeValue(raw.value), raw.rest))
  }

  function ParseU64(s: Bytes): Parsed<U64> {
    var raw :- ParseBytes(s, 8);
    LeCanonical(raw.value);
    Widths();
    Ok(Read(LeValue(raw.value), raw.rest))
  }

  function ParseVec(s: Bytes): Parsed<Bytes> {
    var n :- ParseU32(s);
    if n.value > MAX_FIELD_LEN then Err(Invalid(FieldTooLong)) else ParseBytes(n.rest, n.value)
  }

  function ParseCount(s: Bytes, max: nat): Parsed<U32> {
    var n :- ParseU32(s);
    if n.value > max then Err(Invalid(TooMany)) else Ok(n)
  }

  function ParseList<T>(parse: Bytes -> Parsed<T>, s: Bytes, n: nat): Parsed<seq<T>>
    decreases n
  {
    if n == 0 then Ok(Read([], s))
    else
      var first :- parse(s);
      var more :- ParseList(parse, first.rest, n - 1);
      Ok(Read([first.value] + more.value, more.rest))
  }

  function ParseAll<T>(parse: Bytes -> Parsed<T>, s: Bytes): Result<T, DecodeError> {
    var r :- parse(s);
    if r.rest == [] then Ok(r.value) else Err(Trailing)
  }

  // ----- printing -----

  function U32Bytes(v: U32): Bytes {
    LeBytes(v, 4)
  }

  function U64Bytes(v: U64): Bytes {
    LeBytes(v, 8)
  }

  // The length prefix is 32 bits wide.
  function VecBytes(v: Bytes): Bytes {
    U32Bytes(|v| % TWO_32) + v
  }

  function ListBytes<T>(bytes: T -> Bytes, xs: seq<T>): Bytes {
    if xs == [] then [] else bytes(xs[0]) + ListBytes(bytes, xs[1..])
  }

  // ----- the primitives round-trip and are canonical -----

  lemma BytesRoundTrip(v: Bytes, suffix: Bytes)
    ensures ParseBytes(v + suffix, |v|) == Ok(Read(v, suffix))
  {
  }

  lemma U32RoundTrip(v: U32, suffix: Bytes)
    ensures ParseU32(U32Bytes(v) + suffix) == Ok(Read(v, suffix))
  {
    Widths();
    LeRoundTrip(v, 4);
    BytesRoundTrip(U32Bytes(v), suffix);
  }

  lemma U64RoundTrip(v: U64, suffix: Bytes)
    ensures ParseU64(U64Bytes(v) + suffix) == Ok(Read(v, suffix))
  {
    Widths();
    LeRoundTrip(v, 8);
    BytesRoundTrip(U64Bytes(v), suffix);
  }

  lemma U16RoundTrip(v: U16, suffix: Bytes)
    ensures ParseU16(LeBytes(v, 2) + suffix) == Ok(Read(v, suffix))
  {
    Widths();
    LeRoundTrip(v, 2);
    BytesRoundTrip(LeBytes(v, 2), suffix);
  }

  lemma U32Canonical(s: Bytes)
    ensures ParseU32(s).Ok? ==> s == U32Bytes(ParseU32(s).value.value) + ParseU32(s).value.rest
  {
    if ParseU32(s).Ok? {
      LeCanonical(s[..4]);
    }
  }

  lemma U64Canonical(s: Bytes)
    ensures ParseU64(s).Ok? ==> s == U64Bytes(ParseU64(s).value.value) + ParseU64(s).value.rest
  {
    if ParseU64(s).Ok? {
      LeCanonical(s[..8]);
    }
  }

  lemma VecRoundTrip(v: Bytes, suffix: Bytes)
    requires |v| <= MAX_FIELD_LEN
    ensures ParseVec(VecBytes(v) + suffix) == Ok(Read(v, suffix))
  {
    U32RoundTrip(|v|, v + suffix);
    assert VecBytes(v) + suffix == U32Bytes(|v|) + (v + suffix);
    BytesRoundTrip(v, suffix);
  }

  lemma VecCanonical(s: Bytes)
    ensures ParseVec(s).Ok? ==>
              var r := ParseVec(s).value;
              |r.value| <= MAX_FIELD_LEN && s == VecBytes(r.value) + r.rest
  {
    U32Canonical(s);
  }

  lemma CountRoundTrip(n: nat, max: nat, suffix: Bytes)
    requires n <= max < TWO_32
    ensures ParseCount(U32Bytes(n) + suffix, max) == Ok(Read(n, suffix))
  {
    U32RoundTrip(n, suffix);
  }

  lemma CountCanonical(s: Bytes, max: nat)
    ensures ParseCount(s, max).Ok? ==>
              var r := ParseCount(s, max).value;
              r.value <= max && s == U32Bytes(r.value) + r.rest
  {
    U32Canonical(s);
  }

  // ----- lists -----

  // Parsing inverts printing on the values that fit, whatever follows; and parses
  // nothing but what printing yields.
  ghost predicate Inverse<T(!new)>(parse: Bytes -> Parsed<T>, bytes: T -> Bytes, fits: T -> bool) {
    && (forall x, suffix :: fits(x) ==> parse(bytes(x) + suffix) == Ok(Read(x, suffix)))
    && (forall s :: parse(s).Ok? ==> fits(parse(s).value.value) && s == bytes(parse(s).value.value) + parse(s).value.rest)
  }

  lemma {:induction false} ListRoundTrip<T(!new)>(parse: Bytes -> Parsed<T>, bytes: T -> Bytes, fits: T -> bool, xs: seq<T>, suffix: Bytes)
    requires Inverse(parse, bytes, fits) && forall x :: x in xs ==> fits(x)
    ensures ParseList(parse, ListBytes(bytes, xs) + suffix, |xs|) == Ok(Read(xs, suffix))
  {
    if xs != [] {
      var rest := ListBytes(bytes, xs[1..]) + suffix;
      ListRoundTrip(parse, bytes, fits, xs[1..], suffix);
      assert fits(xs[0]) by { assert xs[0] in xs; }
      assert [xs[0]] + xs[1..] == xs;
      assert ListBytes(bytes, xs) + suffix == bytes(xs[0]) + rest;
      assert parse(bytes(xs[0]) + rest) == Ok(Read(xs[0], rest));
    } else {
      assert [] + suffix == suffix;
    }
  }

  lemma {:induction false} ListCanonical<T(!new)>(parse: Bytes -> Parsed<T>, bytes: T -> Bytes, fits: T -> bool, s: Bytes, n: nat)
    requires Inverse(parse, bytes, fits)
    ensures ParseList(parse, s, n).Ok? ==>
              var r := ParseList(parse, s, n).value;
              |r.value| == n && (forall x :: x in r.value ==> fits(x)) && s == ListBytes(bytes, r.value) + r.rest
    decreases n
  {
    if ParseList(parse, s, n).Ok? && n > 0 {
      var first := parse(s).value;
      ListCanonical(parse, bytes, fits, first.rest, n - 1);
      var more := ParseList(parse, first.rest, n - 1).value;
      assert s == bytes(first.value) + (ListBytes(bytes, more.value) + more.rest);
      assert ([first.value] + more.value)[1..] == more.value;
    }
  }

  // What remains of a list parse once `done` has been read.
  function Onward<T>(done: seq<T>, parsed: Parsed<seq<T>>): Parsed<seq<T>> {
    var r :- parsed;
    Ok(Read(done + r.value, r.rest))
  }

  lemma ListStep<T>(parse: Bytes -> Parsed<T>, done: seq<T>, s: Bytes, n: nat)
    requires n > 0
    ensures Onward(done, ParseList(parse, s, n))
            == match parse(s)
               case Ok(first) => Onward(done + [first.value], ParseList(parse, first.rest, n - 1))
               case Err(e) => Err(e)
  {
    if parse(s).Ok? {
      var first := parse(s).value;
      var more := ParseList(parse, first.rest, n - 1);
      if more.Ok? {
        assert done + ([first.value] + more.value.value) == done + [first.value] + more.value.value;
      }
    }
  }

  lemma {:induction false} ListBytesSnoc<T>(bytes: T -> Bytes, xs: seq<T>, x: T)
    ensures ListBytes(bytes, xs + [x]) == ListBytes(bytes, xs) + bytes(x)
  {
    if xs == [] {
      assert [x][1..] == [];
    } else {
      ListBytesSnoc(bytes, xs[1..], x);
      assert (xs + [x])[1..] == xs[1..] + [x];
    }
  }

  // ----- in place -----

  // A read did what the parse of the remaining bytes says.
  ghost predicate Agrees<T>(parsed: Parsed<T>, r: Result<T, DecodeError>, rest: Bytes) {
    match parsed
    case Ok(x) => r == Ok(x.value) && rest == x.rest
    case Err(e) => r == Err(e)
  }

  class Reader {
    const buf: Bytes
    var pos: nat

    ghost predicate Valid()
      reads this
    {
      pos <= |buf|
    }

    function Rest(): Bytes
      reads this
      requires Valid()
    {
      buf[pos..]
    }

    constructor (buf: Bytes)
      ensures Valid() && Rest() == buf
    {
      this.buf, pos := buf, 0;
    }

    method ReadBytes(n: nat) returns (r: Result<Bytes, DecodeError>)
      requires Valid()
      modifies this
      ensures Valid() && Agrees(ParseBytes(old(Rest()), n), r, Rest())
    {
      if |buf| - pos < n {
        return Err(Eof);
      }
      assert Rest()[..n] == buf[pos..pos + n];
      r := Ok(buf[pos..pos + n]);
      pos := pos + n;
    }

    method ReadU8() returns (r: Result<byte, DecodeError>)
      requires Valid()
      modifies this
      ensures Valid() && Agrees(ParseU8(old(Rest())), r, Rest())
    {
      var raw :- ReadBytes(1);
      return Ok(raw[0]);
    }

    method ReadU16() returns (r: Result<U16, DecodeError>)
      requires Valid()
      modifies this
      ensures Valid() && Agrees(ParseU16(old(Rest())), r, Rest())
    {
      var raw :- ReadBytes(2);
      LeCanonical(raw);
      Widths();
      return Ok(LeValue(raw));
    }

    method ReadU32() returns (r: Result<U32, DecodeError>)
      requires Valid()
      modifies this
      ensures Valid() && Agrees(ParseU32(old(Rest())), r, Rest())
    {
      var raw :- ReadBytes(4);
      LeCanonical(raw);
      Widths();
      return Ok(LeValue(raw));
    }

    method ReadU64() returns (r: Result<U64, DecodeError>)
      requires Valid()
      modifies this
      ensures Valid() && Agrees(ParseU64(old(Rest())), r, Rest())
    {
      var raw :- ReadBytes(8);
      LeCanonical(raw);
      Widths();
      return Ok(LeValue(raw));
    }

    method ReadVec() returns (r: Result<Bytes, DecodeError>)
      requires Valid()
      modifies this
      ensures Valid() && Agrees(ParseVec(old(Rest())), r, Rest())
    {
      var n :- ReadU32();
      if n > MAX_FIELD_LEN {
        return Err(Invalid(FieldTooLong));
      }
      r := ReadBytes(n);
    }

    method ReadCount(max: nat) returns (r: Result<U32, DecodeError>)
      requires Valid()
      modifies this
      ensures Valid() && Agrees(ParseCount(old(Rest()), max), r, Rest())
    {
      var n :- ReadU32();
      return if n > max then Err(Invalid(TooMany)) else Ok(n);
    }

    method Finish() returns (r: Result<(), DecodeError>)
      requires Valid()
      ensures r == if Rest() == [] then Ok(()) else Err(Trailing)
    {
      return if |buf| - pos == 0 then Ok(()) else Err(Trailing);
    }
  }

  class Writer {
    var out: Bytes

    constructor ()
      ensures out == []
    {
      out := [];
    }

    method Put(bytes: Bytes)
      modifies this
      ensures out == old(out) + bytes
    {
      out := out + bytes;
    }

    method PutU8(v: byte)
      modifies this
      ensures out == old(out) + [v]
    {
      out := out + [v];
    }

    method PutU32(v: U32)
      modifies this
      ensures out == old(out) + U32Bytes(v)
    {
      Put(LeBytes(v, 4));
    }

    method PutU64(v: U64)
      modifies this
      ensures out == old(out) + U64Bytes(v)
    {
      Put(LeBytes(v, 8));
    }

    method PutVec(v: Bytes)
      modifies this
      ensures out == old(out) + VecBytes(v)
    {
      PutU32(|v| % TWO_32);
      Put(v);
    }
  }
}
