/**
 * The Borsh encoding that Anchor uses for account data and instruction
 * arguments: integers little-endian at their full width, a `String` as a u32
 * byte count followed by its UTF-8 bytes, a `Vec<T>` as a u32 element count
 * followed by the elements. Every decoder consumes a prefix of its input and
 * hands back the rest; it fails instead of reading past the end.
 */
module Borsh {
  import opened Wrappers
  import opened Bytes

  /** Borsh's "unexpected length of input". */
  datatype BorshError = UnexpectedEnd

  /** A decoded value and the bytes after it. */
  type Decoded<T> = Result<(T, seq<byte>), BorshError>

  const U32_LIMIT: int := 0x1_0000_0000

  function EncodeU8(x: byte): seq<byte> {
    [x]
  }

  function DecodeU8(bs: seq<byte>): (r: Decoded<byte>)
    ensures r.Err? <==> |bs| < 1
    ensures r.Ok? ==> bs == EncodeU8(r.value.0) + r.value.1
  {
    if |bs| < 1 then Err(UnexpectedEnd) else Ok((bs[0], bs[1..]))
  }

  function EncodeU32(x: u32): seq<byte> {
    U32Bytes(x)
  }

  function DecodeU32(bs: seq<byte>): (r: Decoded<u32>)
    ensures r.Err? <==> |bs| < 4
    ensures r.Ok? ==> bs == EncodeU32(r.value.0) + r.value.1
  {
    if |bs| < 4 then Err(UnexpectedEnd)
    else
      assert bs == bs[..4] + bs[4..];
      Ok((U32FromBytes(bs[..4]), bs[4..]))
  }

  function EncodeU64(x: u64): seq<byte> {
    U64Bytes(x)
  }

  function DecodeU64(bs: seq<byte>): (r: Decoded<u64>)
    ensures r.Err? <==> |bs| < 8
    ensures r.Ok? ==> bs == EncodeU64(r.value.0) + r.value.1
  {
    if |bs| < 8 then Err(UnexpectedEnd)
    else
      assert bs == bs[..8] + bs[8..];
      Ok((U64FromBytes(bs[..8]), bs[8..]))
  }

  lemma DecodeU32Encoded(x: u32, rest: seq<byte>)
    ensures DecodeU32(EncodeU32(x) + rest) == Ok((x, rest))
  {
    var bs := EncodeU32(x) + rest;
    assert bs[..4] == EncodeU32(x) && bs[4..] == rest;
    U32BytesRoundTrip(x);
  }

  lemma DecodeU64Encoded(x: u64, rest: seq<byte>)
    ensures DecodeU64(EncodeU64(x) + rest) == Ok((x, rest))
  {
    var bs := EncodeU64(x) + rest;
    assert bs[..8] == EncodeU64(x) && bs[8..] == rest;
    U64BytesRoundTrip(x);
  }

  /** A byte string whose length Borsh can write in a u32 prefix. */
  predicate FitsU32(s: seq<byte>) {
    |s| < U32_LIMIT
  }

  /** `String` (or `Vec<u8>`): u32 byte count, then the bytes. */
  function EncodeString(s: seq<byte>): (bs: seq<byte>)
    requires FitsU32(s)
    ensures |bs| == 4 + |s|
  {
    EncodeU32(|s|) + s
  }

  function DecodeString(bs: seq<byte>): (r: Decoded<seq<byte>>)
    ensures r.Ok? ==> FitsU32(r.value.0) && bs == EncodeString(r.value.0) + r.value.1
  {
    var (n, rest) :- DecodeU32(bs);
    if |rest| < n then Err(UnexpectedEnd)
    else
      assert rest == rest[..n] + rest[n..];
      Ok((rest[..n], rest[n..]))
  }

  /** A declared length that runs past the end of the buffer is refused. */
  lemma DecodeStringOverrun(n: u32, body: seq<byte>)
    requires |body| < n
    ensures DecodeString(EncodeU32(n) + body) == Err(UnexpectedEnd)
  {
    DecodeU32Encoded(n, body);
  }

  lemma DecodeStringEncoded(s: seq<byte>, rest: seq<byte>)
    requires FitsU32(s)
    ensures DecodeString(EncodeString(s) + rest) == Ok((s, rest))
  {
    assert EncodeString(s) + rest == EncodeU32(|s|) + (s + rest);
    DecodeU32Encoded(|s|, s + rest);
    assert (s + rest)[..|s|] == s && (s + rest)[|s|..] == rest;
  }

  /** Strings that a `Vec<String>` can hold. */
  predicate StringsFit(ss: seq<seq<byte>>) {
    |ss| < U32_LIMIT && forall i | 0 <= i < |ss| :: FitsU32(ss[i])
  }

  /** Bytes taken by the elements of a `Vec<String>`: a 4-byte count and the bytes of each. */
  function StringItemsSize(ss: seq<seq<byte>>): nat {
    if ss == [] then 0 else 4 + |ss[0]| + StringItemsSize(ss[1..])
  }

  /** The elements of a `Vec<String>`, one after another, without the count. */
  function EncodeStringItems(ss: seq<seq<byte>>): (bs: seq<byte>)
    requires forall i | 0 <= i < |ss| :: FitsU32(ss[i])
    ensures |bs| == StringItemsSize(ss)
  {
    if ss == [] then [] else EncodeString(ss[0]) + EncodeStringItems(ss[1..])
  }

  lemma EncodeStringItemsCons(bs: seq<byte>, s: seq<byte>, rest: seq<byte>, tail: seq<seq<byte>>, rest': seq<byte>)
    requires FitsU32(s) && forall i | 0 <= i < |tail| :: FitsU32(tail[i])
    requires bs == EncodeString(s) + rest && rest == EncodeStringItems(tail) + rest'
    ensures forall i | 0 <= i < |[s] + tail| :: FitsU32(([s] + tail)[i])
    ensures bs == EncodeStringItems([s] + tail) + rest'
  {
    assert ([s] + tail)[1..] == tail;
  }

  lemma EncodeStringItemsNil(bs: seq<byte>)
    ensures bs == EncodeStringItems([]) + bs
  {
  }

  function DecodeStringItems(n: nat, bs: seq<byte>): (r: Decoded<seq<seq<byte>>>)
    ensures r.Ok? ==> |r.value.0| == n
    ensures r.Ok? ==> forall i | 0 <= i < |r.value.0| :: FitsU32(r.value.0[i])
    ensures r.Ok? ==> bs == EncodeStringItems(r.value.0) + r.value.1
  {
    if n == 0 then
      EncodeStringItemsNil(bs);
      Ok(([], bs))
    else
      match DecodeString(bs)
      case Err(e) => Err(e)
      case Ok((s, rest)) =>
        match DecodeStringItems(n - 1, rest)
        case Err(e) => Err(e)
        case Ok((tail, rest')) =>
          EncodeStringItemsCons(bs, s, rest, tail, rest');
          Ok(([s] + tail, rest'))
  }

  lemma {:induction false} DecodeStringItemsEncoded(ss: seq<seq<byte>>, rest: seq<byte>)
    requires forall i | 0 <= i < |ss| :: FitsU32(ss[i])
    ensures DecodeStringItems(|ss|, EncodeStringItems(ss) + rest) == Ok((ss, rest))
  {
    if ss != [] {
      var tailBytes := EncodeStringItems(ss[1..]) + rest;
      assert EncodeStringItems(ss) + rest == EncodeString(ss[0]) + tailBytes;
      DecodeStringEncoded(ss[0], tailBytes);
      DecodeStringItemsEncoded(ss[1..], rest);
      assert DecodeStringItems(|ss| - 1, tailBytes) == Ok((ss[1..], rest));
      assert [ss[0]] + ss[1..] == ss;
    } else {
      assert EncodeStringItems(ss) + rest == rest;
    }
  }

  /** `Vec<String>`: u32 element count, then each string. */
  function EncodeStrings(ss: seq<seq<byte>>): (bs: seq<byte>)
    requires StringsFit(ss)
    ensures |bs| == 4 + StringItemsSize(ss)
  {
    EncodeU32(|ss|) + EncodeStringItems(ss)
  }

  function DecodeStrings(bs: seq<byte>): (r: Decoded<seq<seq<byte>>>)
    ensures r.Ok? ==> StringsFit(r.value.0) && bs == EncodeStrings(r.value.0) + r.value.1
  {
    var (n, rest) :- DecodeU32(bs);
    DecodeStringItems(n, rest)
  }

  lemma DecodeStringsEncoded(ss: seq<seq<byte>>, rest: seq<byte>)
    requires StringsFit(ss)
    ensures DecodeStrings(EncodeStrings(ss) + rest) == Ok((ss, rest))
  {
    assert EncodeStrings(ss) + rest == EncodeU32(|ss|) + (EncodeStringItems(ss) + rest);
    DecodeU32Encoded(|ss|, EncodeStringItems(ss) + rest);
    DecodeStringItemsEncoded(ss, rest);
  }

  /** The elements of a `Vec<u64>`, one after another, without the count. */
  function EncodeU64Items(xs: seq<u64>): (bs: seq<byte>)
    ensures |bs| == 8 * |xs|
  {
    if xs == [] then [] else EncodeU64(xs[0]) + EncodeU64Items(xs[1..])
  }

  function DecodeU64Items(n: nat, bs: seq<byte>): (r: Decoded<seq<u64>>)
    ensures r.Ok? ==> |r.value.0| == n && bs == EncodeU64Items(r.value.0) + r.value.1
  {
    if n == 0 then
      assert bs == EncodeU64Items([]) + bs;
      Ok(([], bs))
    else
      var (x, rest) :- DecodeU64(bs);
      var (tail, rest') :- DecodeU64Items(n - 1, rest);
      assert ([x] + tail)[1..] == tail;
      assert bs == EncodeU64Items([x] + tail) + rest';
      Ok(([x] + tail, rest'))
  }

  lemma {:induction false} DecodeU64ItemsEncoded(xs: seq<u64>, rest: seq<byte>)
    ensures DecodeU64Items(|xs|, EncodeU64Items(xs) + rest) == Ok((xs, rest))
  {
    if xs != [] {
      var tailBytes := EncodeU64Items(xs[1..]) + rest;
      assert EncodeU64Items(xs) + rest == EncodeU64(xs[0]) + tailBytes;
      DecodeU64Encoded(xs[0], tailBytes);
      DecodeU64ItemsEncoded(xs[1..], rest);
      assert DecodeU64Items(|xs| - 1, tailBytes) == Ok((xs[1..], rest));
      assert [xs[0]] + xs[1..] == xs;
    } else {
      assert EncodeU64Items(xs) + rest == rest;
    }
  }

  /** `Vec<u64>`: u32 element count, then each value in 8 bytes. */
  function EncodeU64s(xs: seq<u64>): (bs: seq<byte>)
    requires |xs| < U32_LIMIT
    ensures |bs| == 4 + 8 * |xs|
  {
    EncodeU32(|xs|) + EncodeU64Items(xs)
  }

  function DecodeU64s(bs: seq<byte>): (r: Decoded<seq<u64>>)
    ensures r.Ok? ==> |r.value.0| < U32_LIMIT && bs == EncodeU64s(r.value.0) + r.value.1
  {
    var (n, rest) :- DecodeU32(bs);
    DecodeU64Items(n, rest)
  }

  lemma DecodeU64sEncoded(xs: seq<u64>, rest: seq<byte>)
    requires |xs| < U32_LIMIT
    ensures DecodeU64s(EncodeU64s(xs) + rest) == Ok((xs, rest))
  {
    assert EncodeU64s(xs) + rest == EncodeU32(|xs|) + (EncodeU64Items(xs) + rest);
    DecodeU32Encoded(|xs|, EncodeU64Items(xs) + rest);
    DecodeU64ItemsEncoded(xs, rest);
  }
}
