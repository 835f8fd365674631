/** Little-endian 64-bit fields read through a moving cursor. */
module BinaryCodec {
  import opened Base

  type Byte = n: nat | n < 256

  type Bytes = seq<Byte>

  /** Bytes in a 64-bit field. */
  const WORD: nat := 8

  datatype DecodeError = Truncated | TooLarge | BadMagic | WrongIdentity | TrailingBytes

  function Ascii(s: string): (b: Bytes)
    requires forall i :: 0 <= i < |s| ==> s[i] as int < 128
    ensures |b| == |s|
  {
    seq(|s|, i requires 0 <= i < |s| => s[i] as int)
  }

  function LeBytes(v: nat, width: nat): (b: Bytes)
    ensures |b| == width
  {
    if width == 0 then [] else [v % 256] + LeBytes(v / 256, width - 1)
  }

  function LeValue(b: Bytes): nat {
    if b == [] then 0 else b[0] + 256 * LeValue(b[1..])
  }

  function Pow256(k: nat): nat {
    if k == 0 then 1 else 256 * Pow256(k - 1)
  }

  lemma {:induction false} LeRoundTrip(v: nat, width: nat)
    requires v < Pow256(width)
    ensures LeValue(LeBytes(v, width)) == v
  {
    if width > 0 {
      LeRoundTrip(v / 256, width - 1);
      assert LeBytes(v, width)[1..] == LeBytes(v / 256, width - 1);
    }
  }

  lemma {:induction false} U64RoundTrip(v: nat)
    requires v <= U64_MAX
    ensures LeValue(LeBytes(v, WORD)) == v
  {
    assert Pow256(4) == 0x1_0000_0000;
    assert Pow256(8) == U64_MAX + 1;
    LeRoundTrip(v, WORD);
  }

  /** `take_binary`: the next `len` bytes and the cursor behind them. */
  function Take(value: Bytes, cursor: nat, len: nat): (r: Result<(Bytes, nat), DecodeError>)
    ensures r.Ok? ==> r.value.1 == cursor + len <= |value|
  {
    if cursor + len > U64_MAX then Err(TooLarge)
    else if cursor + len > |value| then Err(Truncated)
    else Ok((value[cursor..cursor + len], cursor + len))
  }

  function DecodeU64(value: Bytes, cursor: nat): (r: Result<(nat, nat), DecodeError>) {
    match Take(value, cursor, 8)
    case Err(e) => Err(e)
    case Ok((bytes, next)) => Ok((LeValue(bytes), next))
  }

  function DecodeField(value: Bytes, cursor: nat): (r: Result<(Bytes, nat), DecodeError>) {
    match DecodeU64(value, cursor)
    case Err(e) => Err(e)
    case Ok((len, next)) => Take(value, next, len)
  }

  function EncodeValues(values: seq<nat>): (b: Bytes)
    ensures |b| == 8 * |values|
  {
    if values == [] then [] else LeBytes(values[0], WORD) + EncodeValues(values[1..])
  }

  function ValuesOf(bytes: Bytes): seq<nat> {
    if |bytes| < 8 then [] else [LeValue(bytes[..8])] + ValuesOf(bytes[8..])
  }

  function DecodeU64s(value: Bytes, cursor: nat): (r: Result<(seq<nat>, nat), DecodeError>) {
    match DecodeU64(value, cursor)
    case Err(e) => Err(e)
    case Ok((len, next)) =>
      if len * 8 > U64_MAX then Err(TooLarge)
      else match Take(value, next, len * 8)
           case Err(e) => Err(e)
           case Ok((bytes, end)) => Ok((ValuesOf(bytes), end))
  }

  lemma {:induction false} ValuesRoundTrip(values: seq<nat>)
    requires forall i :: 0 <= i < |values| ==> values[i] <= U64_MAX
    ensures ValuesOf(EncodeValues(values)) == values
  {
    if values != [] {
      ValuesRoundTrip(values[1..]);
      U64RoundTrip(values[0]);
      var bytes := EncodeValues(values);
      assert bytes[..8] == LeBytes(values[0], WORD) && bytes[8..] == EncodeValues(values[1..]);
    }
  }

  lemma {:induction false} TakeMiddle(pre: Bytes, mid: Bytes, post: Bytes)
    requires |pre + mid + post| <= U64_MAX
    ensures Take(pre + mid + post, |pre|, |mid|) == Ok((mid, |pre + mid|))
  {
  }

  /** `encode_binary_u64s`: the number of values, then the values. */
  function EncodeU64s(values: seq<nat>): Bytes { LeBytes(|values|, WORD) + EncodeValues(values) }

  /** Wherever a list of numbers stands, decoding there gives the list and leaves the cursor right behind it. */
  lemma {:induction false} ListRoundTrip(pre: Bytes, values: seq<nat>, post: Bytes)
    requires forall i :: 0 <= i < |values| ==> values[i] <= U64_MAX
    requires |pre + EncodeU64s(values) + post| <= U64_MAX
    ensures DecodeU64s(pre + EncodeU64s(values) + post, |pre|) == Ok((values, |pre + EncodeU64s(values)|))
  {
    var count, body := LeBytes(|values|, WORD), EncodeValues(values);
    var all := pre + EncodeU64s(values) + post;
    U64RoundTrip(|values|);
    ValuesRoundTrip(values);
    assert all == pre + count + (body + post);
    TakeMiddle(pre, count, body + post);
    assert all == (pre + count) + body + post;
    TakeMiddle(pre + count, body, post);
  }
}
