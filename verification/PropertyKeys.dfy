/**
 The key form of property values: a type tag, then text that sorts like the value
 and decodes back to it bit for bit. Characters stand for bytes, all of them ASCII.
 */
module PropertyKeys {
  import opened Base
  import opened BinaryCodec
  import opened TextCodec

  const TOP := 0x8000_0000_0000_0000       // 1 << 63
  const WORDS := 0x1_0000_0000_0000_0000   // 1 << 64

  /** Digits of a zero-padded decimal or hexadecimal word. */
  const DECIMAL_WIDTH: nat := 20
  const HEX_WIDTH: nat := 16

  /** A property value; a float is its bits, a string its bytes. */
  datatype Value =
    | Integer(n: nat)
    | Signed(i: int)
    | Bool(b: bool)
    | Float(bits: nat)
    | Str(bytes: Bytes)

  predicate InRange(v: Value) {
    match v
    case Integer(n) => n < WORDS
    case Signed(i) => -TOP <= i < TOP
    case Float(bits) => bits < WORDS
    case _ => true
  }

  // ----- hexadecimal

  function HexDigit(d: nat): char
    requires d < 16
  {
    if d < 10 then '0' + d as char else 'a' + (d - 10) as char
  }

  function HexValue(c: char): (r: Option<nat>)
    ensures r.Some? ==> r.value < 16
  {
    if '0' <= c <= '9' then Some(c as int - '0' as int)
    else if 'a' <= c <= 'f' then Some(c as int - 'a' as int + 10)
    else if 'A' <= c <= 'F' then Some(c as int - 'A' as int + 10)
    else None
  }

  function HexOf(bytes: Bytes): (s: string)
    ensures |s| == 2 * |bytes|
  {
    if bytes == [] then "" else [HexDigit(bytes[0] / 16), HexDigit(bytes[0] % 16)] + HexOf(bytes[1..])
  }

  function UnHex(text: string): Result<Bytes, ()> {
    if text == "" then Ok([])
    else if |text| == 1 then Err(())
    else
      match (HexValue(text[0]), HexValue(text[1]), UnHex(text[2..]))
      case (Some(high), Some(low), Ok(rest)) => Ok([16 * high + low] + rest)
      case _ => Err(())
  }

  lemma {:induction false} DigitReadsBack(d: nat)
    requires d < 16
    ensures HexValue(HexDigit(d)) == Some(d) && HexDigit(d) != '+' && HexDigit(d) > '/'
  {
  }

  /** Decoding hexadecimal text gives back the bytes it was made of. */
  lemma {:induction false} HexRoundTrip(bytes: Bytes)
    ensures UnHex(HexOf(bytes)) == Ok(bytes)
  {
    if bytes != [] {
      HexRoundTrip(bytes[1..]);
      DigitReadsBack(bytes[0] / 16);
      DigitReadsBack(bytes[0] % 16);
      assert HexOf(bytes)[2..] == HexOf(bytes[1..]);
      assert [bytes[0]] + bytes[1..] == bytes;
    }
  }

  lemma {:induction false} HexStep(bytes: Bytes, i: nat)
    requires i < |bytes|
    ensures HexOf(bytes[i..]) == [HexDigit(bytes[i] / 16), HexDigit(bytes[i] % 16)] + HexOf(bytes[i + 1..])
  {
  }

  method HexEncode(bytes: Bytes) returns (out: string)
    ensures out == HexOf(bytes)
  {
    out := "";
    ghost var all := HexOf(bytes);
    assert bytes[0..] == bytes;
    for i := 0 to |bytes|
      invariant all == out + HexOf(bytes[i..])
    {
      ghost var rest := HexOf(bytes[i + 1..]);
      HexStep(bytes, i);
      var high, low := HexDigit(bytes[i] / 16), HexDigit(bytes[i] % 16);
      assert out + ([high, low] + rest) == out + [high] + [low] + rest;
      out := out + [high];
      out := out + [low];
    }
  }

  function Appended(done: Bytes, rest: Result<Bytes, ()>): Result<Bytes, ()> {
    match rest
    case Ok(bytes) => Ok(done + bytes)
    case Err(_) => Err(())
  }

  lemma {:induction false} UnHexStep(text: string, i: nat, done: Bytes)
    requires i + 2 <= |text|
    ensures
      match (HexValue(text[i]), HexValue(text[i + 1]))
      case (Some(high), Some(low)) =>
        Appended(done, UnHex(text[i..])) == Appended(done + [16 * high + low], UnHex(text[i + 2..]))
      case _ => UnHex(text[i..]).Err?
  {
    var rest := text[i..];
    assert rest[2..] == text[i + 2..] && rest[0] == text[i] && rest[1] == text[i + 1];
    if HexValue(text[i]).Some? && HexValue(text[i + 1]).Some? && UnHex(text[i + 2..]).Ok? {
      var byte: Byte := 16 * HexValue(text[i]).value + HexValue(text[i + 1]).value;
      assert done + ([byte] + UnHex(text[i + 2..]).value) == done + [byte] + UnHex(text[i + 2..]).value;
    }
  }

  method HexDecode(text: string) returns (r: Result<Bytes, ()>)
    ensures r == UnHex(text)
  {
    if |text| % 2 != 0 {
      OddIsBad(text);
      return Err(());
    }
    var bytes: Bytes := [];
    var i := 0;
    ghost var all := UnHex(text);
    assert text[0..] == text && (all.Ok? ==> [] + all.value == all.value);
    while i < |text|
      invariant 0 <= i <= |text| && i % 2 == 0
      invariant all == Appended(bytes, UnHex(text[i..]))
    {
      UnHexStep(text, i, bytes);
      var high, low := HexValue(text[i]), HexValue(text[i + 1]);
      if high.None? || low.None? {
        return Err(());
      }
      bytes := bytes + [16 * high.value + low.value];
      i := i + 2;
    }
    assert text[i..] == "" && bytes + [] == bytes;
    r := Ok(bytes);
  }

  lemma {:induction false} OddIsBad(text: string)
    requires |text| % 2 == 1
    ensures UnHex(text).Err?
  {
    if |text| > 1 {
      OddIsBad(text[2..]);
    }
  }

  function Pow16(w: nat): nat {
    if w == 0 then 1 else 16 * Pow16(w - 1)
  }

  /** Exactly `width` hexadecimal digits, as `{:016x}` prints a number that fits. */
  function HexPadded(n: nat, width: nat): (s: string)
    ensures |s| == width && forall i :: 0 <= i < |s| ==> HexValue(s[i]).Some? && s[i] != '+' && s[i] > '/'
  {
    if width == 0 then ""
    else
      DigitReadsBack(n % 16);
      HexPadded(n / 16, width - 1) + [HexDigit(n % 16)]
  }

  function HexNumber(s: string): nat
    requires forall i :: 0 <= i < |s| ==> HexValue(s[i]).Some?
  {
    if s == "" then 0 else 16 * HexNumber(s[..|s| - 1]) + HexValue(s[|s| - 1]).value
  }

  function ParseHexDigits(digits: string): (n: Option<nat>)
    ensures n.Some? ==> n.value < WORDS
  {
    if digits == "" || !(forall i :: 0 <= i < |digits| ==> HexValue(digits[i]).Some?) then None
    else if HexNumber(digits) >= WORDS then None
    else Some(HexNumber(digits))
  }

  /** `u64::from_str_radix(_, 16)`: an optional plus sign, then digits of either case that fit 64 bits. */
  function ParseHex(s: string): (n: Option<nat>)
    ensures n.Some? ==> n.value < WORDS
  {
    ParseHexDigits(if s != "" && s[0] == '+' then s[1..] else s)
  }

  lemma {:induction false} HexPaddedNumber(n: nat, width: nat)
    requires n < Pow16(width)
    ensures HexNumber(HexPadded(n, width)) == n
  {
    if width > 0 {
      HexPaddedNumber(n / 16, width - 1);
      DigitReadsBack(n % 16);
      assert HexPadded(n, width)[..width - 1] == HexPadded(n / 16, width - 1);
    }
  }

  lemma {:induction false} WordFitsSixteenDigits()
    ensures Pow16(HEX_WIDTH) == WORDS
  {
    assert Pow16(4) == 0x1_0000;
    assert Pow16(8) == 0x1_0000_0000;
    assert Pow16(12) == 0x1_0000_0000_0000;
  }

  lemma {:induction false} ParseHexPadded(n: nat)
    requires n < WORDS
    ensures ParseHex(HexPadded(n, HEX_WIDTH)) == Some(n)
  {
    WordFitsSixteenDigits();
    HexPaddedNumber(n, HEX_WIDTH);
  }

  // ----- values

  /** `x ^ (1 << 63)` on 64-bit words. */
  function FlipTop(x: nat): nat
    requires x < WORDS
  {
    if x < TOP then x + TOP else x - TOP
  }

  /** `!x` on 64-bit words. */
  function Not(x: nat): nat
    requires x < WORDS
  {
    WORDS - 1 - x
  }

  /** `i as u64`. */
  function AsWord(i: int): nat
    requires -TOP <= i < TOP
  {
    if i < 0 then i + WORDS else i
  }

  /** `x as i64`. */
  function AsSigned(x: nat): int
    requires x < WORDS
  {
    if x < TOP then x else x - WORDS
  }

  /** Float bits turned so that they sort as unsigned words. */
  function Sortable(bits: nat): nat
    requires bits < WORDS
  {
    if bits < TOP then FlipTop(bits) else Not(bits)
  }

  function Unsortable(x: nat): nat
    requires x < WORDS
  {
    if x < TOP then Not(x) else FlipTop(x)
  }

  function Tag(v: Value): char {
    match v
    case Bool(_) => 'b'
    case Integer(_) => 'i'
    case Signed(_) => 'j'
    case Float(_) => 'n'
    case Str(_) => 's'
  }

  function Payload(v: Value): string
    requires InRange(v)
  {
    match v
    case Integer(n) => Padded(n, DECIMAL_WIDTH)
    case Signed(i) => HexPadded(FlipTop(AsWord(i)), HEX_WIDTH)
    case Bool(b) => if b then "1" else "0"
    case Float(bits) => HexPadded(Sortable(bits), HEX_WIDTH)
    case Str(bytes) => HexOf(bytes)
  }

  function Encode(v: Value): string
    requires InRange(v)
  {
    [Tag(v)] + Payload(v)
  }

  function DecodePayload(tag: char, payload: string): Result<Value, ()> {
    match tag
    case 'b' => if payload == "0" then Ok(Bool(false)) else if payload == "1" then Ok(Bool(true)) else Err(())
    case 'i' => var word := ParseU64(payload); if word.Some? then Ok(Integer(word.value)) else Err(())
    case 'j' => var word := ParseHex(payload); if word.Some? then Ok(Signed(AsSigned(FlipTop(word.value)))) else Err(())
    case 'n' => var word := ParseHex(payload); if word.Some? then Ok(Float(Unsortable(word.value))) else Err(())
    case 's' => var bytes := UnHex(payload); if bytes.Ok? then Ok(Str(bytes.value)) else Err(())
    case _ => Err(())
  }

  function Decode(encoded: string): Result<Value, ()> {
    if encoded == "" then Err(()) else DecodePayload(encoded[0], encoded[1..])
  }

  lemma {:induction false} SignedRoundTrip(i: int)
    requires -TOP <= i < TOP
    ensures DecodePayload('j', HexPadded(FlipTop(AsWord(i)), HEX_WIDTH)) == Ok(Signed(i))
  {
    ParseHexPadded(FlipTop(AsWord(i)));
  }

  lemma {:induction false} FloatRoundTrip(bits: nat)
    requires bits < WORDS
    ensures DecodePayload('n', HexPadded(Sortable(bits), HEX_WIDTH)) == Ok(Float(bits))
  {
    ParseHexPadded(Sortable(bits));
  }

  lemma {:induction false} IntegerRoundTrip(n: nat)
    requires n < WORDS
    ensures DecodePayload('i', Padded(n, DECIMAL_WIDTH)) == Ok(Integer(n))
  {
    ParsePadded(n);
  }

  lemma {:induction false} PayloadRoundTrip(v: Value)
    requires InRange(v)
    ensures DecodePayload(Tag(v), Payload(v)) == Ok(v)
  {
    match v
    case Integer(n) => IntegerRoundTrip(n);
    case Signed(i) => SignedRoundTrip(i);
    case Bool(b) =>
    case Float(bits) => FloatRoundTrip(bits);
    case Str(bytes) => HexRoundTrip(bytes);
  }

  /** Every value comes back from its key form bit for bit. */
  lemma {:induction false} DecodeInverts(v: Value)
    requires InRange(v)
    ensures Decode(Encode(v)) == Ok(v)
  {
    PayloadRoundTrip(v);
    assert ([Tag(v)] + Payload(v))[1..] == Payload(v);
  }

  // ----- order

  /** Byte order of strings. */
  predicate Before(a: string, b: string)
    decreases |a|
  {
    b != "" && (a == "" || a[0] < b[0] || (a[0] == b[0] && Before(a[1..], b[1..])))
  }

  lemma {:induction false} BeforeCons(c: char, a: string, d: char, b: string)
    ensures Before([c] + a, [d] + b) <==> c < d || (c == d && Before(a, b))
  {
  }

  lemma {:induction false} BeforePrefix(p: string, a: string, b: string)
    ensures Before(p + a, p + b) <==> Before(a, b)
  {
    if p == "" {
      assert p + a == a && p + b == b;
    } else {
      BeforePrefix(p[1..], a, b);
      assert p + a == [p[0]] + (p[1..] + a) && p + b == [p[0]] + (p[1..] + b);
      BeforeCons(p[0], p[1..] + a, p[0], p[1..] + b);
    }
  }

  /** Zero-padded decimals sort by value, then by what follows. */
  lemma {:induction false} PaddedOrder(n: nat, m: nat, width: nat, a: string, b: string)
    requires n < Pow10(width) && m < Pow10(width)
    ensures Before(Padded(n, width) + a, Padded(m, width) + b) <==> n < m || (n == m && Before(a, b))
  {
    if width == 0 {
      assert Padded(n, 0) + a == a && Padded(m, 0) + b == b;
    } else {
      var c, d := Digit(n % 10), Digit(m % 10);
      PaddedOrder(n / 10, m / 10, width - 1, [c] + a, [d] + b);
      BeforeCons(c, a, d, b);
      assert Padded(n, width) + a == Padded(n / 10, width - 1) + ([c] + a);
      assert Padded(m, width) + b == Padded(m / 10, width - 1) + ([d] + b);
    }
  }

  lemma {:induction false} HexPaddedOrder(n: nat, m: nat, width: nat, a: string, b: string)
    requires n < Pow16(width) && m < Pow16(width)
    ensures Before(HexPadded(n, width) + a, HexPadded(m, width) + b) <==> n < m || (n == m && Before(a, b))
  {
    if width == 0 {
      assert HexPadded(n, 0) + a == a && HexPadded(m, 0) + b == b;
    } else {
      var c, d := HexDigit(n % 16), HexDigit(m % 16);
      HexPaddedOrder(n / 16, m / 16, width - 1, [c] + a, [d] + b);
      BeforeCons(c, a, d, b);
      assert HexPadded(n, width) + a == HexPadded(n / 16, width - 1) + ([c] + a);
      assert HexPadded(m, width) + b == HexPadded(m / 16, width - 1) + ([d] + b);
    }
  }

  /** Byte order of strings as byte sequences, a proper prefix first. */
  predicate BytesBefore(a: Bytes, b: Bytes)
    decreases |a|
  {
    b != [] && (a == [] || a[0] < b[0] || (a[0] == b[0] && BytesBefore(a[1..], b[1..])))
  }

  lemma {:induction false} PairOrder(x: Byte, y: Byte, a: string, b: string)
    ensures Before([HexDigit(x / 16)] + ([HexDigit(x % 16)] + a), [HexDigit(y / 16)] + ([HexDigit(y % 16)] + b))
       <==> x < y || (x == y && Before(a, b))
  {
  }

  lemma {:induction false} HexHead(x: Bytes, a: string)
    requires x != []
    ensures HexOf(x) + "/" + a == [HexDigit(x[0] / 16)] + ([HexDigit(x[0] % 16)] + (HexOf(x[1..]) + "/" + a))
    ensures (HexOf(x) + "/" + a)[0] > '/'
  {
  }

  /** Hexadecimal text before a slash sorts like its bytes, since a slash sorts below every digit. */
  lemma {:induction false} HexOrder(x: Bytes, y: Bytes, a: string, b: string)
    ensures Before(HexOf(x) + "/" + a, HexOf(y) + "/" + b) <==> BytesBefore(x, y) || (x == y && Before(a, b))
    decreases |x|
  {
    if x == [] && y == [] {
      assert HexOf(x) + "/" + a == ['/'] + a && HexOf(y) + "/" + b == ['/'] + b;
      BeforeCons('/', a, '/', b);
    } else if x == [] {
      HexHead(y, b);
    } else if y == [] {
      HexHead(x, a);
    } else {
      HexOrder(x[1..], y[1..], a, b);
      HexHead(x, a);
      HexHead(y, b);
      PairOrder(x[0], y[0], HexOf(x[1..]) + "/" + a, HexOf(y[1..]) + "/" + b);
      assert x == y <==> x[0] == y[0] && x[1..] == y[1..];
    }
  }

  /** The totalOrder predicate on binary64 bits: negative before positive, and by magnitude away from or towards zero. */
  predicate TotalBefore(x: nat, y: nat) {
    if x >= TOP then y < TOP || x > y
    else y < TOP && x < y
  }

  /** The order of values of one type. */
  predicate ValueBefore(v: Value, w: Value) {
    match (v, w)
    case (Bool(x), Bool(y)) => !x && y
    case (Integer(x), Integer(y)) => x < y
    case (Signed(x), Signed(y)) => x < y
    case (Float(x), Float(y)) => TotalBefore(x, y)
    case (Str(x), Str(y)) => BytesBefore(x, y)
    case _ => false
  }

  /** The tail of a vertex property index key. */
  function EntrySuffix(v: Value, vertex: nat): string
    requires InRange(v)
  {
    Encode(v) + "/" + Padded(vertex, DECIMAL_WIDTH)
  }

  lemma {:induction false} IdOrder(i: nat, j: nat)
    requires i <= U64_MAX && j <= U64_MAX
    ensures Before(Padded(i, DECIMAL_WIDTH), Padded(j, DECIMAL_WIDTH)) <==> i < j
  {
    U64FitsTwentyDigits(i);
    U64FitsTwentyDigits(j);
    PaddedOrder(i, j, DECIMAL_WIDTH, "", "");
    assert Padded(i, DECIMAL_WIDTH) + "" == Padded(i, DECIMAL_WIDTH) && Padded(j, DECIMAL_WIDTH) + "" == Padded(j, DECIMAL_WIDTH);
  }

  lemma {:induction false} Slash(p: string, a: string)
    ensures p + "/" + a == p + ("/" + a)
  {
  }

  lemma {:induction false} HexWordOrder(x: nat, y: nat, a: string, b: string)
    requires x < WORDS && y < WORDS
    ensures Before(HexPadded(x, HEX_WIDTH) + "/" + a, HexPadded(y, HEX_WIDTH) + "/" + b) <==> x < y || (x == y && Before(a, b))
  {
    WordFitsSixteenDigits();
    HexPaddedOrder(x, y, HEX_WIDTH, "/" + a, "/" + b);
    BeforeCons('/', a, '/', b);
    Slash(HexPadded(x, HEX_WIDTH), a);
    Slash(HexPadded(y, HEX_WIDTH), b);
  }

  lemma {:induction false} DecimalWordOrder(x: nat, y: nat, a: string, b: string)
    requires x < WORDS && y < WORDS
    ensures Before(Padded(x, DECIMAL_WIDTH) + "/" + a, Padded(y, DECIMAL_WIDTH) + "/" + b) <==> x < y || (x == y && Before(a, b))
  {
    U64FitsTwentyDigits(x);
    U64FitsTwentyDigits(y);
    PaddedOrder(x, y, DECIMAL_WIDTH, "/" + a, "/" + b);
    BeforeCons('/', a, '/', b);
    Slash(Padded(x, DECIMAL_WIDTH), a);
    Slash(Padded(y, DECIMAL_WIDTH), b);
  }

  lemma {:induction false} BoolOrder(x: bool, y: bool, a: string, b: string)
    ensures
      var p, q := if x then "1" else "0", if y then "1" else "0";
      Before(p + "/" + a, q + "/" + b) <==> (!x && y) || (x == y && Before(a, b))
  {
  }

  lemma {:induction false} PayloadOrder(v: Value, w: Value, a: string, b: string)
    requires InRange(v) && InRange(w) && Tag(v) == Tag(w)
    ensures Before(Payload(v) + "/" + a, Payload(w) + "/" + b) <==> ValueBefore(v, w) || (v == w && Before(a, b))
  {
    match v
    case Integer(n) => DecimalWordOrder(n, w.n, a, b);
    case Signed(i) => HexWordOrder(FlipTop(AsWord(i)), FlipTop(AsWord(w.i)), a, b);
    case Bool(x) => BoolOrder(x, w.b, a, b);
    case Float(bits) => HexWordOrder(Sortable(bits), Sortable(w.bits), a, b);
    case Str(bytes) => HexOrder(bytes, w.bytes, a, b);
  }

  /**
   Vertex property index keys sort by type tag, then by value in the order of its type,
   then by vertex id, whatever the keys have in common before.
   */
  lemma {:induction false} KeysSortLikeValues(prefix: string, v: Value, i: nat, w: Value, j: nat)
    requires InRange(v) && InRange(w) && i <= U64_MAX && j <= U64_MAX
    ensures Before(prefix + EntrySuffix(v, i), prefix + EntrySuffix(w, j))
       <==> Tag(v) < Tag(w) || (Tag(v) == Tag(w) && (ValueBefore(v, w) || (v == w && i < j)))
  {
    BeforePrefix(prefix, EntrySuffix(v, i), EntrySuffix(w, j));
    var a, b := Padded(i, DECIMAL_WIDTH), Padded(j, DECIMAL_WIDTH);
    assert EntrySuffix(v, i) == [Tag(v)] + (Payload(v) + "/" + a);
    assert EntrySuffix(w, j) == [Tag(w)] + (Payload(w) + "/" + b);
    BeforeCons(Tag(v), Payload(v) + "/" + a, Tag(w), Payload(w) + "/" + b);
    if Tag(v) == Tag(w) {
      PayloadOrder(v, w, a, b);
      IdOrder(i, j);
    }
  }

  /** The order of values of one type is transitive. */
  lemma {:induction false} ValuesOrderTransitive(u: Value, v: Value, w: Value)
    requires ValueBefore(u, v) && ValueBefore(v, w)
    ensures ValueBefore(u, w)
  {
    if u.Str? {
      BytesTransitive(u.bytes, v.bytes, w.bytes);
    }
  }

  lemma {:induction false} BytesTransitive(a: Bytes, b: Bytes, c: Bytes)
    requires BytesBefore(a, b) && BytesBefore(b, c)
    ensures BytesBefore(a, c)
    decreases |a|
  {
    if a != [] && a[0] == b[0] && b[0] == c[0] {
      BytesTransitive(a[1..], b[1..], c[1..]);
    }
  }

  /** The order of values of one type is total: exactly one of before, same and after holds. */
  lemma {:induction false} ValuesTotallyOrdered(v: Value, w: Value)
    requires InRange(v) && InRange(w) && Tag(v) == Tag(w)
    ensures ValueBefore(v, w) || v == w || ValueBefore(w, v)
    ensures !(ValueBefore(v, w) && ValueBefore(w, v)) && !ValueBefore(v, v)
  {
    if v.Str? {
      BytesTotallyOrdered(v.bytes, w.bytes);
      BytesTotallyOrdered(v.bytes, v.bytes);
    }
  }

  lemma {:induction false} BytesTotallyOrdered(a: Bytes, b: Bytes)
    ensures BytesBefore(a, b) || a == b || BytesBefore(b, a)
    ensures !(BytesBefore(a, b) && BytesBefore(b, a)) && (a == b ==> !BytesBefore(a, b))
    decreases |a|
  {
    if a != [] && b != [] {
      BytesTotallyOrdered(a[1..], b[1..]);
      assert a == b <==> a[0] == b[0] && a[1..] == b[1..];
    }
  }
}
