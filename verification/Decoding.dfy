/**
 Which texts the readers of numbers and property values take, and for what: the stored form,
 give or take a plus sign, the number of leading zeros and the case of hexadecimal digits.
 */
module Decoding {
  import opened Base
  import opened BinaryCodec
  import opened TextCodec
  import opened PropertyKeys

  function Unsigned(s: string): string { if s != "" && s[0] == '+' then s[1..] else s }

  // ----- decimal

  lemma {:induction false} DigitsPad(t: string)
    requires forall i :: 0 <= i < |t| ==> IsDigit(t[i])
    ensures DigitsValue(t) < Pow10(|t|) && t == Padded(DigitsValue(t), |t|)
  {
    if t != "" {
      var front := t[..|t| - 1];
      DigitsPad(front);
      assert DigitsValue(t) / 10 == DigitsValue(front);
      assert t == front + [t[|t| - 1]];
    }
  }

  /** The text is the number in so many digits, perhaps behind a plus sign. */
  predicate IsNumber(s: string, n: nat) {
    && n <= 0xffff_ffff_ffff_ffff
    && var t := Unsigned(s);
    t != "" && n < Pow10(|t|) && t == Padded(n, |t|)
  }

  /** A text is read as a 64-bit number exactly if it is that number. */
  lemma {:induction false} ParsesExactly(s: string, n: nat)
    ensures ParseU64(s) == Some(n) <==> IsNumber(s, n)
  {
    var t := Unsigned(s);
    if ParseU64(s) == Some(n) {
      DigitsPad(t);
    }
    if IsNumber(s, n) {
      PaddedValue(n, |t|);
    }
  }

  // ----- hexadecimal

  function LowerChar(c: char): char { if 'A' <= c <= 'Z' then c + 32 as char else c }

  function Lower(s: string): string { seq(|s|, i requires 0 <= i < |s| => LowerChar(s[i])) }

  lemma {:induction false} CaseIsIgnored(c: char)
    ensures HexValue(LowerChar(c)) == HexValue(c)
    ensures HexValue(c).Some? ==> LowerChar(c) == HexDigit(HexValue(c).value)
  {
  }

  lemma {:induction false} HexPads(t: string)
    requires forall i :: 0 <= i < |t| ==> HexValue(t[i]).Some?
    ensures HexNumber(t) < Pow16(|t|) && Lower(t) == HexPadded(HexNumber(t), |t|)
  {
    if t != "" {
      var front, c := t[..|t| - 1], t[|t| - 1];
      HexPads(front);
      CaseIsIgnored(c);
      assert HexNumber(t) / 16 == HexNumber(front) && HexNumber(t) % 16 == HexValue(c).value;
      assert Lower(t) == Lower(front) + [LowerChar(c)];
    }
  }

  lemma {:induction false} LowerIsHex(t: string, n: nat)
    requires n < Pow16(|t|) && Lower(t) == HexPadded(n, |t|)
    ensures (forall i :: 0 <= i < |t| ==> HexValue(t[i]).Some?) && HexNumber(t) == n
    ensures t != "" ==> t[0] != '+'
  {
    forall i | 0 <= i < |t| ensures HexValue(t[i]).Some? {
      CaseIsIgnored(t[i]);
      assert HexValue(Lower(t)[i]).Some?;
    }
    HexPads(t);
    HexPaddedNumber(n, |t|);
    HexPaddedNumber(HexNumber(t), |t|);
    if t != "" {
      CaseIsIgnored(t[0]);
    }
  }

  /** The text is the word in so many hexadecimal digits of either case, perhaps behind a plus sign. */
  predicate IsWord(s: string, n: nat) {
    && n < 0x1_0000_0000_0000_0000
    && var t := Unsigned(s);
    t != "" && n < Pow16(|t|) && Lower(t) == HexPadded(n, |t|)
  }

  lemma {:induction false} ParsesHexExactly(s: string, n: nat)
    ensures ParseHex(s) == Some(n) <==> IsWord(s, n)
  {
    var t := Unsigned(s);
    if ParseHex(s) == Some(n) {
      HexPads(t);
    }
    if IsWord(s, n) {
      LowerIsHex(t, n);
    }
  }

  lemma {:induction false} DigitIs(c: char, d: nat)
    requires d < 16
    ensures HexValue(c) == Some(d) <==> LowerChar(c) == HexDigit(d)
  {
    CaseIsIgnored(c);
    DigitReadsBack(d);
  }

  lemma {:induction false} UnHexFront(t: string, bytes: Bytes)
    requires |t| >= 2 && bytes != []
    ensures UnHex(t) == Ok(bytes) <==>
      && HexValue(t[0]) == Some(bytes[0] / 16) && HexValue(t[1]) == Some(bytes[0] % 16)
      && UnHex(t[2..]) == Ok(bytes[1..])
  {
    hide HexValue;
    assert bytes == [bytes[0]] + bytes[1..];
  }

  lemma {:induction false} LowerFront(t: string, bytes: Bytes)
    requires |t| >= 2 && bytes != []
    ensures Lower(t) == HexOf(bytes) <==>
      && LowerChar(t[0]) == HexDigit(bytes[0] / 16) && LowerChar(t[1]) == HexDigit(bytes[0] % 16)
      && Lower(t[2..]) == HexOf(bytes[1..])
  {
    hide LowerChar;
    hide HexDigit;
    assert Lower(t) == [LowerChar(t[0]), LowerChar(t[1])] + Lower(t[2..]);
    assert Lower(t)[2..] == Lower(t[2..]) && HexOf(bytes)[2..] == HexOf(bytes[1..]);
  }

  /** Bytes are read from exactly the texts that are theirs in one case or the other. */
  lemma {:induction false} UnHexExactly(t: string, bytes: Bytes)
    ensures UnHex(t) == Ok(bytes) <==> Lower(t) == HexOf(bytes)
    decreases |t|
  {
    if |t| >= 2 && bytes != [] {
      hide UnHex;
      hide Lower;
      hide HexOf;
      UnHexFront(t, bytes);
      LowerFront(t, bytes);
      DigitIs(t[0], bytes[0] / 16);
      DigitIs(t[1], bytes[0] % 16);
      UnHexExactly(t[2..], bytes[1..]);
    }
  }

  // ----- values

  /** The text is a stored form of the value, up to a plus sign, leading zeros and the case of hexadecimal digits. */
  predicate Reads(text: string, v: Value)
    requires InRange(v)
  {
    && text != ""
    && var t := text[1..];
    match v
    case Bool(b) => text == if b then "b1" else "b0"
    case Integer(n) => text[0] == 'i' && IsNumber(t, n)
    case Signed(i) => text[0] == 'j' && IsWord(t, i + 0x8000_0000_0000_0000)
    case Float(bits) =>
      && text[0] == 'n'
      && IsWord(t, if bits < 0x8000_0000_0000_0000 then bits + 0x8000_0000_0000_0000 else 0xffff_ffff_ffff_ffff - bits)
    case Str(bytes) => text[0] == 's' && Lower(t) == HexOf(bytes)
  }

  lemma {:induction false} WordsTurn(x: nat)
    requires x < 0x1_0000_0000_0000_0000
    ensures -0x8000_0000_0000_0000 <= AsSigned(FlipTop(x)) < 0x8000_0000_0000_0000
    ensures AsSigned(FlipTop(x)) + 0x8000_0000_0000_0000 == x
    ensures
      var bits := Unsortable(x);
      && bits < 0x1_0000_0000_0000_0000
      && x == if bits < 0x8000_0000_0000_0000 then bits + 0x8000_0000_0000_0000 else 0xffff_ffff_ffff_ffff - bits
  {
  }

  /** What is decoded is a value in range. */
  lemma {:induction false} DecodedInRange(text: string)
    ensures Decode(text).Ok? ==> InRange(Decode(text).value)
  {
  }

  lemma {:induction false} DecodesText(text: string, v: Value)
    requires InRange(v) && text != "" && !v.Signed? && !v.Float?
    ensures Decode(text) == Ok(v) <==> Reads(text, v)
  {
    hide ParseU64;
    hide Padded;
    hide UnHex;
    hide HexOf;
    hide Lower;
    hide ParseHex;
    var t := text[1..];
    match v
    case Bool(b) => assert text == [text[0]] + t;
    case Integer(n) => ParsesExactly(t, n);
    case Str(bytes) => UnHexExactly(t, bytes);
  }

  lemma {:induction false} DecodesWord(text: string, v: Value)
    requires InRange(v) && text != "" && (v.Signed? || v.Float?)
    ensures Decode(text) == Ok(v) <==> Reads(text, v)
  {
    hide ParseHex;
    hide HexPadded;
    hide UnHex;
    hide ParseU64;
    hide Lower;
    var t := text[1..];
    var word := ParseHex(t);
    if word.Some? {
      WordsTurn(word.value);
    }
    match v
    case Signed(i) => ParsesHexExactly(t, i + 0x8000_0000_0000_0000);
    case Float(bits) =>
      ParsesHexExactly(t, if bits < 0x8000_0000_0000_0000 then bits + 0x8000_0000_0000_0000 else 0xffff_ffff_ffff_ffff - bits);
  }

  /** Of all texts, those decoded to a value are just its stored forms. */
  lemma {:induction false} DecodesExactly(text: string, v: Value)
    requires InRange(v)
    ensures Decode(text) == Ok(v) <==> Reads(text, v)
  {
    hide Reads;
    if text == "" {
      NothingReads(v);
    } else if v.Signed? || v.Float? {
      DecodesWord(text, v);
    } else {
      DecodesText(text, v);
    }
  }

  lemma {:induction false} NothingReads(v: Value)
    requires InRange(v)
    ensures !Reads("", v)
  {
  }
}
