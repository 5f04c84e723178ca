/** Base64 as the program uses it: padded standard, and unpadded URL-safe (section 5 of RFC 4648). */
module Base64 {
  import opened Wrappers

  type Byte = b: int | 0 <= b < 256
  /** A string, byte for byte. */
  type Text = seq<Byte>

  datatype Encoding = StdEncoding | RawUrlEncoding

  const PAD: Byte := 61   // '='
  const DOT: Byte := 46   // '.'
  const LF: Byte := 10
  const CR: Byte := 13

  const UPPER := "ABCDEFGHIJKLMNOPQRSTUVWXYZ"
  const LOWER := "abcdefghijklmnopqrstuvwxyz"
  const DECIMALS := "0123456789"

  /** Tables 1 and 2 of RFC 4648. */
  function Alphabet(e: Encoding): (table: string)
    ensures |table| == 64
  {
    UPPER + LOWER + DECIMALS + (if e.StdEncoding? then "+/" else "-_")
  }

  /** The standard's table, in numbers. */
  lemma TableInNumbers(e: Encoding, v: nat)
    requires v < 64
    ensures Alphabet(e)[v] as int ==
              if v < 26 then 65 + v
              else if v < 52 then 71 + v
              else if v < 62 then v - 4
              else if v == 62 then (if e.StdEncoding? then 43 else 45)
              else (if e.StdEncoding? then 47 else 95)
  {
    if v < 26 {
      assert Alphabet(e)[v] == UPPER[v];
    } else if v < 52 {
      assert Alphabet(e)[v] == LOWER[v - 26];
    } else if v < 62 {
      assert Alphabet(e)[v] == DECIMALS[v - 52];
    }
  }

  function Digit(e: Encoding, v: int): (c: Byte)
    requires 0 <= v < 64
    ensures Value(e, c) == Some(v)
    ensures c != PAD && c != DOT && c != LF && c != CR && c < 0x80
  {
    TableInNumbers(e, v);
    Alphabet(e)[v] as int
  }

  function Value(e: Encoding, c: Byte): (v: Option<int>)
    ensures v.Some? ==> 0 <= v.value < 64
  {
    if 65 <= c < 91 then Some(c - 65)
    else if 97 <= c < 123 then Some(c - 71)
    else if 48 <= c < 58 then Some(c + 4)
    else if c == (if e.StdEncoding? then 43 else 45) then Some(62)
    else if c == (if e.StdEncoding? then 47 else 95) then Some(63)
    else None
  }

  /** The four groups of six bits in three bytes; a missing byte counts as zero. */
  function Sextet0(b0: Byte): (v: int)
    ensures 0 <= v < 64
  {
    b0 / 4
  }

  function Sextet1(b0: Byte, b1: Byte): (v: int)
    ensures 0 <= v < 64
  {
    b0 % 4 * 16 + b1 / 16
  }

  function Sextet2(b1: Byte, b2: Byte): (v: int)
    ensures 0 <= v < 64
  {
    b1 % 16 * 4 + b2 / 64
  }

  function Sextet3(b2: Byte): (v: int)
    ensures 0 <= v < 64
  {
    b2 % 64
  }

  function Encode(e: Encoding, bs: Text): Text {
    if |bs| == 0 then []
    else if |bs| == 1 then
      var digits := [Digit(e, Sextet0(bs[0])), Digit(e, Sextet1(bs[0], 0))];
      if e.StdEncoding? then digits + [PAD, PAD] else digits
    else if |bs| == 2 then
      var digits := [Digit(e, Sextet0(bs[0])), Digit(e, Sextet1(bs[0], bs[1])), Digit(e, Sextet2(bs[1], 0))];
      if e.StdEncoding? then digits + [PAD] else digits
    else
      [Digit(e, Sextet0(bs[0])), Digit(e, Sextet1(bs[0], bs[1])),
       Digit(e, Sextet2(bs[1], bs[2])), Digit(e, Sextet3(bs[2]))] + Encode(e, bs[3..])
  }

  /** The decoder skips line breaks wherever they stand. */
  function SkipLineBreaks(s: Text): Text {
    if s == [] then []
    else (if s[0] == LF || s[0] == CR then [] else [s[0]]) + SkipLineBreaks(s[1..])
  }

  function Byte0(v0: int, v1: int): Byte
    requires 0 <= v0 < 64 && 0 <= v1 < 64
  {
    v0 * 4 + v1 / 16
  }

  function Byte1(v1: int, v2: int): Byte
    requires 0 <= v1 < 64 && 0 <= v2 < 64
  {
    v1 % 16 * 16 + v2 / 4
  }

  function Byte2(v2: int, v3: int): Byte
    requires 0 <= v2 < 64 && 0 <= v3 < 64
  {
    v2 % 4 * 64 + v3
  }

  /** Four digits at a time. Bits left over at the end are dropped unchecked. */
  function DecodeQuanta(e: Encoding, s: Text): Option<Text> {
    if |s| == 0 then Some([])
    else if |s| < 2 || Value(e, s[0]) == None || Value(e, s[1]) == None then None
    else
      var v0, v1 := Value(e, s[0]).value, Value(e, s[1]).value;
      if |s| == 2 then
        if e.StdEncoding? then None else Some([Byte0(v0, v1)])
      else if Value(e, s[2]) == None then
        if e.StdEncoding? && |s| == 4 && s[2] == PAD && s[3] == PAD then Some([Byte0(v0, v1)]) else None
      else
        var v2 := Value(e, s[2]).value;
        if |s| == 3 then
          if e.StdEncoding? then None else Some([Byte0(v0, v1), Byte1(v1, v2)])
        else if Value(e, s[3]) == None then
          if e.StdEncoding? && |s| == 4 && s[3] == PAD then Some([Byte0(v0, v1), Byte1(v1, v2)]) else None
        else
          match DecodeQuanta(e, s[4..])
          case None => None
          case Some(rest) => Some([Byte0(v0, v1), Byte1(v1, v2), Byte2(v2, Value(e, s[3]).value)] + rest)
  }

  function Decode(e: Encoding, s: Text): Option<Text> {
    DecodeQuanta(e, SkipLineBreaks(s))
  }

  /** No encoding contains a dot or a line break, so dots can separate encodings. */
  lemma {:induction false} EncodedAlphabet(e: Encoding, bs: Text)
    ensures DOT !in Encode(e, bs) && LF !in Encode(e, bs) && CR !in Encode(e, bs)
  {
    hide Digit, Sextet0, Sextet1, Sextet2, Sextet3;
    if |bs| >= 3 {
      EncodedAlphabet(e, bs[3..]);
    }
  }

  lemma {:induction false} NothingToSkip(s: Text)
    requires LF !in s && CR !in s
    ensures SkipLineBreaks(s) == s
  {
    if s != [] {
      assert s == [s[0]] + s[1..];
      NothingToSkip(s[1..]);
    }
  }

  /** A byte is recovered from the two groups it was spread over. */
  lemma BytesRecovered(b0: Byte, b1: Byte, b2: Byte)
    ensures Byte0(Sextet0(b0), Sextet1(b0, b1)) == b0
    ensures Byte1(Sextet1(b0, b1), Sextet2(b1, b2)) == b1
    ensures Byte2(Sextet2(b1, b2), Sextet3(b2)) == b2
  {
    Spread(b0 % 4, b1 / 16, 16);
    Spread(b1 % 16, b2 / 64, 4);
  }

  lemma Spread(high: int, low: int, m: int)
    requires 0 <= low < m && (m == 4 || m == 16)
    ensures (high * m + low) / m == high && (high * m + low) % m == low
  {
  }

  lemma PadIsNoDigit(e: Encoding)
    ensures Value(e, PAD) == None
  {
  }

  /** A last group of one byte, padded or not. */
  lemma OneByteTail(e: Encoding, bs: Text)
    requires |bs| == 1
    ensures DecodeQuanta(e, Encode(e, bs)) == Some(bs)
  {
    hide Digit, Value, Byte0, Byte1, Byte2, Sextet0, Sextet1, Sextet2, Sextet3;
    PadIsNoDigit(e);
    BytesRecovered(bs[0], 0, 0);
    assert [bs[0]] == bs;
  }

  /** A last group of two bytes, padded or not. */
  lemma TwoByteTail(e: Encoding, bs: Text)
    requires |bs| == 2
    ensures DecodeQuanta(e, Encode(e, bs)) == Some(bs)
  {
    hide Digit, Value, Byte0, Byte1, Byte2, Sextet0, Sextet1, Sextet2, Sextet3;
    PadIsNoDigit(e);
    BytesRecovered(bs[0], bs[1], 0);
    assert [bs[0], bs[1]] == bs;
  }

  lemma {:induction false} QuantaRoundTrip(e: Encoding, bs: Text)
    ensures DecodeQuanta(e, Encode(e, bs)) == Some(bs)
  {
    hide Digit, Value, Byte0, Byte1, Byte2, Sextet0, Sextet1, Sextet2, Sextet3;
    if |bs| == 0 {
    } else if |bs| == 1 {
      OneByteTail(e, bs);
    } else if |bs| == 2 {
      TwoByteTail(e, bs);
    } else {
      QuantaRoundTrip(e, bs[3..]);
      BytesRecovered(bs[0], bs[1], bs[2]);
      assert Encode(e, bs)[4..] == Encode(e, bs[3..]);
      assert [bs[0], bs[1], bs[2]] + bs[3..] == bs;
    }
  }

  /** Decoding undoes encoding, in both variants, for every byte string. */
  lemma RoundTrip(e: Encoding, bs: Text)
    ensures Decode(e, Encode(e, bs)) == Some(bs)
  {
    EncodedAlphabet(e, bs);
    NothingToSkip(Encode(e, bs));
    QuantaRoundTrip(e, bs);
  }

  // ----- What the decoder accepts -----

  /** Exactly one byte stands for each value: what decodes to it is its digit, and nothing else does. */
  lemma ValueInvertsDigit(e: Encoding, c: Byte, v: nat)
    requires v < 64
    ensures Value(e, c) == Some(v) <==> c == Digit(e, v)
  {
  }

  /** The groups are recovered from the three bytes they were packed into. */
  lemma SextetsRecovered(v0: int, v1: int, v2: int, v3: int)
    requires 0 <= v0 < 64 && 0 <= v1 < 64 && 0 <= v2 < 64 && 0 <= v3 < 64
    ensures Sextet0(Byte0(v0, v1)) == v0
    ensures Sextet1(Byte0(v0, v1), Byte1(v1, v2)) == v1
    ensures Sextet2(Byte1(v1, v2), Byte2(v2, v3)) == v2
    ensures Sextet3(Byte2(v2, v3)) == v3
  {
    Spread(v0, v1 / 16, 4);
    Spread(v1 % 16, v2 / 4, 16);
  }

  /** How many digits an encoding has, padding aside: one per six bits begun. */
  function Digits(n: nat): nat {
    (n * 4 + 2) / 3
  }

  lemma ThreeMore(n: nat)
    ensures (n + 3 + 2) / 3 == (n + 2) / 3 + 1
    ensures Digits(n + 3) == Digits(n) + 4
  {
  }

  /** Padded output is a whole number of quanta; unpadded output has one digit per six bits begun. */
  lemma {:induction false} EncodedLength(e: Encoding, bs: Text)
    ensures |Encode(e, bs)| == if e.StdEncoding? then (|bs| + 2) / 3 * 4 else Digits(|bs|)
  {
    hide Digit, Sextet0, Sextet1, Sextet2, Sextet3;
    if |bs| >= 3 {
      EncodedLength(e, bs[3..]);
      ThreeMore(|bs| - 3);
    }
  }

  /** Digits that differ at most in the bits an incomplete last group of `n` bytes leaves over. */
  predicate SameUpperBits(e: Encoding, c: Byte, d: Byte, n: nat) {
    && Value(e, c).Some? && Value(e, d).Some?
    && (n % 3 == 1 ==> Value(e, c).value / 16 == Value(e, d).value / 16)
    && (n % 3 == 2 ==> Value(e, c).value / 4 == Value(e, d).value / 4)
  }

  /** `s` and `t` agree but for bits left over in the last digit of an encoding of `bs`. */
  predicate SameButLastBits(e: Encoding, s: Text, t: Text, bs: Text) {
    && |s| == |t|
    && forall k :: 0 <= k < |s| && s[k] != t[k] ==>
         |bs| % 3 != 0 && k == Digits(|bs|) - 1 && SameUpperBits(e, s[k], t[k], |bs|)
  }

  /** Packed into bytes and back, the upper bits of a last group survive. */
  lemma UpperBitsRecovered(v0: int, v1: int, v2: int)
    requires 0 <= v0 < 64 && 0 <= v1 < 64 && 0 <= v2 < 64
    ensures Sextet1(Byte0(v0, v1), 0) / 16 == v1 / 16
    ensures Sextet2(Byte1(v1, v2), 0) / 4 == v2 / 4
  {
    Spread(v0, v1 / 16, 4);
    Spread(v1 % 16, v2 / 4, 16);
  }

  lemma OneQuantum(e: Encoding, s: Text)
    requires DecodeQuanta(e, s).Some? && (|s| < 4 || Value(e, s[2]) == None || Value(e, s[3]) == None)
    ensures SameButLastBits(e, s, Encode(e, DecodeQuanta(e, s).value), DecodeQuanta(e, s).value)
  {
    hide Digit, Value, Byte0, Byte1, Byte2, Sextet0, Sextet1, Sextet2, Sextet3;
    if s != [] {
      var v0, v1 := Value(e, s[0]).value, Value(e, s[1]).value;
      var v2 := if |s| > 2 && Value(e, s[2]).Some? then Value(e, s[2]).value else 0;
      SextetsRecovered(v0, v1, v2, 0);
      UpperBitsRecovered(v0, v1, v2);
      ValueInvertsDigit(e, s[0], v0);
      ValueInvertsDigit(e, s[1], v1);
    }
  }

  /** Four digits of `s` are what their three bytes encode to. */
  lemma WholeQuantum(e: Encoding, s: Text, bs: Text)
    requires |s| == 4 && forall k :: 0 <= k < 4 ==> Value(e, s[k]).Some?
    ensures var v0, v1, v2, v3 := Value(e, s[0]).value, Value(e, s[1]).value, Value(e, s[2]).value, Value(e, s[3]).value;
            Encode(e, [Byte0(v0, v1), Byte1(v1, v2), Byte2(v2, v3)] + bs) == s + Encode(e, bs)
  {
    hide Digit, Value, Byte0, Byte1, Byte2, Sextet0, Sextet1, Sextet2, Sextet3;
    var v0, v1, v2, v3 := Value(e, s[0]).value, Value(e, s[1]).value, Value(e, s[2]).value, Value(e, s[3]).value;
    SextetsRecovered(v0, v1, v2, v3);
    ValueInvertsDigit(e, s[0], v0);
    ValueInvertsDigit(e, s[1], v1);
    ValueInvertsDigit(e, s[2], v2);
    ValueInvertsDigit(e, s[3], v3);
    var q := [Byte0(v0, v1), Byte1(v1, v2), Byte2(v2, v3)];
    assert (q + bs)[3..] == bs;
  }

  lemma PrependQuantum(e: Encoding, a: Text, s: Text, t: Text, q: Text, bs: Text)
    requires |a| == 4 && |q| == 3 && SameButLastBits(e, s, t, bs)
    ensures SameButLastBits(e, a + s, a + t, q + bs)
  {
    ThreeMore(|bs|);
    assert (|bs| + 3) % 3 == |bs| % 3;
    forall k | 0 <= k < |a + s| && (a + s)[k] != (a + t)[k] 
      ensures |bs| % 3 != 0 && k == Digits(|q + bs|) - 1 && SameUpperBits(e, (a + s)[k], (a + t)[k], |q + bs|)
    {
      assert s[k - 4] != t[k - 4];
    }
  }

  /** What decodes is the encoding of the result, up to the unchecked left-over bits of its last digit. */
  lemma {:induction false} QuantaAreCanonical(e: Encoding, s: Text)
    requires DecodeQuanta(e, s).Some?
    ensures SameButLastBits(e, s, Encode(e, DecodeQuanta(e, s).value), DecodeQuanta(e, s).value)
  {
    hide Value, Byte0, Byte1, Byte2, Encode, SameButLastBits;
    if |s| < 4 || Value(e, s[2]) == None || Value(e, s[3]) == None {
      OneQuantum(e, s);
    } else {
      QuantaAreCanonical(e, s[4..]);
      var bs := DecodeQuanta(e, s[4..]).value;
      WholeQuantum(e, s[..4], bs);
      PrependQuantum(e, s[..4], s[4..], Encode(e, bs), DecodeQuanta(e, s).value[..3], bs);
      assert s == s[..4] + s[4..];
      assert DecodeQuanta(e, s).value == DecodeQuanta(e, s).value[..3] + bs;
    }
  }

  /**
   The decoder reads exactly the encodings: besides line breaks anywhere, all it overlooks is
   the left-over bits of the last digit of an incomplete group.
   */
  lemma DecodedIsEncoded(e: Encoding, s: Text)
    requires Decode(e, s).Some?
    ensures SameButLastBits(e, SkipLineBreaks(s), Encode(e, Decode(e, s).value), Decode(e, s).value)
  {
    QuantaAreCanonical(e, SkipLineBreaks(s));
  }

  lemma SkipNothing()
    ensures SkipLineBreaks([]) == []
  {
  }

  lemma SkipStep(s: Text)
    requires s != []
    ensures SkipLineBreaks(s) == (if s[0] == LF || s[0] == CR then [] else [s[0]]) + SkipLineBreaks(s[1..])
  {
  }

  lemma {:induction false} SkipConcat(a: Text, b: Text)
    ensures SkipLineBreaks(a + b) == SkipLineBreaks(a) + SkipLineBreaks(b)
  {
    hide SkipLineBreaks;
    if a == [] {
      assert a + b == b;
      SkipNothing();
    } else {
      SkipConcat(a[1..], b);
      SkipStep(a);
      SkipStep(a + b);
      assert (a + b)[1..] == a[1..] + b;
      var first := if a[0] == LF || a[0] == CR then [] else [a[0]];
      assert first + (SkipLineBreaks(a[1..]) + SkipLineBreaks(b)) == (first + SkipLineBreaks(a[1..])) + SkipLineBreaks(b);
    }
  }

  /** A line break, wherever it stands, makes no difference to what is decoded. */
  lemma LineBreaksAreIgnored(e: Encoding, a: Text, c: Byte, b: Text)
    requires c == 10 || c == 13
    ensures Decode(e, a + [c] + b) == Decode(e, a + b)
  {
    hide DecodeQuanta, SkipLineBreaks;
    SkipConcat(a + [c], b);
    SkipConcat(a, [c]);
    SkipConcat(a, b);
    SkipStep([c]);
    SkipNothing();
    assert [c][1..] == [];
    assert SkipLineBreaks(a + [c]) == SkipLineBreaks(a);
  }

  /**
   `s` is `n` digits, enough to fill whole bytes, and then the padding that completes the last
   group: none in the unpadded variant.
   */
  predicate Shaped(e: Encoding, s: Text, n: nat) {
    && n <= |s| && n % 4 != 1
    && (forall k :: 0 <= k < n ==> Value(e, s[k]).Some?)
    && (forall k :: n <= k < |s| ==> s[k] == '=' as int)
    && |s| == if e.StdEncoding? then (n + 3) / 4 * 4 else n
  }

  ghost predicate WellShaped(e: Encoding, s: Text) {
    exists n: nat :: Shaped(e, s, n)
  }

  lemma ShapedTail(e: Encoding, s: Text, n: nat)
    requires |s| >= 4 && forall k :: 0 <= k < 4 ==> Value(e, s[k]).Some?
    ensures Shaped(e, s[4..], n) <==> Shaped(e, s, n + 4)
    ensures Shaped(e, s, n) ==> n >= 4
  {
    hide Value;
    PadIsNoDigit(e);
    if n < 4 {
      assert Value(e, s[n]).Some?;
      assert s[n] != '=' as int;
    }
    assert (n + 4) % 4 == n % 4;
    assert (n + 4 + 3) / 4 == (n + 3) / 4 + 1;
    if Shaped(e, s[4..], n) {
      forall k | 0 <= k < n + 4 ensures Value(e, s[k]).Some? {
        assert k >= 4 ==> s[k] == s[4..][k - 4];
      }
      forall k | n + 4 <= k < |s| ensures s[k] == '=' as int {
        assert s[k] == s[4..][k - 4];
      }
    }
  }

  /** The last group: which strings of at most four characters are one. */
  lemma ShapedQuantum(e: Encoding, s: Text)
    requires |s| < 4 || Value(e, s[2]) == None || Value(e, s[3]) == None || Value(e, s[0]) == None || Value(e, s[1]) == None
    ensures DecodeQuanta(e, s).Some? <==> Shaped(e, s, 0) || Shaped(e, s, 2) || Shaped(e, s, 3)
    ensures forall n: nat :: Shaped(e, s, n) ==> n == 0 || n == 2 || n == 3
  {
    hide Value, Byte0, Byte1, Byte2;
    PadIsNoDigit(e);
    forall n: nat ensures Shaped(e, s, n) ==> n == 0 || n == 2 || n == 3 {
      if 4 <= n && 4 <= |s| {
        var k := if Value(e, s[0]) == None then 0 else if Value(e, s[1]) == None then 1 else if Value(e, s[2]) == None then 2 else 3;
        assert Value(e, s[k]) == None;
      }
    }
  }

  lemma {:induction false} QuantaAreShaped(e: Encoding, s: Text)
    ensures DecodeQuanta(e, s).Some? <==> WellShaped(e, s)
  {
    hide Value, Byte0, Byte1, Byte2, Shaped;
    if |s| < 4 || Value(e, s[2]) == None || Value(e, s[3]) == None || Value(e, s[0]) == None || Value(e, s[1]) == None {
      ShapedQuantum(e, s);
    } else {
      QuantaAreShaped(e, s[4..]);
      forall k | 0 <= k < 4 ensures Value(e, s[k]).Some? {
        assert k == 0 || k == 1 || k == 2 || k == 3;
      }
      if n: nat :| Shaped(e, s[4..], n) {
        ShapedTail(e, s, n);
      }
      if n: nat :| Shaped(e, s, n) {
        ShapedTail(e, s, n);
        ShapedTail(e, s, n - 4);
      }
    }
  }

  /** The decoder accepts exactly the well-shaped strings, line breaks aside; left-over bits do not matter. */
  lemma DecodableExactly(e: Encoding, s: Text)
    ensures Decode(e, s).Some? <==> WellShaped(e, SkipLineBreaks(s))
  {
    QuantaAreShaped(e, SkipLineBreaks(s));
  }

  // ----- Against the standard -----

  function Chars(s: string): Text
    requires forall i :: 0 <= i < |s| ==> s[i] < 128 as char
  {
    seq(|s|, i requires 0 <= i < |s| => s[i] as int)
  }

  /** Vectors of section 10 of RFC 4648, "f", "fo" and "foo", and the two digits in which the variants differ. */
  lemma StandardVectors()
    ensures Encode(StdEncoding, [102]) == ['Z' as int, 'g' as int, PAD, PAD]
    ensures Encode(StdEncoding, [102, 111]) == ['Z' as int, 'm' as int, '8' as int, PAD]
    ensures Encode(RawUrlEncoding, [102, 111]) == ['Z' as int, 'm' as int, '8' as int]
    ensures Encode(StdEncoding, [102, 111, 111]) == ['Z' as int, 'm' as int, '9' as int, 'v' as int]
    ensures Encode(StdEncoding, [251, 255]) == ['+' as int, '/' as int, '8' as int, PAD]
    ensures Encode(RawUrlEncoding, [251, 255]) == ['-' as int, '_' as int, '8' as int]
  {
    hide Value, Alphabet;
    TableInNumbers(StdEncoding, 25);
    TableInNumbers(StdEncoding, 32);
    TableInNumbers(StdEncoding, 38);
    TableInNumbers(StdEncoding, 60);
    TableInNumbers(StdEncoding, 61);
    TableInNumbers(StdEncoding, 47);
    TableInNumbers(RawUrlEncoding, 25);
    TableInNumbers(RawUrlEncoding, 38);
    TableInNumbers(RawUrlEncoding, 60);
    TableInNumbers(StdEncoding, 62);
    TableInNumbers(StdEncoding, 63);
    TableInNumbers(RawUrlEncoding, 62);
    TableInNumbers(RawUrlEncoding, 63);
    assert [102, 111, 111][3..] == [];
  }
}
