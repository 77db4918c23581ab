/**
 * The standard base 64 alphabet and its padded encoding (section 4 of RFC 4648),
 * as the shared key is decoded with Go's `base64.StdEncoding.DecodeString`.
 * Carriage returns and line feeds are skipped wherever they appear; the rest is
 * read in quanta of four characters, and only the final quantum may end in one
 * or two `=` pad characters. Like Go's default (non-strict) decoder, the unused
 * low bits of the last data character of a padded quantum are ignored.
 */
module Base64 {
  import opened Wrappers

  type Byte = bv8

  /** A six-bit group, the value of one alphabet character. */
  predicate IsSextet(v: Byte) { v < 64 }

  /** The character that encodes sextet `v` (Table 1 of RFC 4648). */
  function SextetChar(v: Byte): (c: char)
    requires IsSextet(v)
    ensures CharSextet(c) == Some(v)
  {
    if v < 26 then ('A' as int + v as int) as char
    else if v < 52 then ('a' as int + (v as int - 26)) as char
    else if v < 62 then ('0' as int + (v as int - 52)) as char
    else if v == 62 then '+'
    else '/'
  }

  /** The sextet a character stands for; `None` for `=` and every character outside the alphabet. */
  function CharSextet(c: char): (r: Option<Byte>)
    ensures r.Some? ==> IsSextet(r.value)
    ensures c == '=' || IsLineBreak(c) ==> r.None?
  {
    if 'A' <= c <= 'Z' then Some((c as int - 'A' as int) as Byte)
    else if 'a' <= c <= 'z' then Some((c as int - 'a' as int + 26) as Byte)
    else if '0' <= c <= '9' then Some((c as int - '0' as int + 52) as Byte)
    else if c == '+' then Some(62)
    else if c == '/' then Some(63)
    else None
  }

  /** The characters Go's decoder skips wherever they appear. */
  predicate IsLineBreak(c: char) { c == '\r' || c == '\n' }

  /**
   * `s` with every line break removed and every other character kept in order.
   * Nothing is left exactly when `s` is made of line breaks only.
   */
  function StripLineBreaks(s: string): (r: string)
    ensures |r| <= |s|
    ensures forall i :: 0 <= i < |r| ==> !IsLineBreak(r[i])
    ensures r == [] <==> forall i :: 0 <= i < |s| ==> IsLineBreak(s[i])
    ensures (forall i :: 0 <= i < |s| ==> !IsLineBreak(s[i])) ==> r == s
    decreases |s|
  {
    if s == [] then []
    else if IsLineBreak(s[0]) then StripLineBreaks(s[1..])
    else [s[0]] + StripLineBreaks(s[1..])
  }

  // ---- encoding ----

  /** One trailing byte: two characters and two pad characters. */
  function EncodeSingle(x: Byte): string
  {
    [SextetChar(x >> 2), SextetChar((x & 3) << 4), '=', '=']
  }

  /** Two trailing bytes: three characters and one pad character. */
  function EncodePair(x: Byte, y: Byte): string
  {
    [SextetChar(x >> 2), SextetChar(((x & 3) << 4) | (y >> 4)), SextetChar((y & 15) << 2), '=']
  }

  /** Three bytes: four characters. */
  function EncodeTriple(x: Byte, y: Byte, z: Byte): string
  {
    [SextetChar(x >> 2), SextetChar(((x & 3) << 4) | (y >> 4)),
     SextetChar(((y & 15) << 2) | (z >> 6)), SextetChar(z & 63)]
  }

  /** Padded standard base 64 encoding of `b`. */
  function Encode(b: seq<Byte>): (s: string)
    ensures |s| == 4 * ((|b| + 2) / 3)
    ensures forall i :: 0 <= i < |s| ==> !IsLineBreak(s[i])
    decreases |b|
  {
    if |b| == 0 then []
    else if |b| == 1 then EncodeSingle(b[0])
    else if |b| == 2 then EncodePair(b[0], b[1])
    else EncodeTriple(b[0], b[1], b[2]) + Encode(b[3..])
  }

  // ---- decoding ----

  /** The bytes spanned by consecutive sextets: first, second and third byte of a quantum. */
  function FirstByte(a: Byte, b: Byte): Byte { (a << 2) | (b >> 4) }
  function SecondByte(b: Byte, c: Byte): Byte { ((b & 15) << 4) | (c >> 2) }
  function ThirdByte(c: Byte, d: Byte): Byte { ((c & 3) << 6) | d }

  /**
   * One quantum of four characters. A full quantum gives three bytes; when `last`
   * holds, `xx==` gives one byte and `xxx=` two. Anything else is malformed.
   */
  function DecodeQuantum(q: string, last: bool): (r: Option<seq<Byte>>)
    requires |q| == 4
    ensures r.Some? ==> 1 <= |r.value| <= 3
    ensures r.Some? && |r.value| < 3 ==> last
  {
    var a, b, c, d := CharSextet(q[0]), CharSextet(q[1]), CharSextet(q[2]), CharSextet(q[3]);
    if a.None? || b.None? then None
    else if c.Some? && d.Some? then
      Some([FirstByte(a.value, b.value), SecondByte(b.value, c.value), ThirdByte(c.value, d.value)])
    else if last && c.Some? && q[3] == '=' then
      Some([FirstByte(a.value, b.value), SecondByte(b.value, c.value)])
    else if last && q[2] == '=' && q[3] == '=' then
      Some([FirstByte(a.value, b.value)])
    else None
  }

  /** Decodes `s` as padded standard base 64, line breaks not allowed; `None` when `s` is not such an encoding. */
  function Decode(s: string): (r: Option<seq<Byte>>)
    ensures r.Some? && s != [] ==> |r.value| > 0
    decreases |s|
  {
    if |s| == 0 then Some([])
    else if |s| < 4 then None
    else
      match DecodeQuantum(s[..4], |s| == 4)
      case None => None
      case Some(q) =>
        match Decode(s[4..])
        case None => None
        case Some(rest) => Some(q + rest)
  }

  /**
   * `base64.StdEncoding.DecodeString`: line breaks are skipped and what remains
   * is decoded. The result is empty exactly when the input is all line breaks.
   */
  function DecodeString(s: string): (r: Option<seq<Byte>>)
    ensures r.Some? ==> (r.value == [] <==> forall i :: 0 <= i < |s| ==> IsLineBreak(s[i]))
  {
    Decode(StripLineBreaks(s))
  }

  /** An accepted non-empty string is one quantum followed by an accepted rest. */
  lemma DecodeStep(s: string)
    requires |s| >= 4 && Decode(s).Some?
    ensures DecodeQuantum(s[..4], |s| == 4).Some? && Decode(s[4..]).Some?
    ensures |Decode(s).value|
         == |DecodeQuantum(s[..4], |s| == 4).value| + |Decode(s[4..]).value|
  {
  }

  /**
   * An accepted string is whole quanta, and each quantum carries three bytes
   * except the last, which carries one to three.
   */
  lemma {:induction false} DecodedLength(s: string)
    requires Decode(s).Some?
    ensures |s| == |Encode(Decode(s).value)|
    ensures 3 * |s| <= 4 * |Decode(s).value| + 8
    ensures 4 * |Decode(s).value| <= 3 * |s|
    decreases |s|
  {
    if |s| > 0 {
      DecodeStep(s);
      DecodedLength(s[4..]);
    }
  }

  // ---- round trip ----

  /** A string of one quantum is decoded as the final quantum. */
  lemma DecodeLastQuantum(s: string)
    requires |s| == 4
    ensures Decode(s) == DecodeQuantum(s, true)
  {
    assert s[..4] == s && s[4..] == [];
    var q := DecodeQuantum(s, true);
    if q.Some? {
      assert q.value + [] == q.value;
    }
  }

  /** The first byte survives whatever fills the four bits a one-byte quantum does not use. */
  lemma SingleBits(x: Byte, p: Byte)
    requires p < 16
    ensures IsSextet(((x & 3) << 4) | p)
    ensures FirstByte(x >> 2, ((x & 3) << 4) | p) == x
  {
  }

  /** Both bytes survive whatever fills the two bits a two-byte quantum does not use. */
  lemma PairBits(x: Byte, y: Byte, q: Byte)
    requires q < 4
    ensures IsSextet(((y & 15) << 2) | q)
    ensures FirstByte(x >> 2, ((x & 3) << 4) | (y >> 4)) == x
    ensures SecondByte(((x & 3) << 4) | (y >> 4), ((y & 15) << 2) | q) == y
  {
  }

  lemma TripleBits(x: Byte, y: Byte, z: Byte)
    ensures FirstByte(x >> 2, ((x & 3) << 4) | (y >> 4)) == x
    ensures SecondByte(((x & 3) << 4) | (y >> 4), ((y & 15) << 2) | (z >> 6)) == y
    ensures ThirdByte(((y & 15) << 2) | (z >> 6), z & 63) == z
  {
  }

  /**
   * The decoder is lenient in a final `xx==` quantum, like Go's non-strict
   * decoder: the four low bits of the second character, which carry no data,
   * may hold anything, and the quantum still decodes to its one byte.
   */
  lemma PadBitsIgnoredSingle(x: Byte, p: Byte)
    requires p < 16
    ensures IsSextet(((x & 3) << 4) | p)
    ensures Decode([SextetChar(x >> 2), SextetChar(((x & 3) << 4) | p), '=', '=']) == Some([x])
  {
    SingleBits(x, p);
    DecodeLastQuantum([SextetChar(x >> 2), SextetChar(((x & 3) << 4) | p), '=', '=']);
  }

  /** The same for a final `xxx=` quantum: the two low bits of its third character may hold anything. */
  lemma PadBitsIgnoredPair(x: Byte, y: Byte, q: Byte)
    requires q < 4
    ensures IsSextet(((y & 15) << 2) | q)
    ensures Decode([SextetChar(x >> 2), SextetChar(((x & 3) << 4) | (y >> 4)),
                    SextetChar(((y & 15) << 2) | q), '=']) == Some([x, y])
  {
    PairBits(x, y, q);
    DecodeLastQuantum([SextetChar(x >> 2), SextetChar(((x & 3) << 4) | (y >> 4)),
                       SextetChar(((y & 15) << 2) | q), '=']);
  }

  lemma SingleRoundTrip(x: Byte)
    ensures Decode(EncodeSingle(x)) == Some([x])
  {
    PadBitsIgnoredSingle(x, 0);
    assert ((x & 3) << 4) | 0 == (x & 3) << 4;
  }

  lemma PairRoundTrip(x: Byte, y: Byte)
    ensures Decode(EncodePair(x, y)) == Some([x, y])
  {
    PadBitsIgnoredPair(x, y, 0);
    assert ((y & 15) << 2) | 0 == (y & 15) << 2;
  }

  lemma TripleRoundTrip(x: Byte, y: Byte, z: Byte, last: bool)
    ensures DecodeQuantum(EncodeTriple(x, y, z), last) == Some([x, y, z])
  {
    TripleBits(x, y, z);
  }

  /** Decoding inverts encoding: every byte string survives the round trip. */
  lemma {:induction false} DecodeEncode(b: seq<Byte>)
    ensures Decode(Encode(b)) == Some(b)
    decreases |b|
  {
    if |b| == 0 {
    } else if |b| == 1 {
      assert b == [b[0]];
      SingleRoundTrip(b[0]);
    } else if |b| == 2 {
      assert b == [b[0], b[1]];
      PairRoundTrip(b[0], b[1]);
    } else {
      var s := Encode(b);
      var head := EncodeTriple(b[0], b[1], b[2]);
      assert s[..4] == head;
      assert s[4..] == Encode(b[3..]);
      TripleRoundTrip(b[0], b[1], b[2], |s| == 4);
      DecodeEncode(b[3..]);
      assert b == [b[0], b[1], b[2]] + b[3..];
    }
  }

  /** Go's decoder too inverts encoding, since an encoding has no line breaks to skip. */
  lemma DecodeStringEncode(b: seq<Byte>)
    ensures DecodeString(Encode(b)) == Some(b)
  {
    DecodeEncode(b);
  }

  /**
   * Stripping works piecewise: a string is stripped by stripping its parts.
   * With the one-character cases in `StripLineBreaks`' own contract, this fixes
   * the result: every other character is kept, in order.
   */
  lemma {:induction false} StripConcat(a: string, b: string)
    ensures StripLineBreaks(a + b) == StripLineBreaks(a) + StripLineBreaks(b)
    decreases |a|
  {
    if a == [] {
      assert a + b == b;
    } else {
      assert (a + b)[0] == a[0] && (a + b)[1..] == a[1..] + b;
      StripConcat(a[1..], b);
      if !IsLineBreak(a[0]) {
        assert [a[0]] + StripLineBreaks(a[1..]) + StripLineBreaks(b)
            == [a[0]] + (StripLineBreaks(a[1..]) + StripLineBreaks(b));
      }
    }
  }

  /** A line break is skipped wherever it appears in the key. */
  lemma LineBreaksSkipped(a: string, c: char, b: string)
    requires IsLineBreak(c)
    ensures DecodeString(a + [c] + b) == DecodeString(a + b)
  {
    assert StripLineBreaks([c]) == [];
    calc {
      StripLineBreaks(a + [c] + b);
      { StripConcat(a + [c], b); }
      StripLineBreaks(a + [c]) + StripLineBreaks(b);
      { StripConcat(a, [c]); assert StripLineBreaks(a) + [] == StripLineBreaks(a); }
      StripLineBreaks(a) + StripLineBreaks(b);
      { StripConcat(a, b); }
      StripLineBreaks(a + b);
    }
  }
}
