/** UTF-8 (RFC 3629, section 3) between code points and bytes, with strict decoding and with
    Python's `errors="replace"`. */
module Utf8 {
  import opened Basics

  newtype byte = x: int | 0 <= x < 256

  /** A Python `str` may hold lone surrogates, which have no UTF-8 form. */
  type CodePoint = x: int | 0 <= x < 0x110000

  type Text = seq<CodePoint>

  const REPLACEMENT: CodePoint := 0xFFFD

  predicate IsScalar(c: CodePoint) { !(0xD800 <= c <= 0xDFFF) }

  predicate IsTail(b: byte) { 0x80 <= b <= 0xBF }

  function EncodeOne(c: CodePoint): (bs: seq<byte>)
    ensures 1 <= |bs| <= 4
  {
    if c < 0x80 then [c as byte]
    else if c < 0x800 then [(0xC0 + c / 64) as byte, (0x80 + c % 64) as byte]
    else if c < 0x10000 then
      [(0xE0 + c / 4096) as byte, (0x80 + c / 64 % 64) as byte, (0x80 + c % 64) as byte]
    else
      [(0xF0 + c / 262144) as byte, (0x80 + c / 4096 % 64) as byte,
       (0x80 + c / 64 % 64) as byte, (0x80 + c % 64) as byte]
  }

  /** `s.encode("utf-8")`; `None` stands for UnicodeEncodeError. */
  function Encode(s: Text): Option<seq<byte>> {
    if s == [] then Some([])
    else if !IsScalar(s[0]) then None
    else
      match Encode(s[1..])
      case None => None
      case Some(rest) => Some(EncodeOne(s[0]) + rest)
  }

  /** How many bytes a sequence led by `b` has; 0 when `b` cannot lead one. */
  function Width(b: byte): nat {
    if b < 0x80 then 1
    else if 0xC2 <= b <= 0xDF then 2
    else if 0xE0 <= b <= 0xEF then 3
    else if 0xF0 <= b <= 0xF4 then 4
    else 0
  }

  /** The byte after the lead, which for four leads is confined further. */
  predicate IsSecond(lead: byte, b: byte) {
    && IsTail(b)
    && (lead == 0xE0 ==> b >= 0xA0) && (lead == 0xED ==> b <= 0x9F)
    && (lead == 0xF0 ==> b >= 0x90) && (lead == 0xF4 ==> b <= 0x8F)
  }

  /** How many leading bytes of `bs` fit the sequence its first byte announces. */
  function Fitting(bs: seq<byte>): (n: nat)
    requires bs != []
    ensures n <= |bs| && n <= Width(bs[0])
  {
    var w := Width(bs[0]);
    if w == 0 then 0
    else if w == 1 || |bs| == 1 || !IsSecond(bs[0], bs[1]) then 1
    else if w == 2 || |bs| == 2 || !IsTail(bs[2]) then 2
    else if w == 3 || |bs| == 3 || !IsTail(bs[3]) then 3
    else 4
  }

  function DecodeOne(bs: seq<byte>): CodePoint
    requires bs != [] && Width(bs[0]) > 0 && Fitting(bs) == Width(bs[0])
  {
    var b0 := bs[0] as int;
    match Width(bs[0])
    case 1 => b0
    case 2 => (b0 - 0xC0) * 64 + (bs[1] as int - 0x80)
    case 3 => (b0 - 0xE0) * 4096 + (bs[1] as int - 0x80) * 64 + (bs[2] as int - 0x80)
    case _ => (b0 - 0xF0) * 262144 + (bs[1] as int - 0x80) * 4096 + (bs[2] as int - 0x80) * 64 + (bs[3] as int - 0x80)
  }

  /** `bs.decode("utf-8")`; `None` stands for UnicodeDecodeError. */
  function Decode(bs: seq<byte>): Option<Text> {
    if bs == [] then Some([])
    else if Width(bs[0]) == 0 || Fitting(bs) < Width(bs[0]) then None
    else
      match Decode(bs[Width(bs[0])..])
      case None => None
      case Some(rest) => Some([DecodeOne(bs)] + rest)
  }

  /** `bs.decode("utf-8", errors="replace")`: each maximal ill-formed piece becomes U+FFFD. */
  function DecodeReplacing(bs: seq<byte>): Text {
    if bs == [] then []
    else if Width(bs[0]) == 0 then [REPLACEMENT] + DecodeReplacing(bs[1..])
    else if Fitting(bs) < Width(bs[0]) then [REPLACEMENT] + DecodeReplacing(bs[Fitting(bs)..])
    else [DecodeOne(bs)] + DecodeReplacing(bs[Width(bs[0])..])
  }

  // ----- round trips -------------------------------------------------------------------------

  lemma Digits3(c: nat)
    ensures c == c / 4096 * 4096 + c / 64 % 64 * 64 + c % 64
  {
    assert c / 64 / 64 == c / 4096;
  }

  lemma Digits4(c: nat)
    ensures c == c / 262144 * 262144 + c / 4096 % 64 * 4096 + c / 64 % 64 * 64 + c % 64
  {
    Digits3(c);
    assert c / 4096 / 64 == c / 262144;
  }

  lemma EncodesTwo(c: CodePoint, rest: seq<byte>)
    requires 0x80 <= c < 0x800
    ensures var bs := EncodeOne(c) + rest; Width(bs[0]) == 2 == Fitting(bs) && DecodeOne(bs) == c
  {
    var bs := EncodeOne(c) + rest;
    assert bs[0] as int == 0xC0 + c / 64 && bs[1] as int == 0x80 + c % 64;
  }

  lemma EncodesThree(c: CodePoint, rest: seq<byte>)
    requires 0x800 <= c < 0x10000 && IsScalar(c)
    ensures var bs := EncodeOne(c) + rest; Width(bs[0]) == 3 == Fitting(bs) && DecodeOne(bs) == c
  {
    var bs := EncodeOne(c) + rest;
    Digits3(c);
    var hi, mid := c / 4096, c / 64 % 64;
    assert bs[0] as int == 0xE0 + hi && bs[1] as int == 0x80 + mid && bs[2] as int == 0x80 + c % 64;
    assert hi == 0 ==> mid >= 0x20;
    assert hi == 0xD ==> mid <= 0x1F;
  }

  lemma EncodesFour(c: CodePoint, rest: seq<byte>)
    requires 0x10000 <= c
    ensures var bs := EncodeOne(c) + rest; Width(bs[0]) == 4 == Fitting(bs) && DecodeOne(bs) == c
  {
    var bs := EncodeOne(c) + rest;
    Digits4(c);
    var hi, second := c / 262144, c / 4096 % 64;
    assert bs[0] as int == 0xF0 + hi && bs[1] as int == 0x80 + second;
    assert bs[2] as int == 0x80 + c / 64 % 64 && bs[3] as int == 0x80 + c % 64;
    assert hi == 0 ==> second >= 0x10;
    assert hi == 4 ==> second <= 0xF;
  }

  lemma DecodeOneOfEncodeOne(c: CodePoint, rest: seq<byte>)
    requires IsScalar(c)
    ensures var bs := EncodeOne(c) + rest;
            && Width(bs[0]) == |EncodeOne(c)| == Fitting(bs)
            && DecodeOne(bs) == c && bs[Width(bs[0])..] == rest
  {
    if c < 0x80 {
    } else if c < 0x800 {
      EncodesTwo(c, rest);
    } else if c < 0x10000 {
      EncodesThree(c, rest);
    } else {
      EncodesFour(c, rest);
    }
    assert (EncodeOne(c) + rest)[|EncodeOne(c)|..] == rest;
  }

  /** Decoding undoes encoding, under either error mode. */
  lemma {:induction false} DecodeEncode(s: Text)
    requires Encode(s).Some?
    ensures Decode(Encode(s).value) == Some(s) && DecodeReplacing(Encode(s).value) == s
  {
    if s != [] {
      DecodeEncode(s[1..]);
      DecodeOneOfEncodeOne(s[0], Encode(s[1..]).value);
      assert s == [s[0]] + s[1..];
    }
  }

  lemma DecodesTwo(bs: seq<byte>)
    requires bs != [] && Width(bs[0]) == 2 == Fitting(bs)
    ensures IsScalar(DecodeOne(bs)) && EncodeOne(DecodeOne(bs)) == bs[..2]
  {
    var c := DecodeOne(bs);
    assert c / 64 == bs[0] as int - 0xC0 && c % 64 == bs[1] as int - 0x80;
  }

  lemma DecodesThree(bs: seq<byte>)
    requires bs != [] && Width(bs[0]) == 3 == Fitting(bs)
    ensures IsScalar(DecodeOne(bs)) && EncodeOne(DecodeOne(bs)) == bs[..3]
  {
    var c := DecodeOne(bs);
    var x, y, z := bs[0] as int - 0xE0, bs[1] as int - 0x80, bs[2] as int - 0x80;
    assert c == (x * 64 + y) * 64 + z;
    assert c / 64 == x * 64 + y && c % 64 == z;
    assert c / 4096 == x && c / 64 % 64 == y;
    assert bs[..3] == [bs[0], bs[1], bs[2]];
  }

  lemma DecodesFour(bs: seq<byte>)
    requires bs != [] && Width(bs[0]) == 4 == Fitting(bs)
    ensures IsScalar(DecodeOne(bs)) && EncodeOne(DecodeOne(bs)) == bs[..4]
  {
    var c := DecodeOne(bs);
    var w, x, y, z := bs[0] as int - 0xF0, bs[1] as int - 0x80, bs[2] as int - 0x80, bs[3] as int - 0x80;
    assert c == ((w * 64 + x) * 64 + y) * 64 + z;
    assert c / 64 == (w * 64 + x) * 64 + y && c % 64 == z;
    assert c / 4096 == w * 64 + x && c / 64 % 64 == y;
    assert c / 262144 == w && c / 4096 % 64 == x;
    assert bs[..4] == [bs[0], bs[1], bs[2], bs[3]];
  }

  lemma EncodeOneOfDecodeOne(bs: seq<byte>)
    requires bs != [] && Width(bs[0]) > 0 && Fitting(bs) == Width(bs[0])
    ensures IsScalar(DecodeOne(bs)) && EncodeOne(DecodeOne(bs)) == bs[..Width(bs[0])]
  {
    match Width(bs[0])
    case 1 => assert bs[..1] == [bs[0]];
    case 2 => DecodesTwo(bs);
    case 3 => DecodesThree(bs);
    case _ => DecodesFour(bs);
  }

  /** Encoding undoes decoding, so no two byte sequences decode to the same text. */
  lemma {:induction false} EncodeDecode(bs: seq<byte>)
    requires Decode(bs).Some?
    ensures Encode(Decode(bs).value) == Some(bs)
  {
    if bs != [] {
      var w := Width(bs[0]);
      EncodeDecode(bs[w..]);
      EncodeOneOfDecodeOne(bs);
      Recombine(bs, w, DecodeOne(bs), Decode(bs[w..]).value);
    }
  }

  lemma Recombine(bs: seq<byte>, w: nat, c: CodePoint, rest: Text)
    requires w <= |bs| && IsScalar(c) && EncodeOne(c) == bs[..w] && Encode(rest) == Some(bs[w..])
    ensures Encode([c] + rest) == Some(bs)
  {
    assert ([c] + rest)[1..] == rest;
    assert bs == bs[..w] + bs[w..];
  }

  /** Text has a UTF-8 form exactly when it holds no surrogate. */
  lemma {:induction false} EncodesIffScalar(s: Text)
    ensures Encode(s).Some? <==> forall i :: 0 <= i < |s| ==> IsScalar(s[i])
  {
    if s != [] {
      EncodesIffScalar(s[1..]);
      assert forall i :: 1 <= i < |s| ==> s[i] == s[1..][i - 1];
    }
  }
}
