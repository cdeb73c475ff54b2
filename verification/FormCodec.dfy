/** Percent-encoding and the form codec: `quote`, `quote_plus`, `unquote`, `urlencode` and
    `parse_qsl` of Python's `urllib.parse`. */
module FormCodec {
  import opened Basics
  import opened Utf8

  // ----- encoding ----------------------------------------------------------------------------

  /** Never percent-encoded (section 2.3 of RFC 3986). */
  predicate IsUnreserved(c: char) {
    || 'a' <= c <= 'z' || 'A' <= c <= 'Z' || '0' <= c <= '9'
    || c in {'_', '.', '-', '~'}
  }

  function HexChar(d: nat): char
    requires d < 16
  {
    if d < 10 then ('0' as int + d) as char else ('A' as int + (d - 10)) as char
  }

  function QuoteByte(b: byte, safe: set<char>): string {
    if b < 0x80 && (IsUnreserved(b as char) || (b as char) in safe) then [b as char]
    else ['%', HexChar(b as int / 16), HexChar(b as int % 16)]
  }

  function QuoteBytes(bs: seq<byte>, safe: set<char>): string {
    if bs == [] then "" else QuoteByte(bs[0], safe) + QuoteBytes(bs[1..], safe)
  }

  function CharBytes(c: char): seq<byte> { EncodeOne(c as int) }

  /** `quote(s, safe)`. */
  function Quote(s: string, safe: set<char>): string {
    if s == "" then "" else QuoteBytes(CharBytes(s[0]), safe) + Quote(s[1..], safe)
  }

  /** `quote_plus(s)`: like `quote` with nothing safe, and a blank becomes a plus sign. */
  function QuotePlus(s: string): string {
    if s == "" then ""
    else (if s[0] == ' ' then "+" else QuoteBytes(CharBytes(s[0]), {})) + QuotePlus(s[1..])
  }

  function JoinAmp(parts: seq<string>): string {
    if parts == [] then ""
    else if |parts| == 1 then parts[0]
    else parts[0] + "&" + JoinAmp(parts[1..])
  }

  type Pair = (string, string)

  function EncodePair(p: Pair): string { QuotePlus(p.0) + "=" + QuotePlus(p.1) }

  function EncodePairs(ps: seq<Pair>): seq<string> {
    if ps == [] then [] else [EncodePair(ps[0])] + EncodePairs(ps[1..])
  }

  /** `urlencode(ps)`. */
  function UrlEncode(ps: seq<Pair>): string { JoinAmp(EncodePairs(ps)) }

  // ----- decoding ----------------------------------------------------------------------------

  predicate IsHex(c: char) { '0' <= c <= '9' || 'a' <= c <= 'f' || 'A' <= c <= 'F' }

  function HexOf(c: char): (d: nat)
    requires IsHex(c)
    ensures d < 16
  {
    if '0' <= c <= '9' then c as int - '0' as int
    else if 'a' <= c <= 'f' then c as int - 'a' as int + 10
    else c as int - 'A' as int + 10
  }

  predicate IsAscii(s: string) { forall i :: 0 <= i < |s| ==> s[i] < 128 as char }

  /** `unquote_to_bytes`: a percent sign not followed by two hex digits stands for itself. */
  function UnquoteToBytes(s: string): seq<byte>
    requires IsAscii(s)
  {
    if s == "" then []
    else if |s| >= 3 && s[0] == '%' && IsHex(s[1]) && IsHex(s[2]) then
      [(HexOf(s[1]) * 16 + HexOf(s[2])) as byte] + UnquoteToBytes(s[3..])
    else [s[0] as byte] + UnquoteToBytes(s[1..])
  }

  function ToChar(c: CodePoint): char { if IsScalar(c) then c as char else '\U{FFFD}' }

  function ToChars(t: Text): string {
    if t == [] then "" else [ToChar(t[0])] + ToChars(t[1..])
  }

  function AsciiRun(s: string): (n: nat)
    ensures n <= |s| && IsAscii(s[..n])
    ensures n < |s| ==> s[n] >= 128 as char
  {
    if s == "" || s[0] >= 128 as char then 0 else 1 + AsciiRun(s[1..])
  }

  /** `unquote(s)`: each run of ASCII is decoded by itself, other characters stand for themselves. */
  function Unquote(s: string): string {
    if s == "" then ""
    else
      var n := AsciiRun(s);
      if n == 0 then [s[0]] + Unquote(s[1..])
      else ToChars(DecodeReplacing(UnquoteToBytes(s[..n]))) + Unquote(s[n..])
  }

  function PlusToBlank(s: string): (r: string)
    ensures |r| == |s| && forall i :: 0 <= i < |s| ==> r[i] == if s[i] == '+' then ' ' else s[i]
  {
    if s == "" then "" else [if s[0] == '+' then ' ' else s[0]] + PlusToBlank(s[1..])
  }

  function IndexOf(s: string, c: char): (i: nat)
    ensures i <= |s| && (forall j :: 0 <= j < i ==> s[j] != c) && (i < |s| ==> s[i] == c)
  {
    if s == "" || s[0] == c then 0 else 1 + IndexOf(s[1..], c)
  }

  /** `s.split("&")`. */
  function SplitAmp(s: string): (r: seq<string>)
    ensures r != []
  {
    var i := IndexOf(s, '&');
    if i == |s| then [s] else [s[..i]] + SplitAmp(s[i + 1..])
  }

  /** What one `&`-separated field yields: nothing without an equals sign or with a blank value. */
  function ParseField(field: string): seq<Pair> {
    var i := IndexOf(field, '=');
    if i == |field| || i + 1 == |field| then []
    else [(Unquote(PlusToBlank(field[..i])), Unquote(PlusToBlank(field[i + 1..])))]
  }

  function ParseFields(fields: seq<string>): seq<Pair> {
    if fields == [] then [] else ParseField(fields[0]) + ParseFields(fields[1..])
  }

  /** `parse_qsl(query, keep_blank_values=False)`. */
  function ParseQsl(query: string): seq<Pair> { ParseFields(SplitAmp(query)) }

  // ----- round trip of one component ---------------------------------------------------------

  function StringBytes(s: string): seq<byte> {
    if s == "" then [] else CharBytes(s[0]) + StringBytes(s[1..])
  }

  function Points(s: string): Text {
    if s == "" then [] else [s[0] as int] + Points(s[1..])
  }

  lemma {:induction false} BytesAreUtf8(s: string)
    ensures Encode(Points(s)) == Some(StringBytes(s)) && ToChars(Points(s)) == s
  {
    if s != "" {
      BytesAreUtf8(s[1..]);
      assert s == [s[0]] + s[1..];
      assert Points(s)[1..] == Points(s[1..]);
    }
  }

  lemma DecodesBack(s: string)
    ensures ToChars(DecodeReplacing(StringBytes(s))) == s
  {
    BytesAreUtf8(s);
    DecodeEncode(Points(s));
  }

  lemma QuotedByteAlphabet(b: byte, safe: set<char>)
    requires forall c :: c in safe ==> c < 128 as char
    ensures var q := QuoteByte(b, safe);
            && IsAscii(q) && q != ""
            && forall i :: 0 <= i < |q| ==> IsUnreserved(q[i]) || q[i] in safe || q[i] == '%'
  {}

  lemma {:induction false} QuotedBytesAlphabet(bs: seq<byte>, safe: set<char>)
    requires forall c :: c in safe ==> c < 128 as char
    ensures var q := QuoteBytes(bs, safe);
            && IsAscii(q) && (bs != [] ==> q != "")
            && forall i :: 0 <= i < |q| ==> IsUnreserved(q[i]) || q[i] in safe || q[i] == '%'
  {
    if bs != [] {
      QuotedByteAlphabet(bs[0], safe);
      QuotedBytesAlphabet(bs[1..], safe);
    }
  }

  lemma {:induction false} QuotedAlphabet(s: string, safe: set<char>)
    requires forall c :: c in safe ==> c < 128 as char
    ensures var q := Quote(s, safe);
            && IsAscii(q) && (s != "" ==> q != "")
            && forall i :: 0 <= i < |q| ==> IsUnreserved(q[i]) || q[i] in safe || q[i] == '%'
  {
    if s != "" {
      QuotedBytesAlphabet(CharBytes(s[0]), safe);
      QuotedAlphabet(s[1..], safe);
    }
  }

  predicate IsFormChar(c: char) { IsUnreserved(c) || c == '%' || c == '+' }

  lemma {:induction false} QuotePlusAlphabet(s: string)
    ensures var q := QuotePlus(s);
            && IsAscii(q) && (s != "" ==> q != "") && forall i :: 0 <= i < |q| ==> IsFormChar(q[i])
  {
    if s != "" {
      QuotedBytesAlphabet(CharBytes(s[0]), {});
      QuotePlusAlphabet(s[1..]);
    }
  }

  lemma UnquoteOneByte(b: byte, rest: string)
    requires IsAscii(rest)
    ensures var q := QuoteByte(b, {}) + rest; IsAscii(q) && UnquoteToBytes(q) == [b] + UnquoteToBytes(rest)
  {
    var q := QuoteByte(b, {}) + rest;
    if |QuoteByte(b, {})| == 3 {
      assert q[0] == '%' && q[1] == HexChar(b as int / 16) && q[2] == HexChar(b as int % 16);
      assert q[3..] == rest;
      assert HexOf(q[1]) * 16 + HexOf(q[2]) == b as int;
    } else {
      assert q[0] == b as char && q[0] != '%';
      assert q[1..] == rest;
    }
  }

  lemma {:induction false} UnquoteQuotedBytes(bs: seq<byte>, rest: string)
    requires IsAscii(rest)
    ensures IsAscii(QuoteBytes(bs, {}) + rest)
    ensures UnquoteToBytes(QuoteBytes(bs, {}) + rest) == bs + UnquoteToBytes(rest)
  {
    if bs == [] {
      assert QuoteBytes(bs, {}) + rest == rest;
      assert bs + UnquoteToBytes(rest) == UnquoteToBytes(rest);
    } else {
      var more := QuoteBytes(bs[1..], {});
      UnquoteQuotedBytes(bs[1..], rest);
      UnquoteOneByte(bs[0], more + rest);
      Reassociate(QuoteByte(bs[0], {}), more, rest);
      Reassociate([bs[0]], bs[1..], UnquoteToBytes(rest));
      assert [bs[0]] + bs[1..] == bs;
    }
  }

  lemma {:induction false} NoPlusUnchanged(s: string)
    requires '+' !in s
    ensures PlusToBlank(s) == s
  {}

  lemma PlusToBlankConcat(s: string, t: string)
    ensures PlusToBlank(s + t) == PlusToBlank(s) + PlusToBlank(t)
  {}

  lemma UnquoteBlank(rest: string)
    requires IsAscii(rest)
    ensures IsAscii(" " + rest) && UnquoteToBytes(" " + rest) == StringBytes(" ") + UnquoteToBytes(rest)
  {
    assert (" " + rest)[1..] == rest;
    assert CharBytes(' ') == [32];
    assert StringBytes(" ") == [32];
  }

  lemma UnquoteOneChar(c: char, rest: string)
    requires c != ' ' && IsAscii(rest)
    ensures var q := PlusToBlank(QuoteBytes(CharBytes(c), {})) + rest;
            IsAscii(q) && UnquoteToBytes(q) == CharBytes(c) + UnquoteToBytes(rest)
  {
    QuotedBytesAlphabet(CharBytes(c), {});
    NoPlusUnchanged(QuoteBytes(CharBytes(c), {}));
    UnquoteQuotedBytes(CharBytes(c), rest);
  }

  lemma {:induction false} UnquoteQuotePlus(s: string)
    ensures IsAscii(PlusToBlank(QuotePlus(s)))
    ensures UnquoteToBytes(PlusToBlank(QuotePlus(s))) == StringBytes(s)
  {
    QuotePlusAlphabet(s);
    if s != "" {
      UnquoteQuotePlus(s[1..]);
      var rest := PlusToBlank(QuotePlus(s[1..]));
      if s[0] == ' ' {
        PlusToBlankConcat("+", QuotePlus(s[1..]));
        UnquoteBlank(rest);
        assert PlusToBlank("+") == " " && StringBytes(" ") == CharBytes(s[0]);
      } else {
        PlusToBlankConcat(QuoteBytes(CharBytes(s[0]), {}), QuotePlus(s[1..]));
        UnquoteOneChar(s[0], rest);
      }
    }
  }

  lemma UnquoteAscii(s: string)
    requires IsAscii(s)
    ensures Unquote(s) == ToChars(DecodeReplacing(UnquoteToBytes(s)))
  {
    assert AsciiRun(s) == |s|;
    assert s[..|s|] == s;
    if s != "" {
      assert Unquote(s[|s|..]) == "";
    }
  }

  /** A name or value survives form encoding. */
  lemma ComponentRoundTrip(s: string)
    ensures Unquote(PlusToBlank(QuotePlus(s))) == s
  {
    UnquoteQuotePlus(s);
    UnquoteAscii(PlusToBlank(QuotePlus(s)));
    DecodesBack(s);
  }

  // ----- round trip of a query ---------------------------------------------------------------

  lemma ParseBuiltField(name: string, value: string)
    requires '=' !in name && value != ""
    ensures ParseField(name + "=" + value) == [(Unquote(PlusToBlank(name)), Unquote(PlusToBlank(value)))]
  {
    var field := name + "=" + value;
    var i := |name|;
    assert field[i] == '=' && field[..i] == name && field[i + 1..] == value;
    assert forall j :: 0 <= j < i ==> field[j] == name[j];
    assert IndexOf(field, '=') == i;
  }

  lemma FieldRoundTrip(p: Pair)
    requires p.1 != ""
    ensures ParseField(EncodePair(p)) == [p]
    ensures '&' !in EncodePair(p)
  {
    var name, value := QuotePlus(p.0), QuotePlus(p.1);
    QuotedHasNoDelimiter(p.0, name);
    QuotedHasNoDelimiter(p.1, value);
    ParseBuiltField(name, value);
    ComponentRoundTrip(p.0);
    ComponentRoundTrip(p.1);
  }

  lemma QuotedHasNoDelimiter(s: string, q: string)
    requires q == QuotePlus(s)
    ensures '=' !in q && '&' !in q && (s != "" ==> q != "")
  {
    QuotePlusAlphabet(s);
  }

  lemma {:induction false} SplitJoin(fields: seq<string>)
    requires fields != [] && forall f :: f in fields ==> '&' !in f
    ensures SplitAmp(JoinAmp(fields)) == fields
  {
    var first := fields[0];
    assert first in fields;
    if |fields| == 1 {
      assert IndexOf(first, '&') == |first|;
    } else {
      SplitJoin(fields[1..]);
      SplitFirst(first, JoinAmp(fields[1..]), JoinAmp(fields));
    }
  }

  lemma SplitFirst(first: string, rest: string, s: string)
    requires s == first + "&" + rest && '&' !in first
    ensures SplitAmp(s) == [first] + SplitAmp(rest)
  {
    assert s[|first|] == '&' && forall j :: 0 <= j < |first| ==> s[j] == first[j];
    assert IndexOf(s, '&') == |first|;
    assert s[..|first|] == first && s[|first| + 1..] == rest;
  }

  lemma {:induction false} FieldsRoundTrip(ps: seq<Pair>)
    requires forall p :: p in ps ==> p.1 != ""
    ensures ParseFields(EncodePairs(ps)) == ps && |EncodePairs(ps)| == |ps|
    ensures forall f :: f in EncodePairs(ps) ==> '&' !in f
  {
    if ps != [] {
      assert ps[0] in ps;
      FieldRoundTrip(ps[0]);
      FieldsRoundTrip(ps[1..]);
      assert ps == [ps[0]] + ps[1..];
    }
  }

  /** `parse_qsl` undoes `urlencode` on pairs whose values are not blank. */
  lemma QueryRoundTrip(ps: seq<Pair>)
    requires forall p :: p in ps ==> p.1 != ""
    ensures ParseQsl(UrlEncode(ps)) == ps
  {
    FieldsRoundTrip(ps);
    if ps == [] {
      assert SplitAmp("") == [""] && ParseField("") == [];
    } else {
      SplitJoin(EncodePairs(ps));
    }
  }

  predicate IsQueryChar(c: char) { IsFormChar(c) || c == '=' || c == '&' }

  predicate AllQueryChars(s: string) { forall i :: 0 <= i < |s| ==> IsQueryChar(s[i]) }

  lemma {:induction false} QueryAlphabet(ps: seq<Pair>)
    ensures AllQueryChars(UrlEncode(ps))
  {
    if ps != [] {
      QuotePlusAlphabet(ps[0].0);
      QuotePlusAlphabet(ps[0].1);
      assert AllQueryChars(EncodePair(ps[0]));
      QueryAlphabet(ps[1..]);
      var fields := EncodePairs(ps);
      assert fields[1..] == EncodePairs(ps[1..]);
      if |fields| > 1 {
        assert UrlEncode(ps) == EncodePair(ps[0]) + "&" + UrlEncode(ps[1..]);
      }
    }
  }

  // ----- what parsing yields -----------------------------------------------------------------

  lemma {:induction false} ToCharsLength(t: Text)
    ensures |ToChars(t)| == |t|
  {
    if t != [] { ToCharsLength(t[1..]); }
  }

  lemma UnquoteNonEmpty(s: string)
    requires s != ""
    ensures Unquote(s) != ""
  {
    var n := AsciiRun(s);
    if n > 0 {
      var bs := UnquoteToBytes(s[..n]);
      assert bs != [] && DecodeReplacing(bs) != [];
      ToCharsLength(DecodeReplacing(bs));
      assert |ToChars(DecodeReplacing(bs))| > 0;
    }
  }

  lemma {:induction false} ParsedValuesNonBlank(fields: seq<string>)
    ensures forall p :: p in ParseFields(fields) ==> p.1 != ""
  {
    if fields != [] {
      ParsedValuesNonBlank(fields[1..]);
      var i := IndexOf(fields[0], '=');
      if i + 1 < |fields[0]| { UnquoteNonEmpty(PlusToBlank(fields[0][i + 1..])); }
    }
  }
}
