/** What string.c writes for a string is a literal of section 7 of RFC 8259. */
module JsonWritten {
  import opened Utf8
  import opened Hex
  import opened JsonString
  import opened JsonLiteral

  predicate Ascii(s: Bytes) {
    forall i :: 0 <= i < |s| ==> s[i] < 0x80
  }

  /** The chars of a literal, which stand for text s, in pairs where they are halves. */
  ghost predicate Writes(us: seq<Unit>, s: Bytes, ascii: bool) {
    AllLegal(us) && Paired(us) && Texts(us) == s && (ascii ==> Ascii(s))
  }

  lemma {:induction false} TextsAppend(a: seq<Unit>, b: seq<Unit>)
    ensures Texts(a + b) == Texts(a) + Texts(b)
  {
    hide Text;
    if a == [] {
      assert a + b == b;
    } else {
      TextsAppend(a[1..], b);
      assert (a + b)[1..] == a[1..] + b;
      Regroup(Text(a[0]), Texts(a[1..]), Texts(b));
    }
  }

  lemma PairedAppend(a: seq<Unit>, b: seq<Unit>)
    requires Paired(a) && Paired(b)
    ensures Paired(a + b)
  {
    hide High, Low;
    var c := a + b;
    forall k | 0 <= k < |c| && High(c[k]) ensures k + 1 < |c| && Low(c[k + 1]) {
      assert k >= |a| ==> c[k] == b[k - |a|];
    }
    forall k | 0 <= k < |c| && Low(c[k]) ensures k > 0 && High(c[k - 1]) {
      assert k >= |a| ==> c[k] == b[k - |a|];
    }
  }

  lemma WritesMore(us: seq<Unit>, s: Bytes, vs: seq<Unit>, t: Bytes, ascii: bool)
    requires Writes(us, s, ascii) && Writes(vs, t, ascii)
    ensures Writes(us + vs, s + t, ascii)
  {
    hide Legal, Paired, Texts;
    TextsAppend(us, vs);
    PairedAppend(us, vs);
  }

  lemma OneUnit(u: Unit, ascii: bool)
    requires Legal(u) && !High(u) && !Low(u) && (ascii ==> Ascii(Text(u)))
    ensures Writes([u], Text(u), ascii)
  {
    hide Text, Legal, High, Low;
    assert Texts([u]) == Text(u) + Texts([]);
  }

  /** The four digits of a code, as PutBasic writes them. */
  function Digits(code: nat): Unit
    requires code < 0x10000
  {
    Escaped(HexDigit(code / 4096), HexDigit(code / 256 % 16), HexDigit(code / 16 % 16), HexDigit(code % 16))
  }

  lemma DigitsOf(code: nat)
    requires code < 0x10000
    ensures Text(Digits(code)) == PutBasic(code) && Legal(Digits(code)) && Code(Digits(code)) == code
    ensures Ascii(PutBasic(code))
  {
    var u := Digits(code);
    NibbleIs(u.d0); NibbleIs(u.d1); NibbleIs(u.d2); NibbleIs(u.d3);
    DigitAscii(code / 4096); DigitAscii(code / 256 % 16); DigitAscii(code / 16 % 16); DigitAscii(code % 16);
    hide HexDigit, Nibble, IsHex;
    assert code / 4096 * 16 + code / 256 % 16 == code / 256;
    assert code / 256 * 16 + code / 16 % 16 == code / 16;
  }

  lemma HalvesOf(code: nat)
    requires code < 0x10000
    ensures High(Digits(code)) <==> 0xD800 <= code < 0xDC00
    ensures Low(Digits(code)) <==> 0xDC00 <= code < 0xE000
  {
    DigitsOf(code);
    hide HexDigit, Code, Legal;
  }

  lemma DigitAscii(v: nat)
    requires v < 16
    ensures HexDigit(v) < 0x80
  {
  }

  lemma BasicWritten(code: nat, ascii: bool) returns (us: seq<Unit>)
    requires code < 0xD800 || 0xE000 <= code < 0x10000
    ensures Writes(us, PutBasic(code), ascii)
  {
    hide PutBasic, Digits, Text, Writes;
    DigitsOf(code);
    us := [Digits(code)];
    OneUnit(Digits(code), ascii);
  }

  lemma TwoTexts(u: Unit, v: Unit)
    ensures Texts([u, v]) == Text(u) + Text(v)
  {
    hide Text;
    assert [u, v][1..] == [v] && [v][1..] == [];
    assert Texts([v]) == Text(v) + Texts([]);
    assert Texts([]) == [];
  }

  lemma PairWritten(code: nat, ascii: bool) returns (us: seq<Unit>)
    requires 0x10000 <= code < 0x110000
    ensures Writes(us, PutEncoded(code), ascii)
  {
    var w1, w2 := 0xD800 + (code - 0x10000) / 1024, 0xDC00 + (code - 0x10000) % 1024;
    hide PutBasic, Digits, Text, High, Low, Legal, Code;
    DigitsOf(w1);
    DigitsOf(w2);
    HalvesOf(w1);
    HalvesOf(w2);
    us := [Digits(w1), Digits(w2)];
    TwoTexts(Digits(w1), Digits(w2));
    hide Texts;
  }

  lemma ReadIsScalar(s: Bytes, p: nat, to: nat)
    requires p < to && Read(s, p) >= 0x80
    ensures 0x80 <= Get(s, p, to).code && Scalar(Get(s, p, to).code)
  {
    GetAccepts(s, p, to);
    if CharAt(s, p, to) {
      var w := Window(s, p, Width(Read(s, p)));
      ValueThenPut(w);
      assert w[0] == Read(s, p);
    }
  }

  lemma RawWritten(code: nat) returns (us: seq<Unit>)
    requires Scalar(code) && code >= 0x80
    ensures Writes(us, Put(code), false)
  {
    PutWellFormed(code);
    var u := Plain(Put(code));
    assert Put(code)[0] >= 0x80;
    us := [u];
    hide Put, WellFormedChar, Value, Writes;
    OneUnit(u, false);
  }

  lemma CodeWritten(code: nat, ascii: bool) returns (us: seq<Unit>)
    requires Scalar(code) && code >= 0x80
    ensures Writes(us, PutCode(code, ascii), ascii)
  {
    hide Writes, Put, PutBasic;
    if !ascii {
      us := RawWritten(code);
    } else if code >= 0x10000 {
      us := PairWritten(code, ascii);
    } else {
      us := BasicWritten(code, ascii);
    }
  }

  lemma EscapeWritten(c: byte, ascii: bool) returns (us: seq<Unit>)
    requires c < 0x80 && !Regular(c)
    ensures Writes(us, Escape(c), ascii)
  {
    hide Writes, PutBasic;
    if |Escape(c)| == 2 {
      us := [Short(Escape(c)[1])];
      OneUnit(us[0], ascii);
      assert Text(us[0]) == Escape(c);
    } else {
      us := BasicWritten(c, ascii);
    }
  }

  lemma OneWritten(s: Bytes, p: nat, ascii: bool) returns (us: seq<Unit>)
    requires p < |s|
    ensures Writes(us, EncodeOne(s, p, ascii).bytes, ascii)
  {
    hide Writes, PutCode, GetFrom, Escape;
    if Regular(s[p]) {
      us := [Plain([s[p]])];
      OneUnit(us[0], ascii);
    } else if s[p] >= 0x80 {
      ReadIsScalar(s, p, |s|);
      us := CodeWritten(Get(s, p, |s|).code, ascii);
    } else {
      us := EscapeWritten(s[p], ascii);
    }
  }

  /** Whatever the string, well-formed or not, its encoding is the inside of a literal. */
  lemma {:induction false} EncodingWritten(s: Bytes, p: nat, ascii: bool) returns (us: seq<Unit>)
    requires p <= |s|
    ensures Writes(us, EncodeFrom(s, p, ascii), ascii)
    decreases |s| - p
  {
    hide EncodeOne, Writes;
    if p == |s| {
      us := [];
      NothingWritten(ascii);
    } else {
      var one := EncodeOne(s, p, ascii);
      var first := OneWritten(s, p, ascii);
      var rest := EncodingWritten(s, one.end, ascii);
      WritesMore(first, one.bytes, rest, EncodeFrom(s, one.end, ascii), ascii);
      us := first + rest;
    }
  }

  lemma NothingWritten(ascii: bool)
    ensures Writes([], [], ascii)
  {
  }

  /**
   * What the encoder writes between quotation marks is a literal of section 7, with every surrogate half next to its
   * other half. In ASCII mode it has no byte above 0x7F.
   */
  lemma EncoderWritesLiterals(s: Bytes, ascii: bool)
    ensures var t := [0x22] + EncodeFrom(s, 0, ascii) + [0x22];
      && (exists us :: LiteralAt(t, 0, us) && Paired(us) && |t| == 2 + |Texts(us)|)
      && (ascii ==> Ascii(t))
  {
    var us := EncodingWritten(s, 0, ascii);
    hide Texts, EncodeFrom, Paired, AllLegal, LiteralAt;
    LiteralOf(us);
  }

  lemma LiteralOf(us: seq<Unit>)
    requires AllLegal(us)
    ensures LiteralAt([0x22] + Texts(us) + [0x22], 0, us)
  {
    hide Texts, AllLegal;
    var t := [0x22] + Texts(us) + [0x22];
    assert t[1..1 + (|Texts(us)| + 1)] == Texts(us) + [0x22];
  }
}
