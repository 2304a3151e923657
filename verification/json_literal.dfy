/** String literals as section 7 of RFC 8259 writes them, and which of them string.c takes. */
module JsonLiteral {
  import opened Utf8
  import opened Hex
  import opened JsonString
  import opened JsonValue
  import opened JsonGrammar

  /** One char of the grammar: unescaped bytes, a backslash and a letter, or \u and four digits. */
  datatype Unit = Plain(bytes: Bytes) | Short(letter: byte) | Escaped(d0: byte, d1: byte, d2: byte, d3: byte)

  predicate HasShort(c: byte) {
    c == 0x22 || c == 0x5C || c == 0x2F || c == 0x62 || c == 0x66 || c == 0x6E || c == 0x72 || c == 0x74
  }

  /** unescaped = %x20-21 / %x23-5B / %x5D-10FFFF, in UTF-8; the letters and the digits are those of section 7. */
  predicate Legal(u: Unit) {
    match u
    case Plain(s) => WellFormedChar(s) && s[0] >= 0x20 && s[0] != 0x22 && s[0] != 0x5C
    case Short(c) => HasShort(c)
    case Escaped(a, b, c, d) => Nibble(a) < 16 && Nibble(b) < 16 && Nibble(c) < 16 && Nibble(d) < 16
  }

  function Text(u: Unit): (s: Bytes) {
    match u
    case Plain(s) => s
    case Short(c) => [0x5C, c]
    case Escaped(a, b, c, d) => [0x5C, 0x75, a, b, c, d]
  }

  function Texts(us: seq<Unit>): Bytes {
    if us == [] then [] else Text(us[0]) + Texts(us[1..])
  }

  predicate AllLegal(us: seq<Unit>) {
    forall k :: 0 <= k < |us| ==> Legal(us[k])
  }

  /** The chars of a literal and the quotation mark behind them stand at p. */
  predicate BodyAt(t: Bytes, p: nat, us: seq<Unit>) {
    EscapeAt(t, p, Texts(us) + [0x22]) && AllLegal(us)
  }

  predicate LiteralAt(t: Bytes, p: nat, us: seq<Unit>) {
    Read(t, p) == 0x22 && BodyAt(t, p + 1, us)
  }

  function Code(u: Unit): (c: nat)
    requires u.Escaped? && Legal(u)
    ensures c < 0x10000
  {
    Nibble(u.d0) * 4096 + Nibble(u.d1) * 256 + Nibble(u.d2) * 16 + Nibble(u.d3)
  }

  predicate High(u: Unit) {
    u.Escaped? && Legal(u) && 0xD800 <= Code(u) < 0xDC00
  }

  predicate Low(u: Unit) {
    u.Escaped? && Legal(u) && 0xDC00 <= Code(u) < 0xE000
  }

  /** Each escaped half of a surrogate pair has its other half next to it. */
  predicate Paired(us: seq<Unit>) {
    && (forall k :: 0 <= k < |us| && High(us[k]) ==> k + 1 < |us| && Low(us[k + 1]))
    && (forall k :: 0 <= k < |us| && Low(us[k]) ==> k > 0 && High(us[k - 1]))
  }

  function ShortByte(c: byte): byte {
    match c
    case 0x62 => 0x08
    case 0x66 => 0x0C
    case 0x6E => 0x0A
    case 0x72 => 0x0D
    case 0x74 => 0x09
    case _ => c
  }

  /** The code point of a pair: as section 7 has it, or with the or of the source. */
  function PairCode(w1: nat, w2: nat, standard: bool): (c: nat)
    ensures c < 0x110000
  {
    JoinValue(w1, w2);
    if standard then 0x10000 + w1 % 1024 * 1024 + w2 % 1024 else Join(w1, w2)
  }

  /** The bytes one char stands for. */
  function UnitBytes(u: Unit): Bytes
    requires Legal(u)
  {
    match u
    case Plain(s) => s
    case Short(c) => [ShortByte(c)]
    case Escaped(_, _, _, _) => Put(Code(u))
  }

  predicate PairFirst(us: seq<Unit>) {
    |us| > 1 && High(us[0]) && Low(us[1])
  }

  /** The bytes a literal stands for. */
  function Meaning(us: seq<Unit>, standard: bool): Bytes
    requires AllLegal(us)
  {
    if us == [] then []
    else if PairFirst(us) then Put(PairCode(Code(us[0]), Code(us[1]), standard)) + Meaning(us[2..], standard)
    else UnitBytes(us[0]) + Meaning(us[1..], standard)
  }

  // ---- one char

  lemma SplitBody(t: Bytes, p: nat, us: seq<Unit>)
    requires BodyAt(t, p, us) && us != []
    ensures EscapeAt(t, p, Text(us[0])) && BodyAt(t, p + |Text(us[0])|, us[1..]) && Legal(us[0])
  {
    hide Texts, Text, Legal, EscapeAt;
    var a, b := Text(us[0]), Texts(us[1..]);
    Regroup(a, b, [QUOTE]);
    TextsStep(us);
    SplitEscape(t, p, a, b + [QUOTE]);
  }

  lemma TextsStep(us: seq<Unit>)
    requires us != []
    ensures Texts(us) == Text(us[0]) + Texts(us[1..])
  {
    hide Text;
  }

  lemma PlainOne(t: Bytes, p: nat, s: Bytes)
    requires Legal(Plain(s)) && EscapeAt(t, p, s)
    ensures DecodeOne(t, p) == Token(s, p + |s|)
  {
    ReadAt(t, p, s, 0);
    if s[0] >= 0x80 {
      ValueThenPut(s);
      WindowInside(t, p, |s|);
      GetAccepts(t, p, p + 4);
    } else {
      assert |s| == 1;
      assert s == [s[0]];
    }
  }

  lemma ShortOne(t: Bytes, p: nat, c: byte)
    requires HasShort(c) && EscapeAt(t, p, Text(Short(c)))
    ensures DecodeOne(t, p) == Token([ShortByte(c)], p + 2)
  {
    ReadAt(t, p, [BACKSLASH, c], 0);
    ReadAt(t, p, [BACKSLASH, c], 1);
    hide GetFrom, Put, GetBasic;
  }

  lemma BasicOne(t: Bytes, p: nat, u: Unit)
    requires u.Escaped? && Legal(u) && EscapeAt(t, p, Text(u))
    ensures GetBasic(t, p) == (Code(u), p + 6)
    ensures Read(t, p) == BACKSLASH && Read(t, p + 1) == 0x75
  {
    hide IsHex, HexValue, Nibble, EscapeAt, Read;
    var s := Text(u);
    NibbleIs(u.d0); NibbleIs(u.d1); NibbleIs(u.d2); NibbleIs(u.d3);
    ReadAt(t, p, s, 0); ReadAt(t, p, s, 1); ReadAt(t, p, s, 2);
    ReadAt(t, p, s, 3); ReadAt(t, p, s, 4); ReadAt(t, p, s, 5);
  }

  /** A low half is found at p only where the next char is one. */
  lemma LowNext(t: Bytes, p: nat, us: seq<Unit>)
    requires BodyAt(t, p, us)
    ensures us != [] && us[0].Escaped? ==> Legal(us[0]) && GetBasic(t, p) == (Code(us[0]), p + 6)
    ensures us == [] || !us[0].Escaped? ==> GetBasic(t, p) == (0, p)
  {
    if us == [] {
      ReadAt(t, p, Texts(us) + [QUOTE], 0);
    } else {
      SplitBody(t, p, us);
      if us[0].Escaped? {
        BasicOne(t, p, us[0]);
      } else {
        ReadAt(t, p, Text(us[0]), 0);
        if us[0].Short? {
          ReadAt(t, p, Text(us[0]), 1);
        }
      }
    }
  }

  /** What one step of the decoder makes of an escape at the front of a body. */
  lemma EscapedOne(t: Bytes, p: nat, us: seq<Unit>)
    requires BodyAt(t, p, us) && us != [] && us[0].Escaped?
    ensures Legal(us[0]) && Read(t, p) == BACKSLASH
    ensures DecodeOne(t, p) ==
      if PairFirst(us) then Token(Put(PairCode(Code(us[0]), Code(us[1]), false)), p + 12)
      else if High(us[0]) || Low(us[0]) then Token(Put(0), p)
      else Token(Put(Code(us[0])), p + 6)
  {
    hide BodyAt, Put, GetFrom, Join, GetBasic, Code;
    SplitBody(t, p, us);
    BasicOne(t, p, us[0]);
    LowNext(t, p + 6, us[1..]);
  }

  /** One step on a char that is no half of a pair. */
  lemma SingleOne(t: Bytes, p: nat, us: seq<Unit>)
    requires BodyAt(t, p, us) && us != [] && !High(us[0]) && !Low(us[0])
    ensures Legal(us[0]) && DecodeOne(t, p) == Token(UnitBytes(us[0]), p + |Text(us[0])|)
    ensures BodyAt(t, p + |Text(us[0])|, us[1..]) && 0 < |Text(us[0])|
  {
    hide BodyAt, DecodeOne, Put, GetFrom, Code, EscapeAt, ShortByte, HasShort;
    SplitBody(t, p, us);
    match us[0] {
      case Plain(s) => PlainOne(t, p, s);
      case Short(c) => ShortOne(t, p, c);
      case Escaped(_, _, _, _) => EscapedOne(t, p, us);
    }
  }

  lemma PairOne(t: Bytes, p: nat, us: seq<Unit>)
    requires BodyAt(t, p, us) && PairFirst(us)
    ensures DecodeOne(t, p) == Token(Put(PairCode(Code(us[0]), Code(us[1]), false)), p + 12)
    ensures BodyAt(t, p + 12, us[2..])
  {
    hide BodyAt, DecodeOne, Put, GetFrom, Code, EscapeAt, PairCode, GetBasic;
    EscapedOne(t, p, us);
    SplitBody(t, p, us);
    SplitBody(t, p + 6, us[1..]);
    assert us[1..][1..] == us[2..];
  }

  // ---- whole bodies

  lemma PairedStep(us: seq<Unit>)
    requires us != [] && !High(us[0]) && !Low(us[0])
    ensures Paired(us) <==> Paired(us[1..])
  {
    hide High, Low;
    var r := us[1..];
    assert forall k :: 0 <= k < |r| ==> r[k] == us[k + 1];
    assert forall k :: 0 < k < |us| ==> us[k] == r[k - 1];
  }

  lemma PairedPair(us: seq<Unit>)
    requires PairFirst(us)
    ensures Paired(us) <==> Paired(us[2..])
  {
    assert !Low(us[0]) && !High(us[1]);
    hide High, Low;
    var r := us[2..];
    assert forall k :: 0 <= k < |r| ==> r[k] == us[k + 2];
    assert forall k :: 2 <= k < |us| ==> us[k] == r[k - 2];
  }

  lemma NotPaired(us: seq<Unit>)
    requires us != [] && (High(us[0]) || Low(us[0])) && !PairFirst(us)
    ensures !Paired(us)
  {
    hide High, Low;
  }

  /** The decoder reads a body whose halves are paired up to its quotation mark, and stops before it in another. */
  predicate Decodes(t: Bytes, p: nat, us: seq<Unit>)
    requires AllLegal(us)
  {
    if Paired(us) then
      DecodeFrom(t, p) == Token(Meaning(us, false), p + |Texts(us)|) && Read(t, p + |Texts(us)|) == QUOTE
    else Read(t, DecodeFrom(t, p).end) != QUOTE
  }

  lemma DecodeStep(t: Bytes, p: nat)
    ensures DecodeOne(t, p).end == p ==> DecodeFrom(t, p) == DecodeOne(t, p)
    ensures DecodeOne(t, p).end > p ==>
      DecodeFrom(t, p) == Prefixed(DecodeOne(t, p).bytes, DecodeFrom(t, DecodeOne(t, p).end))
  {
    hide DecodeOne;
  }

  lemma EmptyDecoded(t: Bytes, p: nat)
    requires BodyAt(t, p, [])
    ensures Decodes(t, p, [])
  {
    ReadAt(t, p, Texts([]) + [QUOTE], 0);
    DecodeStep(t, p);
    hide GetFrom, DecodeFrom;
  }

  lemma SingleDecoded(t: Bytes, p: nat, us: seq<Unit>)
    requires us != [] && AllLegal(us) && !High(us[0]) && !Low(us[0])
    requires DecodeOne(t, p) == Token(UnitBytes(us[0]), p + |Text(us[0])|) && 0 < |Text(us[0])|
    requires Decodes(t, p + |Text(us[0])|, us[1..])
    ensures Decodes(t, p, us)
  {
    hide DecodeOne, DecodeFrom, Paired, Text, UnitBytes, High, Low, Legal;
    PairedStep(us);
    DecodeStep(t, p);
    TextsStep(us);
  }

  lemma PairTexts(us: seq<Unit>)
    requires PairFirst(us)
    ensures |Texts(us)| == 12 + |Texts(us[2..])|
  {
    assert |Text(us[0])| == 6 && |Text(us[1])| == 6;
    hide Text, High, Low;
    TextsStep(us);
    TextsStep(us[1..]);
    assert us[1..][1..] == us[2..];
  }

  lemma PairMeaning(us: seq<Unit>, standard: bool)
    requires PairFirst(us) && AllLegal(us)
    ensures AllLegal(us[2..])
    ensures Meaning(us, standard) == Put(PairCode(Code(us[0]), Code(us[1]), standard)) + Meaning(us[2..], standard)
  {
    hide Put, PairCode, Legal, Text, Code;
  }

  lemma SingleMeaning(us: seq<Unit>, standard: bool)
    requires us != [] && AllLegal(us) && !PairFirst(us)
    ensures AllLegal(us[1..])
    ensures Meaning(us, standard) == UnitBytes(us[0]) + Meaning(us[1..], standard)
  {
    hide UnitBytes, High, Low, Legal, PairCode, Put, Code;
  }

  lemma PairDecoded(t: Bytes, p: nat, us: seq<Unit>)
    requires PairFirst(us) && AllLegal(us)
    requires DecodeOne(t, p) == Token(Put(PairCode(Code(us[0]), Code(us[1]), false)), p + 12)
    requires AllLegal(us[2..]) && Decodes(t, p + 12, us[2..])
    ensures Decodes(t, p, us)
  {
    hide DecodeOne, DecodeFrom, Paired, PairFirst, AllLegal, Put, PairCode, Meaning, Texts, Code;
    PairedPair(us);
    DecodeStep(t, p);
    PairTexts(us);
    PairMeaning(us, false);
  }

  lemma HalfStuck(t: Bytes, p: nat, us: seq<Unit>)
    requires BodyAt(t, p, us) && us != [] && (High(us[0]) || Low(us[0])) && !PairFirst(us)
    ensures Decodes(t, p, us)
  {
    NotPaired(us);
    EscapedOne(t, p, us);
    DecodeStep(t, p);
    hide DecodeOne, DecodeFrom, Paired, Text, Put, Code;
  }

  lemma {:induction false} BodyDecoded(t: Bytes, p: nat, us: seq<Unit>)
    requires BodyAt(t, p, us)
    ensures AllLegal(us) && Decodes(t, p, us)
    decreases |us|
  {
    hide *;
    BodyLegal(t, p, us);
    if us == [] {
      EmptyDecoded(t, p);
    } else if PairFirst(us) {
      PairSize(us);
      PairOne(t, p, us);
      BodyDecoded(t, p + 12, us[2..]);
      PairDecoded(t, p, us);
    } else if High(us[0]) || Low(us[0]) {
      HalfStuck(t, p, us);
    } else {
      SingleOne(t, p, us);
      BodyDecoded(t, p + |Text(us[0])|, us[1..]);
      SingleDecoded(t, p, us);
    }
  }

  lemma BodyLegal(t: Bytes, p: nat, us: seq<Unit>)
    requires BodyAt(t, p, us)
    ensures AllLegal(us)
  {
    hide AllLegal;
  }

  lemma PairSize(us: seq<Unit>)
    requires PairFirst(us)
    ensures |us| > 1
  {
    hide High, Low;
  }

  /**
   * Where a literal of section 7 stands, the parser takes it exactly if each escaped half of a surrogate pair has
   * its other half next to it. It then ends behind the literal and has the bytes the literal stands for.
   */
  lemma LiteralParsed(t: Bytes, p: nat, us: seq<Unit>)
    requires LiteralAt(t, p, us)
    ensures AllLegal(us)
    ensures ParseString(t, p) ==
      if Paired(us) then Done(String(Meaning(us, false)), p + |Texts(us)| + 2) else Fail
  {
    hide BodyAt, DecodeFrom, DecodeOne, Paired, Texts, Meaning, AllLegal;
    BodyDecoded(t, p + 1, us);
  }

  // ---- back from the decoder to the literal

  lemma WellFormedRest(s: Bytes)
    requires WellFormed(s) && s != []
    ensures Width(s[0]) <= |s| && WellFormedChar(s[..Width(s[0])]) && WellFormed(s[Width(s[0])..])
  {
  }

  /** In UTF-8 text a byte below 0x80 is a character of its own. */
  lemma {:induction false} AsciiStarts(t: Bytes, p: nat)
    requires WellFormed(t) && p < |t| && t[p] < 0x80
    ensures WellFormed(t[p..])
  {
    var n := Width(t[0]);
    WellFormedRest(t);
    if p == 0 {
      assert t[0..] == t;
    } else if p < n {
      assert t[..n][p] == t[p];
    } else {
      AsciiStarts(t[n..], p - n);
      assert t[n..][p - n..] == t[p..];
    }
  }

  /** UTF-8 text goes on behind n bytes below 0x80. */
  lemma {:induction false} SkipAscii(t: Bytes, p: nat, n: nat)
    requires p + n <= |t| && WellFormed(t[p..]) && forall i :: p <= i < p + n ==> t[i] < 0x80
    ensures WellFormed(t[p + n..])
    decreases n
  {
    if n > 0 {
      WellFormedRest(t[p..]);
      assert t[p..][1..] == t[p + 1..];
      SkipAscii(t, p + 1, n - 1);
    }
  }

  /** A char u stands at p, in UTF-8 text that goes on behind it. */
  predicate UnitAt(t: Bytes, p: nat, u: Unit) {
    Legal(u) && EscapeAt(t, p, Text(u)) && 0 < |Text(u)| && WellFormed(t[p + |Text(u)|..])
  }

  lemma PlainFound(t: Bytes, p: nat) returns (u: Unit)
    requires p < |t| && WellFormed(t[p..]) && (Regular(t[p]) || t[p] >= 0x80)
    ensures UnitAt(t, p, u) && DecodeOne(t, p).end == p + |Text(u)|
  {
    var n := Width(t[p]);
    WellFormedRest(t[p..]);
    u := Plain(t[p..p + n]);
    assert t[p..][..n] == t[p..p + n] && t[p..][n..] == t[p + n..];
    PlainOne(t, p, u.bytes);
    hide GetFrom, DecodeOne, WellFormed;
  }

  lemma ShortFound(t: Bytes, p: nat) returns (u: Unit)
    requires p < |t| && WellFormed(t[p..]) && t[p] == BACKSLASH && HasShort(Read(t, p + 1))
    ensures UnitAt(t, p, u) && DecodeOne(t, p).end == p + |Text(u)|
  {
    SkipAscii(t, p, 2);
    u := Short(t[p + 1]);
    assert t[p..p + 2] == Text(u);
    ShortOne(t, p, t[p + 1]);
    hide GetFrom, DecodeOne, WellFormed;
  }

  lemma EscapeFound(t: Bytes, p: nat) returns (u: Unit)
    requires p < |t| && WellFormed(t[p..]) && GetBasic(t, p).1 == p + 6
    ensures UnitAt(t, p, u) && |Text(u)| == 6
  {
    SkipAscii(t, p, 6);
    u := Escaped(t[p + 2], t[p + 3], t[p + 4], t[p + 5]);
    NibbleIs(u.d0); NibbleIs(u.d1); NibbleIs(u.d2); NibbleIs(u.d3);
    hide IsHex, HexValue, Nibble;
    assert t[p..p + 6] == Text(u);
    hide GetFrom, DecodeOne, WellFormed;
  }

  /** The chars that one step of the decoder passes. */
  lemma StepFound(t: Bytes, p: nat) returns (us: seq<Unit>)
    requires p < |t| && WellFormed(t[p..]) && DecodeOne(t, p).end > p
    ensures |us| == 1 || |us| == 2
    ensures UnitAt(t, p, us[0])
    ensures |us| == 1 ==> DecodeOne(t, p).end == p + |Text(us[0])|
    ensures |us| == 2 ==> UnitAt(t, p + |Text(us[0])|, us[1])
                          && DecodeOne(t, p).end == p + |Text(us[0])| + |Text(us[1])|
  {
    var c := t[p];
    StepKinds(t, p);
    hide DecodeOne, WellFormed, UnitAt, Text, GetBasic, Regular, HasShort;
    if Regular(c) || c >= 0x80 {
      var u := PlainFound(t, p);
      us := [u];
    } else if HasShort(Read(t, p + 1)) {
      var u := ShortFound(t, p);
      us := [u];
    } else {
      var u := EscapeFound(t, p);
      us := [u];
      if DecodeOne(t, p).end != p + 6 {
        UnitInside(t, p, u);
        var v := EscapeFound(t, p + 6);
        us := [u, v];
      }
    }
  }

  lemma UnitInside(t: Bytes, p: nat, u: Unit)
    requires UnitAt(t, p, u)
    ensures p + |Text(u)| <= |t| && WellFormed(t[p + |Text(u)|..])
  {
    hide WellFormed, Text, Legal;
  }

  lemma StepKinds(t: Bytes, p: nat)
    requires p < |t| && DecodeOne(t, p).end > p
    ensures || Regular(t[p]) || t[p] >= 0x80
            || (t[p] == BACKSLASH && HasShort(Read(t, p + 1)))
            || (&& GetBasic(t, p).1 == p + 6
                && (|| DecodeOne(t, p).end == p + 6
                    || (p + 6 < |t| && GetBasic(t, p + 6).1 == p + 12 && DecodeOne(t, p).end == p + 12)))
  {
    hide GetFrom, Put, Join;
  }

  lemma EmptyBody(t: Bytes, p: nat)
    requires Read(t, p) == QUOTE
    ensures BodyAt(t, p, [])
  {
    assert p < |t| && t[p..p + 1] == [QUOTE];
  }

  lemma BodyGrows(t: Bytes, p: nat, u: Unit, us: seq<Unit>)
    requires Legal(u) && EscapeAt(t, p, Text(u)) && BodyAt(t, p + |Text(u)|, us)
    ensures BodyAt(t, p, [u] + us)
  {
    hide Legal, Text;
    var a, b := Text(u), Texts(us) + [QUOTE];
    TextsStep([u] + us);
    assert ([u] + us)[1..] == us;
    Regroup(a, Texts(us), [QUOTE]);
    hide Texts;
    assert t[p..p + |a| + |b|] == t[p..p + |a|] + t[p + |a|..p + |a| + |b|];
  }

  lemma UnitGrows(t: Bytes, p: nat, u: Unit, us: seq<Unit>)
    requires UnitAt(t, p, u) && BodyAt(t, p + |Text(u)|, us)
    ensures BodyAt(t, p, [u] + us)
  {
    hide Legal, Text, WellFormed, BodyAt, EscapeAt;
    BodyGrows(t, p, u, us);
  }

  lemma DecodedRest(t: Bytes, p: nat)
    ensures DecodeOne(t, p).end == p ==> DecodeFrom(t, p).end == p
    ensures DecodeOne(t, p).end > p ==> DecodeFrom(t, p).end == DecodeFrom(t, DecodeOne(t, p).end).end
    ensures p <= DecodeOne(t, p).end
  {
    hide DecodeOne;
  }

  /** What the decoder reads up to a quotation mark is the body of a literal. */
  lemma {:induction false} BodyFound(t: Bytes, p: nat) returns (us: seq<Unit>)
    requires p <= |t| && WellFormed(t[p..]) && Read(t, DecodeFrom(t, p).end) == QUOTE
    ensures BodyAt(t, p, us)
    decreases Remaining(t, p)
  {
    DecodedRest(t, p);
    hide DecodeOne, DecodeFrom, WellFormed, UnitAt, Text, BodyAt;
    if DecodeOne(t, p).end == p {
      EmptyBody(t, p);
      us := [];
    } else {
      var first := StepFound(t, p);
      UnitInside(t, p, first[0]);
      if |first| == 1 {
        us := BodyFound(t, p + |Text(first[0])|);
      } else {
        var q := p + |Text(first[0])|;
        UnitInside(t, q, first[1]);
        us := BodyFound(t, q + |Text(first[1])|);
        UnitGrows(t, q, first[1], us);
        us := [first[1]] + us;
      }
      UnitGrows(t, p, first[0], us);
      us := [first[0]] + us;
    }
  }

  /**
   * In UTF-8 text the parser takes exactly the literals of section 7 in which each escaped half of a surrogate
   * pair has its other half next to it; LiteralParsed tells where it ends and what it yields.
   */
  lemma StringGrammar(t: Bytes, p: nat)
    requires WellFormed(t) && Read(t, p) == QUOTE
    ensures ParseString(t, p).Done? <==> exists us :: LiteralAt(t, p, us) && Paired(us)
  {
    hide BodyAt, DecodeFrom, WellFormed, Paired, Meaning, Texts;
    if us :| LiteralAt(t, p, us) && Paired(us) {
      LiteralParsed(t, p, us);
    }
    if ParseString(t, p).Done? {
      AsciiStarts(t, p);
      SkipAscii(t, p, 1);
      var us := BodyFound(t, p + 1);
      LiteralParsed(t, p, us);
      assert LiteralAt(t, p, us) && Paired(us);
    }
  }

  // ---- where the code and the standard differ

  const LONE_HALF: Bytes := [QUOTE, BACKSLASH, 0x75, 0x64, 0x38, 0x30, 0x30, QUOTE]

  /** The eight bytes "\ud800" are a literal of section 7, and are refused. */
  lemma LoneHalfRefused(fits: Bytes -> bool)
    ensures LiteralAt(LONE_HALF, 0, [Escaped(0x64, 0x38, 0x30, 0x30)])
    ensures ParseText(LONE_HALF, 0, fits) == Fail
  {
    var t, us := LONE_HALF, [Escaped(0x64, 0x38, 0x30, 0x30)];
    assert Texts(us) == Text(us[0]) + Texts([]);
    assert t[1..8] == Texts(us) + [QUOTE];
    assert High(us[0]);
    LiteralParsed(t, 0, us);
  }

  /** Bit 16 of c - 0x10000, for the character c that the pair stands for. */
  predicate BitClear(w1: nat) {
    w1 % 1024 / 64 % 2 == 0
  }

  lemma PairBytes(w1: nat, w2: nat)
    ensures var a, b := Put(PairCode(w1, w2, false)), Put(PairCode(w1, w2, true));
      |a| == |b| && (a == b <==> BitClear(w1))
  {
    var v := w1 % 1024 * 1024 + w2 % 1024;
    JoinValue(w1, w2);
    assert v / 0x10000 == w1 % 1024 / 64;
    if !BitClear(w1) {
      assert v >= 0x10000;
      hide Join, Utf8.Value, WellFormedChar;
      PutWellFormed(v);
      PutWellFormed(v + 0x10000);
    }
  }

  predicate PairsClear(us: seq<Unit>)
    requires AllLegal(us)
  {
    forall k :: 0 < k < |us| && High(us[k - 1]) && Low(us[k]) ==> BitClear(Code(us[k - 1]))
  }

  lemma PairClear(us: seq<Unit>)
    requires AllLegal(us) && PairFirst(us)
    ensures AllLegal(us[2..])
    ensures PairsClear(us) <==> BitClear(Code(us[0])) && PairsClear(us[2..])
  {
    assert !High(us[1]);
    hide High, Low, BitClear, Code, Legal;
    var r := us[2..];
    assert forall k :: 0 <= k < |r| ==> r[k] == us[k + 2];
    assert forall k :: 2 <= k < |us| ==> us[k] == r[k - 2];
  }

  lemma SingleClear(us: seq<Unit>)
    requires AllLegal(us) && us != [] && !PairFirst(us)
    ensures AllLegal(us[1..])
    ensures PairsClear(us) <==> PairsClear(us[1..])
  {
    hide High, Low, BitClear, Code, Legal;
    var r := us[1..];
    assert forall k :: 0 <= k < |r| ==> r[k] == us[k + 1];
    assert forall k :: 1 <= k < |us| ==> us[k] == r[k - 1];
  }

  lemma SameFront(a: Bytes, b: Bytes, x: Bytes, y: Bytes)
    requires |a| == |b|
    ensures a + x == b + y <==> a == b && x == y
  {
    if a + x == b + y {
      assert a == (a + x)[..|a|] && b == (b + y)[..|a|];
      assert x == (a + x)[|a|..] && y == (b + y)[|a|..];
    }
  }

  /**
   * The bytes are those that section 7 gives the literal exactly if no pair names a character whose bit 16 of
   * c - 0x10000 is set.
   */
  lemma {:induction false} MeaningIsStandard(us: seq<Unit>)
    requires AllLegal(us)
    ensures Meaning(us, false) == Meaning(us, true) <==> PairsClear(us)
    decreases |us|
  {
    hide Legal, High, Low, Code, Put, PairCode, UnitBytes, BitClear, AllLegal, PairsClear, PairFirst;
    if us == [] {
      NothingClear();
    } else if PairFirst(us) {
      PairSize(us);
      PairMeaning(us, false);
      PairMeaning(us, true);
      MeaningIsStandard(us[2..]);
      PairClear(us);
      FirstPair(us);
    } else {
      SingleMeaning(us, false);
      SingleMeaning(us, true);
      MeaningIsStandard(us[1..]);
      SingleClear(us);
      FirstSingle(us);
    }
  }

  lemma NothingClear()
    ensures AllLegal([]) && PairsClear([])
  {
  }

  lemma FirstSingle(us: seq<Unit>)
    requires us != [] && AllLegal(us) && AllLegal(us[1..])
    ensures UnitBytes(us[0]) + Meaning(us[1..], false) == UnitBytes(us[0]) + Meaning(us[1..], true)
      <==> Meaning(us[1..], false) == Meaning(us[1..], true)
  {
    hide Legal, UnitBytes, Meaning;
    SameFront(UnitBytes(us[0]), UnitBytes(us[0]), Meaning(us[1..], false), Meaning(us[1..], true));
  }

  lemma FirstPair(us: seq<Unit>)
    requires PairFirst(us) && AllLegal(us) && AllLegal(us[2..])
    ensures var a, b := PairCode(Code(us[0]), Code(us[1]), false), PairCode(Code(us[0]), Code(us[1]), true);
      Put(a) + Meaning(us[2..], false) == Put(b) + Meaning(us[2..], true)
      <==> BitClear(Code(us[0])) && Meaning(us[2..], false) == Meaning(us[2..], true)
  {
    var a, b := PairCode(Code(us[0]), Code(us[1]), false), PairCode(Code(us[0]), Code(us[1]), true);
    hide PairCode, Meaning, AllLegal, BitClear, Put;
    PairBytes(Code(us[0]), Code(us[1]));
    SameFront(Put(a), Put(b), Meaning(us[2..], false), Meaning(us[2..], true));
  }
}
