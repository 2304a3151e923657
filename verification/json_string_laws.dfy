/** Decoding undoes encoding of JSON strings. */
module JsonStringLaws {
  import opened Utf8
  import opened JsonString

  // ---- strings as sequences of scalar values

  predicate Scalars(cs: seq<nat>) {
    forall i :: 0 <= i < |cs| ==> Scalar(cs[i])
  }

  function Text(cs: seq<nat>): Bytes
    requires Scalars(cs)
  {
    if cs == [] then [] else Put(cs[0]) + Text(cs[1..])
  }

  /** The scalar values of a well-formed string. */
  function Chars(s: Bytes): (cs: seq<nat>)
    requires WellFormed(s)
    ensures Scalars(cs)
  {
    if s == [] then []
    else
      var n := Width(s[0]);
      ValueThenPut(s[..n]);
      [Value(s[..n])] + Chars(s[n..])
  }

  lemma {:induction false} TextOfChars(s: Bytes)
    requires WellFormed(s)
    ensures Text(Chars(s)) == s
  {
    hide *;
    if s == [] {
      NoChars(s);
    } else {
      var n := FirstChar(s);
      ValueThenPut(s[..n]);
      TextOfChars(s[n..]);
      TextOfMore(Value(s[..n]), Chars(s[n..]));
      assert s == s[..n] + s[n..];
    }
  }

  lemma NoChars(s: Bytes)
    requires s == []
    ensures WellFormed(s) && Chars(s) == [] && Scalars([]) && Text([]) == []
  {
  }

  lemma FirstChar(s: Bytes) returns (n: nat)
    requires WellFormed(s) && s != []
    ensures n == Width(s[0]) <= |s| && n > 0 && WellFormedChar(s[..n]) && WellFormed(s[n..])
    ensures Chars(s) == [Value(s[..n])] + Chars(s[n..])
  {
    hide WellFormedChar, Value;
    n := Width(s[0]);
  }

  lemma TextOfMore(c: nat, cs: seq<nat>)
    requires Scalar(c) && Scalars(cs)
    ensures Scalars([c] + cs) && Text([c] + cs) == Put(c) + Text(cs)
  {
    hide Scalar, Put;
    assert ([c] + cs)[1..] == cs;
  }

  // ---- one character

  /** What the encoder makes of one scalar value. */
  function EncodeCode(c: nat, ascii: bool): Bytes
    requires Scalar(c)
  {
    if c >= 0x80 then PutCode(c, ascii) else if Regular(c) then [c] else Escape(c)
  }

  /** What the decoder makes of that. */
  function Survivor(c: nat, ascii: bool): (r: nat)
    ensures Scalar(c) ==> Scalar(r)
  {
    if ascii then Rejoined(c) else c
  }

  lemma NarrowTrip(c: byte, t: Bytes, q: nat)
    requires c < 0x80 && EscapeAt(t, q, if Regular(c) then [c] else Escape(c))
    ensures DecodeOne(t, q) == Token([c], q + if Regular(c) then 1 else |Escape(c)|)
  {
    var e := if Regular(c) then [c] else Escape(c);
    ReadAt(t, q, e, 0);
    if !Regular(c) {
      ReadAt(t, q, e, 1);
      if |e| == 6 {
        PutEncodedThenGet(c, t, q);
      }
    }
  }

  lemma RawTrip(c: nat, t: Bytes, q: nat)
    requires Scalar(c) && c >= 0x80 && EscapeAt(t, q, Put(c))
    ensures DecodeOne(t, q) == Token(Put(c), q + |Put(c)|)
  {
    ReadAt(t, q, Put(c), 0);
    PutThenGet(c, t, q, q + 4);
  }

  lemma AsciiTrip(c: nat, t: Bytes, q: nat)
    requires Scalar(c) && c >= 0x80 && EscapeAt(t, q, PutEncoded(c))
    ensures DecodeOne(t, q) == Token(Put(Rejoined(c)), q + |PutEncoded(c)|)
  {
    ReadAt(t, q, PutEncoded(c), 0);
    ReadAt(t, q, PutEncoded(c), 1);
    PutEncodedThenGet(c, t, q);
  }

  lemma OneTrip(c: nat, ascii: bool, t: Bytes, q: nat)
    requires Scalar(c) && EscapeAt(t, q, EncodeCode(c, ascii))
    ensures DecodeOne(t, q) == Token(Put(Survivor(c, ascii)), q + |EncodeCode(c, ascii)|)
  {
    if c < 0x80 {
      NarrowTrip(c, t, q);
    } else if ascii {
      AsciiTrip(c, t, q);
    } else {
      RawTrip(c, t, q);
    }
  }

  lemma CodeNotEmpty(c: nat, ascii: bool)
    requires Scalar(c)
    ensures EncodeCode(c, ascii) != []
  {
  }

  // ---- whole strings

  function EncodeAll(cs: seq<nat>, ascii: bool): Bytes
    requires Scalars(cs)
  {
    if cs == [] then [] else EncodeCode(cs[0], ascii) + EncodeAll(cs[1..], ascii)
  }

  function Survivors(cs: seq<nat>, ascii: bool): (r: seq<nat>)
    ensures |r| == |cs| && forall i :: 0 <= i < |cs| ==> r[i] == Survivor(cs[i], ascii)
  {
    seq(|cs|, i requires 0 <= i < |cs| => Survivor(cs[i], ascii))
  }

  /** The encoder works scalar value by scalar value. */
  lemma {:induction false} EncodeByChars(s: Bytes, p: nat, ascii: bool)
    requires p <= |s| && WellFormed(s[p..])
    ensures EncodeFrom(s, p, ascii) == EncodeAll(Chars(s[p..]), ascii)
    decreases |s| - p
  {
    hide *;
    if p < |s| {
      var n := Width(s[p]);
      var c := HeadChar(s, p);
      EncodeStep(s, p, ascii);
      EncodeOneIs(s, p, n, c, ascii);
      EncodeByChars(s, p + n, ascii);
      EncodeMore(c, Chars(s[p + n..]), ascii);
    } else {
      NoChars(s[p..]);
      NothingToEncode(s, ascii);
      NothingFor(ascii);
    }
  }

  lemma EncodeOneIs(s: Bytes, p: nat, n: nat, c: nat, ascii: bool)
    requires p < |s| && Scalar(c) && Get(s, p, |s|) == Char(c, p + n, true) && n == Width(s[p])
    requires (s[p] < 0x80 ==> c == s[p]) && (s[p] >= 0x80 ==> c >= 0x80)
    ensures EncodeOne(s, p, ascii) == Token(EncodeCode(c, ascii), p + n)
  {
    hide PutCode, Escape, GetFrom;
  }

  lemma EncodeMore(c: nat, cs: seq<nat>, ascii: bool)
    requires Scalar(c) && Scalars(cs)
    ensures Scalars([c] + cs) && EncodeAll([c] + cs, ascii) == EncodeCode(c, ascii) + EncodeAll(cs, ascii)
  {
    hide Scalar, EncodeCode;
    assert ([c] + cs)[1..] == cs;
  }

  lemma NothingFor(ascii: bool)
    ensures Scalars([]) && EncodeAll([], ascii) == []
  {
  }

  lemma HeadChar(s: Bytes, p: nat) returns (c: nat)
    requires p < |s| && WellFormed(s[p..])
    ensures var n := Width(s[p]);
      && p + n <= |s| && WellFormed(s[p + n..])
      && Scalar(c) && Chars(s[p..]) == [c] + Chars(s[p + n..])
      && Get(s, p, |s|) == Char(c, p + n, true)
      && (s[p] < 0x80 ==> c == s[p]) && (s[p] >= 0x80 ==> c >= 0x80)
  {
    var n := Width(s[p]);
    var r := s[p..];
    assert r[0] == s[p] && r[n..] == s[p + n..];
    c := Value(r[..n]);
    ValueThenPut(r[..n]);
    WindowInside(s, p, n);
    assert s[p..p + n] == r[..n];
    GetAccepts(s, p, |s|);
  }

  /** The decoder, started on encoded characters that a quote ends, yields their survivors and stops at
      the quote. */
  lemma {:induction false} DecodeEncoded(cs: seq<nat>, ascii: bool, t: Bytes, q: nat)
    requires Scalars(cs)
    requires EscapeAt(t, q, EncodeAll(cs, ascii)) && Read(t, q + |EncodeAll(cs, ascii)|) == QUOTE
    ensures Scalars(Survivors(cs, ascii))
    ensures DecodeFrom(t, q) == Token(Text(Survivors(cs, ascii)), q + |EncodeAll(cs, ascii)|)
  {
    hide EncodeCode, DecodeOne, Survivor, Put, QUOTE;
    if cs != [] {
      var e, rest := EncodeCode(cs[0], ascii), EncodeAll(cs[1..], ascii);
      SplitEscape(t, q, e, rest);
      CodeNotEmpty(cs[0], ascii);
      OneTrip(cs[0], ascii, t, q);
      DecodeEncoded(cs[1..], ascii, t, q + |e|);
      assert Survivors(cs, ascii)[1..] == Survivors(cs[1..], ascii);
    } else {
      StopsAtQuote(t, q);
    }
  }

  lemma StopsAtQuote(t: Bytes, q: nat)
    requires Read(t, q) == QUOTE
    ensures DecodeFrom(t, q) == Token([], q)
  {
  }

  /** Different scalar values give different texts. */
  lemma {:induction false} TextInjective(a: seq<nat>, b: seq<nat>)
    requires Scalars(a) && Scalars(b) && |a| == |b| && Text(a) == Text(b)
    ensures a == b
  {
    if a != [] {
      var x, y := Put(a[0]), Put(b[0]);
      PutWellFormed(a[0]);
      PutWellFormed(b[0]);
      assert x[0] == Text(a)[0] == Text(b)[0] == y[0];
      assert x == Text(a)[..|x|] == Text(b)[..|y|] == y;
      assert Text(a[1..]) == Text(a)[|x|..] == Text(b[1..]);
      TextInjective(a[1..], b[1..]);
    }
  }

  // ---- the round trips

  /** Every supplementary character lies in a plane whose number is odd: bit 16 of c - 0x10000 is clear. */
  predicate PlanesSurvive(s: Bytes)
    requires WellFormed(s)
  {
    forall i :: 0 <= i < |Chars(s)| ==> var c := Chars(s)[i]; c >= 0x10000 ==> (c - 0x10000) / 0x10000 % 2 == 0
  }

  /** A string literal of t whose body starts at q. */
  predicate LiteralBody(t: Bytes, q: nat, body: Bytes) {
    EscapeAt(t, q, body) && Read(t, q + |body|) == QUOTE
  }

  /** What a string comes back as; only ASCII mode changes it. */
  function ReadBack(s: Bytes, ascii: bool): Bytes {
    if ascii && WellFormed(s) then Text(Survivors(Chars(s), true)) else s
  }

  /** Decoding an encoded string gives exactly that, and stops at the closing quote. */
  lemma DecodesTo(s: Bytes, ascii: bool, t: Bytes, q: nat)
    requires WellFormed(s) && LiteralBody(t, q, EncodeFrom(s, 0, ascii))
    ensures DecodeFrom(t, q) == Token(ReadBack(s, ascii), q + |EncodeFrom(s, 0, ascii)|)
  {
    hide DecodeFrom, EncodeFrom, EncodeAll, Text, Chars;
    assert s[0..] == s;
    EncodeByChars(s, 0, ascii);
    DecodeEncoded(Chars(s), ascii, t, q);
    assert !ascii ==> Survivors(Chars(s), ascii) == Chars(s);
    TextOfChars(s);
  }

  /** In raw mode every well-formed string, zero bytes included, comes back unchanged. */
  lemma RawRoundTrip(s: Bytes, t: Bytes, q: nat)
    requires WellFormed(s) && LiteralBody(t, q, EncodeFrom(s, 0, false))
    ensures DecodeFrom(t, q) == Token(s, q + |EncodeFrom(s, 0, false)|)
  {
    hide DecodeFrom, EncodeFrom;
    DecodesTo(s, false, t, q);
  }

  /** In ASCII mode it comes back unchanged exactly when all planes survive. */
  lemma AsciiRoundTrip(s: Bytes, t: Bytes, q: nat)
    requires WellFormed(s) && LiteralBody(t, q, EncodeFrom(s, 0, true))
    ensures DecodeFrom(t, q).end == q + |EncodeFrom(s, 0, true)|
    ensures DecodeFrom(t, q).bytes == s <==> PlanesSurvive(s)
  {
    hide DecodeFrom, EncodeFrom, ReadBack, PlanesSurvive;
    DecodesTo(s, true, t, q);
    ReadBackIff(s);
  }

  lemma ReadBackIff(s: Bytes)
    requires WellFormed(s)
    ensures ReadBack(s, true) == s <==> PlanesSurvive(s)
  {
    hide Text, Chars, WellFormed;
    TextOfChars(s);
    SurvivesIff(Chars(s));
  }

  lemma {:induction false} CharsOfText(cs: seq<nat>)
    requires Scalars(cs)
    ensures WellFormed(Text(cs)) && Chars(Text(cs)) == cs
  {
    hide *;
    if cs == [] {
      NoChars([]);
      TextOfNone(cs);
    } else {
      TailScalars(cs);
      CharsOfText(cs[1..]);
      TextOfMore(cs[0], cs[1..]);
      assert [cs[0]] + cs[1..] == cs;
      CharsOfMore(cs[0], Text(cs[1..]));
    }
  }

  lemma TailScalars(cs: seq<nat>)
    requires Scalars(cs) && cs != []
    ensures Scalar(cs[0]) && Scalars(cs[1..])
  {
    hide Scalar;
  }

  lemma TextOfNone(cs: seq<nat>)
    requires cs == []
    ensures Scalars(cs) && Text(cs) == []
  {
  }

  lemma CharsOfMore(c: nat, rest: Bytes)
    requires Scalar(c) && WellFormed(rest)
    ensures WellFormed(Put(c) + rest) && Chars(Put(c) + rest) == [c] + Chars(rest)
  {
    assert c < 0x200000;
    hide Put, Value, WellFormedChar, Width, Scalar;
    PutWellFormed(c);
    var s, n := Put(c) + rest, |Put(c)|;
    NotEmptyChar(Put(c));
    assert s[..n] == Put(c) && s[n..] == rest && s[0] == Put(c)[0];
  }

  lemma NotEmptyChar(s: Bytes)
    requires WellFormedChar(s)
    ensures s != []
  {
  }

  /** What came back once comes back unchanged; so a string that does not survive is never a result. */
  lemma ReadBackSurvives(s: Bytes)
    requires WellFormed(s)
    ensures WellFormed(ReadBack(s, true)) && PlanesSurvive(ReadBack(s, true))
  {
    hide Text, Chars, WellFormed;
    CharsOfText(Survivors(Chars(s), true));
  }

  lemma SurvivesIff(cs: seq<nat>)
    requires Scalars(cs)
    ensures Scalars(Survivors(cs, true))
    ensures Text(Survivors(cs, true)) == Text(cs) <==>
            forall i :: 0 <= i < |cs| ==> cs[i] >= 0x10000 ==> (cs[i] - 0x10000) / 0x10000 % 2 == 0
  {
    hide Text;
    if forall i :: 0 <= i < |cs| ==> cs[i] >= 0x10000 ==> (cs[i] - 0x10000) / 0x10000 % 2 == 0 {
      assert Survivors(cs, true) == cs;
    } else {
      var i :| 0 <= i < |cs| && cs[i] >= 0x10000 && (cs[i] - 0x10000) / 0x10000 % 2 == 1;
      assert Survivors(cs, true)[i] != cs[i];
      if Text(Survivors(cs, true)) == Text(cs) {
        TextInjective(Survivors(cs, true), cs);
      }
    }
  }

  lemma LostPlane(s: Bytes, t: Bytes)
    requires WellFormed(s) && Chars(s) != [] && Chars(s)[0] == 0x20000
    requires LiteralBody(t, 0, EncodeFrom(s, 0, true))
    ensures DecodeFrom(t, 0).bytes != s
  {
    hide DecodeFrom, EncodeFrom, LiteralBody, Chars, WellFormed;
    assert !PlanesSurvive(s);
    AsciiRoundTrip(s, t, 0);
  }

  /** A concrete string that ASCII mode loses: U+20000. */
  lemma AsciiLosesPlaneTwo(t: Bytes)
    requires LiteralBody(t, 0, EncodeFrom(Put(0x20000), 0, true))
    ensures DecodeFrom(t, 0).bytes != Put(0x20000)
  {
    var s := Put(0x20000);
    PutWellFormed(0x20000);
    assert s[..4] == s && s[4..] == [];
    assert WellFormed(s[4..]);
    assert WellFormed(s);
    assert Chars(s)[0] == 0x20000;
    hide *;
    LostPlane(s, t);
  }
}
