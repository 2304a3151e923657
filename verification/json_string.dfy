/** JSON string escapes: the encoder and decoder of string.c. */
module JsonString {
  import opened Words
  import opened Utf8
  import opened Hex

  const QUOTE: byte := 0x22
  const SLASH: byte := 0x2F
  const BACKSLASH: byte := 0x5C

  predicate Regular(c: byte) {
    c != QUOTE && c != BACKSLASH && 0x20 <= c < 0x80
  }

  // ---- \u escapes

  /** string_utf8_get_encoded_basic: \uXXXX, or nothing consumed. */
  function GetBasic(t: Bytes, p: nat): (r: (nat, nat))
    ensures r.0 < 0x10000 && (r.1 == p || r.1 == p + 6)
  {
    if Read(t, p) == BACKSLASH && Read(t, p + 1) == 0x75 && IsHex(Read(t, p + 2)) && IsHex(Read(t, p + 3))
       && IsHex(Read(t, p + 4)) && IsHex(Read(t, p + 5))
    then
      (HexValue(Read(t, p + 2)) * 4096 + HexValue(Read(t, p + 3)) * 256 + HexValue(Read(t, p + 4)) * 16
       + HexValue(Read(t, p + 5)), p + 6)
    else (0, p)
  }

  /** The two halves of a surrogate pair, joined with or as in the source. */
  function Join(w1: nat, w2: nat): nat {
    Or(0x10000, w1 % 1024 * 1024 + w2 % 1024)
  }

  /** string_utf8_get_encoded */
  function GetEncoded(t: Bytes, p: nat): (r: (nat, nat))
    ensures r.0 < 0x110000
    ensures r.1 == p || r.1 == p + 6 || r.1 == p + 12
  {
    var (w1, q) := GetBasic(t, p);
    if q == p then (0, p)
    else if 0xDC00 <= w1 < 0xE000 then (0, p)
    else if 0xD800 <= w1 < 0xDC00 then
      var (w2, q2) := GetBasic(t, q);
      if 0xDC00 <= w2 < 0xE000 then JoinValue(w1, w2); (Join(w1, w2), q2) else (0, p)
    else (w1, q)
  }

  function PutBasic(code: nat): (s: Bytes)
    requires code < 0x10000
    ensures |s| == 6
  {
    [BACKSLASH, 0x75, HexDigit(code / 4096), HexDigit(code / 256 % 16), HexDigit(code / 16 % 16), HexDigit(code % 16)]
  }

  function PutEncoded(code: nat): Bytes
    requires code < 0x110000
  {
    if code >= 0x10000 then PutBasic(0xD800 + (code - 0x10000) / 1024) + PutBasic(0xDC00 + (code - 0x10000) % 1024)
    else PutBasic(code)
  }

  /** The or adds bit 16 only where the pair's own bits leave it clear. */
  lemma JoinValue(w1: nat, w2: nat)
    ensures var v := w1 % 1024 * 1024 + w2 % 1024;
      Join(w1, w2) == if v / 0x10000 % 2 == 1 then v else v + 0x10000
  {
    var v := w1 % 1024 * 1024 + w2 % 1024;
    assert Pow2(16) == 0x10000 by { Pow2Eight(8); Pow2Eight(0); }
    OrBit(16, v);
  }

  lemma Pow2Eight(k: nat)
    ensures Pow2(k + 8) == 256 * Pow2(k)
  {
    assert Pow2(k + 2) == 4 * Pow2(k);
    assert Pow2(k + 4) == 16 * Pow2(k);
    assert Pow2(k + 6) == 64 * Pow2(k);
  }

  /** What a scalar value comes back as after a trip through \u escapes. */
  function Rejoined(c: nat): nat {
    if c >= 0x10000 && (c - 0x10000) / 0x10000 % 2 == 1 then c - 0x10000 else c
  }

  predicate EscapeAt(t: Bytes, p: nat, s: Bytes) {
    p + |s| <= |t| && t[p..p + |s|] == s
  }

  lemma ReadAt(t: Bytes, p: nat, s: Bytes, i: nat)
    requires EscapeAt(t, p, s) && i < |s|
    ensures Read(t, p + i) == s[i]
  {
    assert s[i] == t[p..p + |s|][i];
  }

  lemma PutBasicThenGet(code: nat, t: Bytes, p: nat)
    requires code < 0x10000 && EscapeAt(t, p, PutBasic(code))
    ensures GetBasic(t, p) == (code, p + 6)
  {
    var s := PutBasic(code);
    ReadAt(t, p, s, 0); ReadAt(t, p, s, 1); ReadAt(t, p, s, 2);
    ReadAt(t, p, s, 3); ReadAt(t, p, s, 4); ReadAt(t, p, s, 5);
    assert code / 4096 * 16 + code / 256 % 16 == code / 256;
    assert code / 256 * 16 + code / 16 % 16 == code / 16;
  }

  lemma PutEncodedThenGet(c: nat, t: Bytes, p: nat)
    requires Scalar(c) && EscapeAt(t, p, PutEncoded(c))
    ensures GetEncoded(t, p) == (Rejoined(c), p + |PutEncoded(c)|)
  {
    hide GetBasic, PutBasic, Join, EscapeAt;
    if c >= 0x10000 {
      var v := c - 0x10000;
      var w1, w2 := 0xD800 + v / 1024, 0xDC00 + v % 1024;
      SplitEscape(t, p, PutBasic(w1), PutBasic(w2));
      PutBasicThenGet(w1, t, p);
      PutBasicThenGet(w2, t, p + 6);
      JoinHalves(v);
    } else {
      PutBasicThenGet(c, t, p);
    }
  }

  lemma SplitEscape(t: Bytes, p: nat, a: Bytes, b: Bytes)
    requires EscapeAt(t, p, a + b)
    ensures EscapeAt(t, p, a) && EscapeAt(t, p + |a|, b)
  {
    var s := a + b;
    assert s[..|a|] == a && s[|a|..] == b;
    assert t[p..p + |a|] == t[p..p + |s|][..|a|];
    assert t[p + |a|..p + |s|] == t[p..p + |s|][|a|..];
  }

  lemma JoinHalves(v: nat)
    requires v < 0x100000
    ensures Join(0xD800 + v / 1024, 0xDC00 + v % 1024) == if v / 0x10000 % 2 == 1 then v else v + 0x10000
  {
    var w1, w2 := 0xD800 + v / 1024, 0xDC00 + v % 1024;
    assert w1 % 1024 == v / 1024 && w2 % 1024 == v % 1024;
    JoinValue(w1, w2);
  }

  // ---- the encoder

  function Escape(c: byte): Bytes {
    if c == QUOTE || c == BACKSLASH then [BACKSLASH, c]
    else if c == 0x0C then [BACKSLASH, 0x66]
    else if c == 0x0A then [BACKSLASH, 0x6E]
    else if c == 0x0D then [BACKSLASH, 0x72]
    else if c == 0x09 then [BACKSLASH, 0x74]
    else PutBasic(c)
  }

  function PutCode(code: nat, ascii: bool): Bytes
    requires code < 0x110000
  {
    if ascii then PutEncoded(code) else Put(code)
  }

  lemma GetBounds(t: Bytes, p: nat, to: nat)
    requires p < to
    ensures p < Get(t, p, to).end <= to && Get(t, p, to).code < 0x110000
  {
    GetAccepts(t, p, to);
    if CharAt(t, p, to) {
      ValueThenPut(Window(t, p, Width(Read(t, p))));
    }
  }

  datatype Token = Token(bytes: Bytes, end: nat)

  /** One character at p, as encoded. */
  function EncodeOne(s: Bytes, p: nat, ascii: bool): (r: Token)
    requires p < |s|
    ensures p < r.end <= |s|
  {
    if Regular(s[p]) then Token([s[p]], p + 1)
    else if s[p] >= 0x80 then
      GetBounds(s, p, |s|);
      Token(PutCode(Get(s, p, |s|).code, ascii), Get(s, p, |s|).end)
    else Token(Escape(s[p]), p + 1)
  }

  function EncodeFrom(s: Bytes, p: nat, ascii: bool): Bytes
    requires p <= |s|
    decreases |s| - p
  {
    if p == |s| then []
    else
      var one := EncodeOne(s, p, ascii);
      one.bytes + EncodeFrom(s, one.end, ascii)
  }

  lemma EncodeStep(s: Bytes, p: nat, ascii: bool)
    requires p < |s|
    ensures var one := EncodeOne(s, p, ascii); EncodeFrom(s, p, ascii) == one.bytes + EncodeFrom(s, one.end, ascii)
  {
    hide EncodeOne;
  }

  lemma NothingToEncode(s: Bytes, ascii: bool)
    ensures EncodeFrom(s, |s|, ascii) == []
  {
  }

  /** string_utf8_encode: copies runs of regular bytes, rewrites the rest. */
  method Encode(s: Bytes, ascii: bool) returns (buffer: Bytes)
    ensures buffer == EncodeFrom(s, 0, ascii)
  {
    hide EncodeFrom, Put, Escape, PutCode, GetFrom;
    NothingToEncode(s, ascii);
    buffer := [];
    var p := 0;
    while p != |s|
      invariant p <= |s|
      invariant EncodeFrom(s, 0, ascii) == buffer + EncodeFrom(s, p, ascii)
      decreases |s| - p
    {
      ghost var before := buffer;
      var start := p;
      EncodeStep(s, p, ascii);
      if Regular(s[p]) {
        p := EndOfRun(s, p);
        EncodeRun(s, start, p, ascii);
        buffer := buffer + s[start..p];
        Regroup(before, s[start..p], EncodeFrom(s, p, ascii));
      } else if s[p] >= 0x80 {
        GetBounds(s, p, |s|);
        var code, end := GetChar(s, p, |s|);
        buffer := buffer + PutCode(code, ascii);
        p := end;
        Regroup(before, PutCode(code, ascii), EncodeFrom(s, p, ascii));
      } else {
        buffer := buffer + Escape(s[p]);
        p := p + 1;
        Regroup(before, Escape(s[start]), EncodeFrom(s, p, ascii));
      }
    }
  }

  /** The inner loop of both directions: past a run of regular bytes. */
  method EndOfRun(t: Bytes, start: nat) returns (p: nat)
    requires start < |t| && Regular(t[start])
    ensures start < p <= |t| && !Regular(Read(t, p)) && forall i :: start <= i < p ==> Regular(t[i])
  {
    p := start + 1;
    while Regular(Read(t, p))
      invariant start < p <= |t|
      invariant forall i :: start <= i < p ==> Regular(t[i])
      decreases |t| - p
    {
      p := p + 1;
    }
  }

  lemma EncodeRegular(s: Bytes, p: nat, ascii: bool)
    requires p < |s| && Regular(s[p])
    ensures EncodeFrom(s, p, ascii) == [s[p]] + EncodeFrom(s, p + 1, ascii)
  {
  }

  lemma {:induction false} EncodeRun(s: Bytes, start: nat, p: nat, ascii: bool)
    requires start <= p <= |s| && forall i :: start <= i < p ==> Regular(s[i])
    ensures EncodeFrom(s, start, ascii) == s[start..p] + EncodeFrom(s, p, ascii)
    decreases p - start
  {
    if start < p {
      EncodeRun(s, start + 1, p, ascii);
      EncodeRegular(s, start, ascii);
      Regroup([s[start]], s[start + 1..p], EncodeFrom(s, p, ascii));
      assert s[start..p] == [s[start]] + s[start + 1..p];
    } else {
      assert s[start..p] == [];
    }
  }

  // ---- the decoder

  /** The byte of a two-character escape. */
  function Unescape(c: byte): (r: (bool, byte)) {
    if c == QUOTE || c == BACKSLASH || c == SLASH then (true, c)
    else if c == 0x62 then (true, 0x08)
    else if c == 0x66 then (true, 0x0C)
    else if c == 0x6E then (true, 0x0A)
    else if c == 0x72 then (true, 0x0D)
    else if c == 0x74 then (true, 0x09)
    else (false, 0)
  }

  /** One character or escape at p. The end is p itself where the decoder stops; a malformed \u escape
      still appends a zero byte before it stops. */
  function DecodeOne(t: Bytes, p: nat): (r: Token)
    ensures p <= r.end
    ensures p < r.end ==> p < |t|
  {
    var c := Read(t, p);
    if Regular(c) then Token([c], p + 1)
    else if c >= 0x80 then
      GetBounds(t, p, p + 4);
      Token(Put(Get(t, p, p + 4).code), Get(t, p, p + 4).end)
    else if c == BACKSLASH then
      if Read(t, p + 1) == 0x75 then Token(Put(GetEncoded(t, p).0), GetEncoded(t, p).1)
      else if Unescape(Read(t, p + 1)).0 then Token([Unescape(Read(t, p + 1)).1], p + 2)
      else Token([], p)
    else Token([], p)
  }

  function DecodeFrom(t: Bytes, p: nat): (r: Token)
    ensures p <= r.end
    decreases if p < |t| then |t| - p else 0
  {
    var one := DecodeOne(t, p);
    if one.end == p then one
    else
      var rest := DecodeFrom(t, one.end);
      Token(one.bytes + rest.bytes, rest.end)
  }

  /** string_utf8_decode: copies runs of regular bytes, translates the rest, and stops at the first
      byte it makes no progress on. */
  method Decode(t: Bytes, from: nat) returns (buffer: Bytes, p: nat)
    ensures Token(buffer, p) == DecodeFrom(t, from)
  {
    buffer := [];
    p := from;
    while true
      invariant from <= p
      invariant DecodeFrom(t, from) == Prefixed(buffer, DecodeFrom(t, p))
      decreases if p < |t| then |t| - p else 0
    {
      var start := p;
      var c := Read(t, p);
      if Regular(c) {
        p := EndOfRun(t, p);
        DecodeRun(t, start, p);
        Regroup(buffer, t[start..p], DecodeFrom(t, p).bytes);
        buffer := buffer + t[start..p];
      } else {
        var bytes;
        bytes, p := TranslateOne(t, p);
        Regroup(buffer, bytes, DecodeFrom(t, p).bytes);
        buffer := buffer + bytes;
      }
      if p == start {
        break;
      }
    }
  }

  function Prefixed(bytes: Bytes, r: Token): Token {
    Token(bytes + r.bytes, r.end)
  }

  /** The branches for anything but a regular byte. */
  method TranslateOne(t: Bytes, start: nat) returns (bytes: Bytes, p: nat)
    requires !Regular(Read(t, start))
    ensures Token(bytes, p) == DecodeOne(t, start)
  {
    bytes, p := [], start;
    var c := Read(t, start);
    if c >= 0x80 {
      GetBounds(t, p, p + 4);
      var code, end := GetChar(t, p, p + 4);
      bytes, p := Put(code), end;
    } else if c == BACKSLASH {
      if Read(t, p + 1) == 0x75 {
        var (code, end) := GetEncoded(t, p);
        bytes, p := Put(code), end;
      } else {
        var (known, b) := Unescape(Read(t, p + 1));
        if known {
          bytes, p := [b], p + 2;
        }
      }
    }
  }

  lemma DecodeRegular(t: Bytes, p: nat)
    requires p < |t| && Regular(t[p])
    ensures DecodeFrom(t, p) == Prefixed([t[p]], DecodeFrom(t, p + 1))
  {
  }

  lemma {:induction false} DecodeRun(t: Bytes, start: nat, p: nat)
    requires start <= p <= |t| && forall i :: start <= i < p ==> Regular(t[i])
    ensures DecodeFrom(t, start) == Prefixed(t[start..p], DecodeFrom(t, p))
    decreases p - start
  {
    if start < p {
      DecodeRun(t, start + 1, p);
      DecodeRegular(t, start);
      Regroup([t[start]], t[start + 1..p], DecodeFrom(t, p).bytes);
      assert t[start..p] == [t[start]] + t[start + 1..p];
    } else {
      assert t[start..p] == [];
    }
  }
}
