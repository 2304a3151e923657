/** The size lines that http_chunk_size takes, with white space and extensions. */
module HttpChunkLine {
  import opened Utf8
  import opened Hex
  import opened HttpChunk
  import opened ChunkGrammar

  /** Blanks, hexadecimal digits, blanks, and an extension that begins with a semicolon, in front of 0D 0A. */
  datatype SizeLine = SizeLine(lead: Bytes, digits: Bytes, gap: Bytes, ext: Bytes)

  predicate Blanks(s: Bytes) {
    forall i :: 0 <= i < |s| ==> s[i] == 0x20 || s[i] == 0x09
  }

  predicate Digits(s: Bytes) {
    forall i :: 0 <= i < |s| ==> Nibble(s[i]) < 16
  }

  predicate IsSizeLine(l: SizeLine) {
    && Blanks(l.lead) && l.digits != [] && Digits(l.digits) && Blanks(l.gap)
    && NoBreak(l.ext) && (l.ext != [] ==> l.ext[0] == 0x3B)
  }

  function SizeLineText(l: SizeLine): Bytes {
    l.lead + (l.digits + (l.gap + (l.ext + [0x0D, 0x0A])))
  }

  lemma {:induction false} SizeIsNumber(digits: Bytes)
    requires Digits(digits)
    ensures (forall i :: 0 <= i < |digits| ==> IsHex(digits[i])) && HexNumber(digits) == SizeOf(digits)
  {
    forall i | 0 <= i < |digits| ensures IsHex(digits[i]) {
      NibbleIs(digits[i]);
    }
    if digits != [] {
      SizeIsNumber(digits[..|digits| - 1]);
      NibbleIs(digits[|digits| - 1]);
      hide Nibble, IsHex, HexValue;
    }
  }

  lemma ReadThere(s: Bytes, i: nat, x: Bytes, k: nat)
    requires At(s, i, x) && k < |x|
    ensures Read(s, i + k) == x[k] && i + k < |s|
  {
    assert s[i..i + |x|][k] == s[i + k];
  }

  lemma {:induction false} BlanksSkipped(s: Bytes, i: nat, x: Bytes)
    requires At(s, i, x) && Blanks(x) && Read(s, i + |x|) != 0x20 && Read(s, i + |x|) != 0x09
    ensures SkipBlank(s, i) == i + |x|
    decreases |x|
  {
    if x != [] {
      FirstAt(s, i, x);
      BlanksSkipped(s, i + 1, x[1..]);
    }
  }

  lemma {:induction false} DigitsSkipped(s: Bytes, i: nat, x: Bytes)
    requires At(s, i, x) && Digits(x) && Nibble(Read(s, i + |x|)) == 16
    ensures SkipHex(s, i) == i + |x|
    decreases |x|
  {
    NibbleIs(Read(s, i));
    hide Nibble, IsHex;
    if x != [] {
      FirstAt(s, i, x);
      DigitsSkipped(s, i + 1, x[1..]);
    }
  }

  lemma {:induction false} BreakFound(s: Bytes, i: nat, x: Bytes)
    requires At(s, i, x) && NoBreak(x) && i + |x| < |s| && s[i + |x|] == 0x0A
    ensures LineEnd(s, i) == i + |x|
    decreases |x|
  {
    if x != [] {
      FirstAt(s, i, x);
      BreakFound(s, i + 1, x[1..]);
    }
  }

  /** A line of the grammar is taken with its size, unless that is too large. */
  lemma LineTaken(s: Bytes, l: SizeLine)
    requires IsSizeLine(l) && At(s, 0, SizeLineText(l))
    ensures ChunkSize(s) == if SizeOf(l.digits) < ULONG_MAX then Line(|SizeLineText(l)|, SizeOf(l.digits)) else BadLine
  {
    hide ChunkSize, SizeOf, SkipBlank, SkipHex, LineEnd, At, Blanks, Digits, NoBreak;
    var a := |l.lead|;
    var b := a + |l.digits|;
    var c := b + |l.gap|;
    var e := c + |l.ext|;
    LinePieces(s, l);
    LineMarks(s, l);
    BlanksSkipped(s, 0, l.lead);
    DigitsSkipped(s, a, l.digits);
    BlanksSkipped(s, b, l.gap);
    FirstBreak(s, l);
    DigitsThere(s, a, l.digits);
    SizeIsNumber(l.digits);
    TakenFrom(s, a, b, c, e, l.digits);
  }

  lemma DigitsThere(s: Bytes, a: nat, digits: Bytes)
    requires At(s, a, digits)
    ensures a + |digits| <= |s| && s[a..a + |digits|] == digits
  {
  }

  lemma LinePieces(s: Bytes, l: SizeLine)
    requires At(s, 0, SizeLineText(l))
    ensures var a := |l.lead|;
      var b := a + |l.digits|;
      var c := b + |l.gap|;
      var e := c + |l.ext|;
      && At(s, 0, l.lead) && At(s, a, l.digits) && At(s, b, l.gap) && At(s, c, l.ext)
      && |s| >= e + 2 && s[e] == 0x0D && s[e + 1] == 0x0A && |SizeLineText(l)| == e + 2
  {
    hide At;
    var a := |l.lead|;
    var b := a + |l.digits|;
    var c := b + |l.gap|;
    var t3: Bytes := [0x0D, 0x0A];
    var t2 := l.ext + t3;
    var t1 := l.gap + t2;
    var t0 := l.digits + t1;
    assert SizeLineText(l) == l.lead + t0;
    hide *;
    SplitAt(s, 0, l.lead, t0);
    SplitAt(s, a, l.digits, t1);
    SplitAt(s, b, l.gap, t2);
    SplitAt(s, c, l.ext, t3);
    TwoAt(s, c + |l.ext|);
  }

  lemma TwoAt(s: Bytes, i: nat)
    requires At(s, i, [0x0D, 0x0A])
    ensures i + 2 <= |s| && s[i] == 0x0D && s[i + 1] == 0x0A
  {
    assert s[i..i + 2][0] == s[i] && s[i..i + 2][1] == s[i + 1];
  }

  /** What stands behind each part of the line is no part of it. */
  lemma LineMarks(s: Bytes, l: SizeLine)
    requires IsSizeLine(l) && At(s, 0, SizeLineText(l))
    ensures var a := |l.lead|;
      var b := a + |l.digits|;
      var c := b + |l.gap|;
      && Read(s, a) != 0x20 && Read(s, a) != 0x09 && Nibble(Read(s, b)) == 16
      && Read(s, c) == (if l.ext == [] then 0x0D else 0x3B)
  {
    LinePieces(s, l);
    hide At;
    var a := |l.lead|;
    var b := a + |l.digits|;
    var c := b + |l.gap|;
    FirstAt(s, a, l.digits);
    if l.ext != [] {
      FirstAt(s, c, l.ext);
    }
    if l.gap != [] {
      FirstAt(s, b, l.gap);
    }
  }

  /** The only line break of the line is at its end. */
  lemma FirstBreak(s: Bytes, l: SizeLine)
    requires IsSizeLine(l) && At(s, 0, SizeLineText(l))
    ensures var c := |l.lead| + |l.digits| + |l.gap|;
      var e := c + |l.ext|;
      LineEnd(s, 0) == e + 1 && LineEnd(s, c) == e + 1
  {
    LinePieces(s, l);
    var c := |l.lead| + |l.digits| + |l.gap|;
    var e := c + |l.ext|;
    assert At(s, c, l.ext + [0x0D]) by {
      OneAt(s, e);
      JoinAt(s, c, l.ext, [0x0D]);
    }
    BreakFound(s, c, l.ext + [0x0D]);
    NoBreakBefore(s, l);
    assert At(s, 0, s[0..e + 1]);
    BreakFound(s, 0, s[0..e + 1]);
  }

  lemma NoBreakBefore(s: Bytes, l: SizeLine)
    requires IsSizeLine(l) && At(s, 0, SizeLineText(l))
    ensures var e := |l.lead| + |l.digits| + |l.gap| + |l.ext|; e + 1 < |s| && NoBreak(s[0..e + 1])
  {
    LinePieces(s, l);
    var t := SizeLineText(l);
    var e := |l.lead| + |l.digits| + |l.gap| + |l.ext|;
    assert s[0..e + 1] == t[..e + 1];
    forall i | 0 <= i < e + 1 ensures t[i] != 0x0A {
      var a := |l.lead|;
      var b := a + |l.digits|;
      var c := b + |l.gap|;
      if i < a {
        assert t[i] == l.lead[i];
      } else if i < b {
        assert t[i] == l.digits[i - a];
      } else if i < c {
        assert t[i] == l.gap[i - b];
      } else if i < e {
        assert t[i] == l.ext[i - c];
      }
    }
  }

  lemma TakenFrom(s: Bytes, a: nat, b: nat, c: nat, e: nat, digits: Bytes)
    requires a < b <= c <= e && e + 1 < |s| && s[a..b] == digits && (forall i :: 0 <= i < |digits| ==> IsHex(digits[i]))
    requires SkipBlank(s, 0) == a && SkipHex(s, a) == b && SkipBlank(s, b) == c
    requires LineEnd(s, 0) == e + 1 && LineEnd(s, c) == e + 1 && s[e] == 0x0D && s[e + 1] == 0x0A
    requires if c == e then s[c] == 0x0D else s[c] == 0x3B
    ensures ChunkSize(s) == if HexNumber(digits) < ULONG_MAX then Line(e + 2, HexNumber(digits)) else BadLine
  {
    hide SkipBlank, SkipHex, LineEnd, HexNumber, IsHex;
  }

  // ---- back from the answer to the line

  lemma {:induction false} BlanksBetween(s: Bytes, i: nat)
    requires i <= |s|
    ensures i <= SkipBlank(s, i) <= |s| && Blanks(s[i..SkipBlank(s, i)])
    decreases |s| - i
  {
    var q := SkipBlank(s, i);
    if i < |s| && IsBlank(s[i]) {
      BlanksBetween(s, i + 1);
      assert s[i..q] == [s[i]] + s[i + 1..q];
    } else {
      assert s[i..i] == [];
    }
  }

  /** What is taken as a size line is one. */
  lemma LineGiven(s: Bytes) returns (l: SizeLine)
    requires ChunkSize(s).Line?
    ensures IsSizeLine(l) && At(s, 0, SizeLineText(l))
  {
    var a := SkipBlank(s, 0);
    var b := SkipHex(s, a);
    BlanksBetween(s, 0);
    BlanksBetween(s, b);
    var c := SkipBlank(s, b);
    var lf := if Read(s, c) == 0x3B then LineEnd(s, c) else c + 1;
    assert lf < |s| && s[lf] == 0x0A && s[lf - 1] == 0x0D && a < b;
    DigitsBetween(s, a, b);
    var e := lf - 1;
    assert c <= e;
    l := SizeLine(s[0..a], s[a..b], s[b..c], s[c..e]);
    NoBreakBetween(s, c, e);
    assert e > c ==> Read(s, c) == 0x3B;
    hide ChunkSize, SkipBlank, SkipHex, LineEnd, Blanks, Digits, NoBreak;
    Assembled(s, a, b, c, e);
  }

  lemma DigitsBetween(s: Bytes, a: nat, b: nat)
    requires a <= b <= |s| && forall i :: a <= i < b ==> IsHex(Read(s, i))
    ensures Digits(s[a..b])
  {
    forall i | 0 <= i < b - a ensures Nibble(s[a..b][i]) < 16 {
      assert IsHex(Read(s, a + i));
      NibbleIs(s[a + i]);
    }
  }

  lemma NoBreakBetween(s: Bytes, c: nat, e: nat)
    requires c <= e < |s| && (e == c || e < LineEnd(s, c))
    ensures NoBreak(s[c..e])
  {
  }

  lemma Assembled(s: Bytes, a: nat, b: nat, c: nat, e: nat)
    requires a <= b <= c <= e && e + 1 < |s| && s[e] == 0x0D && s[e + 1] == 0x0A
    ensures At(s, 0, SizeLineText(SizeLine(s[0..a], s[a..b], s[b..c], s[c..e])))
  {
    assert s[0..e + 2] == s[0..a] + (s[a..b] + (s[b..c] + (s[c..e] + [0x0D, 0x0A])));
  }

  /**
   * http_chunk_size waits exactly as long as there is no line feed. Otherwise it takes exactly the lines of the
   * grammar whose size is below ULONG_MAX, with their length and size, and refuses everything else.
   */
  lemma SizeLineGrammar(s: Bytes)
    ensures ChunkSize(s).NoLine? <==> 0x0A !in s
    ensures ChunkSize(s).Line? <==>
      exists l :: IsSizeLine(l) && At(s, 0, SizeLineText(l)) && SizeOf(l.digits) < 0xFFFF_FFFF_FFFF_FFFF
    ensures forall l :: IsSizeLine(l) && At(s, 0, SizeLineText(l)) && SizeOf(l.digits) < 0xFFFF_FFFF_FFFF_FFFF ==>
              ChunkSize(s) == Line(|SizeLineText(l)|, SizeOf(l.digits))
  {
    LineFeed(s);
    hide ChunkSize, At, IsSizeLine, SizeLineText, SizeOf;
    forall l | IsSizeLine(l) && At(s, 0, SizeLineText(l))
      ensures ChunkSize(s)
           == if SizeOf(l.digits) < ULONG_MAX then Line(|SizeLineText(l)|, SizeOf(l.digits)) else BadLine
    {
      LineTaken(s, l);
    }
    if ChunkSize(s).Line? {
      var l := LineGiven(s);
    }
  }

  lemma LineFeed(s: Bytes)
    ensures ChunkSize(s).NoLine? <==> 0x0A !in s
  {
    hide SkipBlank, SkipHex, HexNumber;
    assert LineEnd(s, 0) < |s| ==> s[LineEnd(s, 0)] == 0x0A;
  }
}
