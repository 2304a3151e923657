/** The chunked bodies that phr_decode_chunked takes, after section 4.1 of RFC 7230: extensions, trailers and all. */
module ChunkGrammar {
  import opened Utf8
  import opened Hex
  import opened ChunkDecoder
  import Call = ChunkDecodeCall

  /** A size in hexadecimal digits, the rest of its line, the data, and a number of 0D bytes in front of the 0A. */
  datatype Chunk = Chunk(size: Bytes, ext: Bytes, data: Bytes, crs: nat)

  /** A line that is not empty; it begins behind any number of 0D bytes. */
  datatype Trailer = Trailer(crs: nat, first: byte, rest: Bytes)

  /** The chunks with data, the line of the last chunk, and, where trailers are consumed, these and an empty line. */
  datatype Body = Body(chunks: seq<Chunk>, size: Bytes, ext: Bytes, trailers: seq<Trailer>, crs: nat)

  function SizeOf(size: Bytes): nat {
    if size == [] then 0 else 16 * SizeOf(size[..|size| - 1]) + Nibble(size[|size| - 1])
  }

  /** One to sixteen hexadecimal digits. */
  predicate IsSize(size: Bytes) {
    1 <= |size| <= 16 && forall i :: 0 <= i < |size| ==> Nibble(size[i]) < 16
  }

  predicate NoBreak(s: Bytes) {
    forall i :: 0 <= i < |s| ==> s[i] != 0x0A
  }

  /** What may stand behind the size in its line. */
  predicate IsExt(ext: Bytes) {
    NoBreak(ext) && (ext != [] ==> Nibble(ext[0]) == 16)
  }

  predicate IsChunk(c: Chunk) {
    IsSize(c.size) && IsExt(c.ext) && |c.data| == SizeOf(c.size) && c.data != []
  }

  predicate IsTrailer(t: Trailer) {
    t.first != 0x0D && t.first != 0x0A && NoBreak(t.rest)
  }

  predicate IsBody(b: Body) {
    && (forall k :: 0 <= k < |b.chunks| ==> IsChunk(b.chunks[k])) && IsSize(b.size) && SizeOf(b.size) == 0
      && IsExt(b.ext)
    && (forall k :: 0 <= k < |b.trailers| ==> IsTrailer(b.trailers[k]))
  }

  /** Any number of 0D bytes. */
  function Returns(n: nat): Bytes {
    seq<byte>(n, _ => 0x0D)
  }

  function SizeText(size: Bytes, ext: Bytes): Bytes {
    size + (ext + [0x0A])
  }

  function ChunkText(c: Chunk): Bytes {
    SizeText(c.size, c.ext) + (c.data + (Returns(c.crs) + [0x0A]))
  }

  function TrailerText(t: Trailer): Bytes {
    Returns(t.crs) + ([t.first] + (t.rest + [0x0A]))
  }

  function ChunksText(cs: seq<Chunk>): Bytes {
    if cs == [] then [] else ChunkText(cs[0]) + ChunksText(cs[1..])
  }

  function TrailersText(ts: seq<Trailer>, crs: nat): Bytes {
    if ts == [] then Returns(crs) + [0x0A] else TrailerText(ts[0]) + TrailersText(ts[1..], crs)
  }

  /** The text of a body; without consume_trailer it ends with the line of the last chunk. */
  function BodyText(b: Body, trailer: bool): Bytes {
    ChunksText(b.chunks) + (SizeText(b.size, b.ext) + (if trailer then TrailersText(b.trailers, b.crs) else []))
  }

  function Payload(cs: seq<Chunk>): Bytes {
    if cs == [] then [] else cs[0].data + Payload(cs[1..])
  }

  // ---- pieces of input

  predicate At(s: Bytes, i: nat, x: Bytes) {
    i + |x| <= |s| && s[i..i + |x|] == x
  }

  lemma SplitAt(s: Bytes, i: nat, x: Bytes, y: Bytes)
    requires At(s, i, x + y)
    ensures At(s, i, x) && At(s, i + |x|, y)
  {
    var w := s[i..i + |x + y|];
    assert s[i..i + |x|] == w[..|x|] == x;
    assert s[i + |x|..i + |x| + |y|] == w[|x|..] == y;
  }

  lemma JoinAt(s: Bytes, i: nat, x: Bytes, y: Bytes)
    requires At(s, i, x) && At(s, i + |x|, y)
    ensures At(s, i, x + y)
  {
    assert s[i..i + |x| + |y|] == s[i..i + |x|] + s[i + |x|..i + |x| + |y|];
  }

  lemma SliceAt(s: Bytes, i: nat, j: nat)
    requires i <= j <= |s|
    ensures At(s, i, s[i..j])
  {
  }

  lemma OneAt(s: Bytes, i: nat)
    ensures i < |s| ==> At(s, i, [s[i]])
    ensures i <= |s| ==> At(s, i, [])
  {
  }

  lemma FirstAt(s: Bytes, i: nat, x: Bytes)
    requires At(s, i, x) && x != []
    ensures i < |s| && s[i] == x[0] && At(s, i + 1, x[1..])
  {
    assert s[i..i + |x|][0] == s[i];
    assert s[i + 1..i + |x|] == s[i..i + |x|][1..];
  }

  // ---- single steps

  /** A byte that is consumed without output. */
  lemma Quiet(d: Decoder, s: Bytes, i: nat)
    requires i < |s| && Step(d, s[i]).verdict == More && !Step(d, s[i]).emits
    ensures Run(d, s, i) == Run(Step(d, s[i]).decoder, s, i + 1)
  {
    hide Step;
    assert forall r: Result :: Emitting([], r) == r;
  }

  lemma Final(d: Decoder, s: Bytes, i: nat)
    requires i < |s| && Step(d, s[i]).verdict == Finished
    ensures Run(d, s, i) == Result(Step(d, s[i]).decoder, [], i + 1, Finished)
  {
    hide Step;
  }

  lemma NotFinished(d: Decoder, s: Bytes, i: nat)
    requires i <= |s| && Run(d, s, i).verdict == Finished
    ensures i < |s| && Step(d, s[i]).verdict != Failed
  {
    hide Step;
  }

  // ---- from a body to the decoder's run

  lemma {:induction false} SizeRun(d: Decoder, s: Bytes, i: nat, size: Bytes)
    requires d == Decoder(0, d.trailer, 0, Size) && |size| <= 16 && At(s, i, size)
    requires forall k :: 0 <= k < |size| ==> Nibble(size[k]) < 16
    ensures Run(d, s, i) == Run(d.(left := SizeOf(size), hex := |size|), s, i + |size|)
    decreases |size|
  {
    hide Run, Nibble, IsHex, HexValue;
    if size != [] {
      var n := |size| - 1;
      assert size == size[..n] + [size[n]];
      SplitAt(s, i, size[..n], [size[n]]);
      FirstAt(s, i + n, [size[n]]);
      SizeRun(d, s, i, size[..n]);
      NibbleIs(size[n]);
      Quiet(d.(left := SizeOf(size[..n]), hex := n), s, i + n);
    }
  }

  lemma {:induction false} ExtRun(d: Decoder, s: Bytes, i: nat, ext: Bytes)
    requires d.phase.Ext? && NoBreak(ext) && At(s, i, ext)
    ensures Run(d, s, i) == Run(d, s, i + |ext|)
    decreases |ext|
  {
    hide Run;
    if ext != [] {
      FirstAt(s, i, ext);
      Quiet(d, s, i);
      ExtRun(d, s, i + 1, ext[1..]);
    }
  }

  /** The decoder at the end of a size line. */
  function AfterLine(n: nat, trailer: bool): Decoder {
    Decoder(n, trailer, 0, if n > 0 then Data else LineHead)
  }

  /** The size, and whatever stands behind it up to the end of the line. */
  lemma LineRun(t: bool, s: Bytes, i: nat, size: Bytes, ext: Bytes)
    requires IsSize(size) && IsExt(ext) && At(s, i, SizeText(size, ext))
    ensures var end := i + |SizeText(size, ext)|;
      Run(Decoder(0, t, 0, Size), s, i)
      == if SizeOf(size) > 0 || t then Run(AfterLine(SizeOf(size), t), s, end)
         else Result(Decoder(0, t, 0, Ext), [], end, Finished)
  {
    hide Run, SizeOf, Nibble, IsHex, HexValue;
    var n, j := SizeOf(size), i + |size|;
    SplitAt(s, i, size, ext + [0x0A]);
    SplitAt(s, j, ext, [0x0A]);
    FirstAt(s, j + |ext|, [0x0A]);
    SizeRun(Decoder(0, t, 0, Size), s, i, size);
    NibbleIs(s[j]);
    BreakIsNoDigit();
    if ext == [] {
      LastOfLine(Decoder(n, t, |size|, Size), s, j);
    } else {
      FirstAt(s, j, ext);
      Quiet(Decoder(n, t, |size|, Size), s, j);
      ExtRun(Decoder(n, t, 0, Ext), s, j + 1, ext[1..]);
      LastOfLine(Decoder(n, t, 0, Ext), s, j + |ext|);
    }
  }

  lemma BreakIsNoDigit()
    ensures Nibble(0x0A) == 16 && !IsHex(0x0A)
  {
  }

  lemma LastOfLine(d: Decoder, s: Bytes, j: nat)
    requires j < |s| && s[j] == 0x0A && (d.phase.Ext? || (d.phase.Size? && d.hex > 0)) && (d.phase.Ext? ==> d.hex == 0)
    ensures Run(d, s, j) == if d.left > 0 || d.trailer then Run(AfterLine(d.left, d.trailer), s, j + 1)
                            else Result(d.(hex := 0, phase := Ext), [], j + 1, Finished)
  {
    hide Run;
    if d.left > 0 || d.trailer {
      Quiet(d, s, j);
    } else {
      Final(d, s, j);
    }
  }

  lemma {:induction false} ReturnsRun(d: Decoder, s: Bytes, i: nat, n: nat)
    requires (d.phase.Crlf? || d.phase.LineHead?) && At(s, i, Returns(n))
    ensures Run(d, s, i) == Run(d, s, i + n)
    decreases n
  {
    hide Run;
    if n > 0 {
      FirstAt(s, i, Returns(n));
      assert Returns(n)[1..] == Returns(n - 1);
      Quiet(d, s, i);
      ReturnsRun(d, s, i + 1, n - 1);
    }
  }

  lemma ChunkRun(t: bool, s: Bytes, i: nat, c: Chunk)
    requires IsChunk(c) && At(s, i, ChunkText(c))
    ensures Run(Decoder(0, t, 0, Size), s, i)
         == Emitting(c.data, Run(Decoder(0, t, 0, Size), s, i + |ChunkText(c)|))
  {
    hide Run, SizeText, Returns, IsSize, IsExt, SizeOf;
    var j := i + |SizeText(c.size, c.ext)|;
    var k := j + |c.data|;
    SplitAt(s, i, SizeText(c.size, c.ext), c.data + (Returns(c.crs) + [0x0A]));
    SplitAt(s, j, c.data, Returns(c.crs) + [0x0A]);
    SplitAt(s, k, Returns(c.crs), [0x0A]);
    LineRun(t, s, i, c.size, c.ext);
    Call.RunData(Decoder(|c.data|, t, 0, Data), s, j, |c.data|);
    ReturnsSize(c.crs);
    ReturnsRun(Decoder(0, t, 0, Crlf), s, k, c.crs);
    FirstAt(s, k + c.crs, [0x0A]);
    Quiet(Decoder(0, t, 0, Crlf), s, k + c.crs);
  }

  lemma ReturnsSize(n: nat)
    ensures |Returns(n)| == n
  {
  }

  lemma {:induction false} RestRun(d: Decoder, s: Bytes, i: nat, rest: Bytes)
    requires d.phase.LineMiddle? && NoBreak(rest) && At(s, i, rest)
    ensures Run(d, s, i) == Run(d, s, i + |rest|)
    decreases |rest|
  {
    hide Run;
    if rest != [] {
      FirstAt(s, i, rest);
      Quiet(d, s, i);
      RestRun(d, s, i + 1, rest[1..]);
    }
  }

  lemma TrailerRun(d: Decoder, s: Bytes, i: nat, t: Trailer)
    requires d.phase.LineHead? && IsTrailer(t) && At(s, i, TrailerText(t))
    ensures Run(d, s, i) == Run(d, s, i + |TrailerText(t)|)
  {
    hide Run, Returns;
    ReturnsSize(t.crs);
    var j := i + t.crs;
    SplitAt(s, i, Returns(t.crs), [t.first] + (t.rest + [0x0A]));
    SplitAt(s, j, [t.first], t.rest + [0x0A]);
    SplitAt(s, j + 1, t.rest, [0x0A]);
    ReturnsRun(d, s, i, t.crs);
    FirstAt(s, j, [t.first]);
    Quiet(d, s, j);
    RestRun(d.(phase := LineMiddle), s, j + 1, t.rest);
    FirstAt(s, j + 1 + |t.rest|, [0x0A]);
    Quiet(d.(phase := LineMiddle), s, j + 1 + |t.rest|);
  }

  lemma {:induction false} TrailersRun(d: Decoder, s: Bytes, i: nat, ts: seq<Trailer>, crs: nat)
    requires d.phase.LineHead? && (forall k :: 0 <= k < |ts| ==> IsTrailer(ts[k])) && At(s, i, TrailersText(ts, crs))
    ensures Run(d, s, i) == Result(d, [], i + |TrailersText(ts, crs)|, Finished)
    decreases |ts|
  {
    hide Run, TrailerText, IsTrailer, Returns;
    if ts == [] {
      ReturnsSize(crs);
      SplitAt(s, i, Returns(crs), [0x0A]);
      ReturnsRun(d, s, i, crs);
      FirstAt(s, i + crs, [0x0A]);
      Final(d, s, i + crs);
    } else {
      SplitAt(s, i, TrailerText(ts[0]), TrailersText(ts[1..], crs));
      TrailerRun(d, s, i, ts[0]);
      TrailersRun(d, s, i + |TrailerText(ts[0])|, ts[1..], crs);
    }
  }

  lemma {:induction false} ChunksRun(t: bool, s: Bytes, i: nat, cs: seq<Chunk>)
    requires (forall k :: 0 <= k < |cs| ==> IsChunk(cs[k])) && At(s, i, ChunksText(cs))
    ensures Run(Decoder(0, t, 0, Size), s, i)
         == Emitting(Payload(cs), Run(Decoder(0, t, 0, Size), s, i + |ChunksText(cs)|))
    decreases |cs|
  {
    hide Run, ChunkText, IsChunk;
    if cs == [] {
      assert forall r: Result :: Emitting([], r) == r;
    } else {
      SplitAt(s, i, ChunkText(cs[0]), ChunksText(cs[1..]));
      ChunkRun(t, s, i, cs[0]);
      ChunksRun(t, s, i + |ChunkText(cs[0])|, cs[1..]);
      Call.EmitTwice(cs[0].data, Payload(cs[1..]), Run(Decoder(0, t, 0, Size), s, i + |ChunksText(cs)|));
    }
  }

  /** The decoder when a body is complete. */
  function AtEnd(trailer: bool): Decoder {
    Decoder(0, trailer, 0, if trailer then LineHead else Ext)
  }

  /** Where a body of the grammar stands, the decoder takes it whole and puts out its data. */
  lemma BodyRun(t: bool, s: Bytes, b: Body)
    requires IsBody(b) && At(s, 0, BodyText(b, t))
    ensures Run(Decoder(0, t, 0, Size), s, 0) == Result(AtEnd(t), Payload(b.chunks), |BodyText(b, t)|, Finished)
  {
    hide Run, ChunksText, SizeText, TrailersText, IsSize, IsExt, SizeOf;
    var tail := if t then TrailersText(b.trailers, b.crs) else [];
    var i := |ChunksText(b.chunks)|;
    SplitAt(s, 0, ChunksText(b.chunks), SizeText(b.size, b.ext) + tail);
    SplitAt(s, i, SizeText(b.size, b.ext), tail);
    ChunksRun(t, s, 0, b.chunks);
    LineRun(t, s, i, b.size, b.ext);
    if t {
      TrailersRun(AtEnd(t), s, i + |SizeText(b.size, b.ext)|, b.trailers, b.crs);
    }
    assert Payload(b.chunks) + [] == Payload(b.chunks);
  }

  // ---- from the decoder's run to a body

  function DigitsEnd(s: Bytes, i: nat): (j: nat)
    requires i <= |s|
    ensures i <= j <= |s| && (forall k :: i <= k < j ==> Nibble(s[k]) < 16) && (j < |s| ==> Nibble(s[j]) == 16)
    decreases |s| - i
  {
    if i < |s| && Nibble(s[i]) < 16 then DigitsEnd(s, i + 1) else i
  }

  function BreakAt(s: Bytes, i: nat): (j: nat)
    requires i <= |s|
    ensures i <= j <= |s| && (forall k :: i <= k < j ==> s[k] != 0x0A) && (j < |s| ==> s[j] == 0x0A)
    decreases |s| - i
  {
    if i < |s| && s[i] != 0x0A then BreakAt(s, i + 1) else i
  }

  function ReturnsEnd(s: Bytes, i: nat): (j: nat)
    requires i <= |s|
    ensures i <= j <= |s| && (forall k :: i <= k < j ==> s[k] == 0x0D) && (j < |s| ==> s[j] != 0x0D)
    decreases |s| - i
  {
    if i < |s| && s[i] == 0x0D then ReturnsEnd(s, i + 1) else i
  }

  lemma NothingLeft(d: Decoder, s: Bytes)
    ensures Run(d, s, |s|).verdict == More
  {
  }

  lemma ReturnsThere(s: Bytes, i: nat, n: nat)
    requires i + n <= |s| && forall k :: i <= k < i + n ==> s[k] == 0x0D
    ensures At(s, i, Returns(n))
  {
    assert s[i..i + n] == Returns(n);
  }

  /** A run that finishes has one to sixteen digits first. */
  lemma SizeFound(t: bool, s: Bytes, i: nat) returns (size: Bytes)
    requires i <= |s| && Run(Decoder(0, t, 0, Size), s, i).verdict == Finished
    ensures IsSize(size) && At(s, i, size) && i + |size| < |s| && Nibble(s[i + |size|]) == 16
  {
    hide Run, SizeOf, Nibble, IsHex, HexValue;
    var d := Decoder(0, t, 0, Size);
    var j := DigitsEnd(s, i);
    var n := if j - i <= 16 then j - i else 16;
    size := s[i..i + n];
    assert At(s, i, size);
    SizeRun(d, s, i, size);
    var e := d.(left := SizeOf(size), hex := n);
    if i + n == |s| {
      NothingLeft(e, s);
    } else {
      NotFinished(e, s, i + n);
      NibbleIs(s[i + n]);
    }
  }

  lemma LineFound(t: bool, s: Bytes, i: nat) returns (size: Bytes, ext: Bytes)
    requires i <= |s| && Run(Decoder(0, t, 0, Size), s, i).verdict == Finished
    ensures IsSize(size) && IsExt(ext) && At(s, i, SizeText(size, ext))
  {
    hide Run, SizeOf, Nibble, IsHex, HexValue;
    size := SizeFound(t, s, i);
    var j := i + |size|;
    var k := BreakAt(s, j);
    ext := s[j..k];
    if k == |s| {
      SizeRun(Decoder(0, t, 0, Size), s, i, size);
      NibbleIs(s[j]);
      Quiet(Decoder(SizeOf(size), t, |size|, Size), s, j);
      assert At(s, j + 1, s[j + 1..]);
      ExtRun(Decoder(SizeOf(size), t, 0, Ext), s, j + 1, s[j + 1..]);
      NothingLeft(Decoder(SizeOf(size), t, 0, Ext), s);
    } else {
      assert At(s, j, ext);
      OneAt(s, k);
      JoinAt(s, j, ext, [0x0A]);
      JoinAt(s, i, size, ext + [0x0A]);
    }
  }

  /** Behind the data come any number of 0D bytes, and a 0A. */
  lemma CrlfFound(d: Decoder, s: Bytes, i: nat) returns (crs: nat)
    requires i <= |s| && d.phase.Crlf? && Run(d, s, i).verdict == Finished
    ensures At(s, i, Returns(crs) + [0x0A])
  {
    hide Run, Returns;
    var j := ReturnsEnd(s, i);
    crs := j - i;
    ReturnsThere(s, i, crs);
    ReturnsRun(d, s, i, crs);
    NotFinished(d, s, j);
    OneAt(s, j);
    ReturnsSize(crs);
    JoinAt(s, i, Returns(crs), [0x0A]);
  }

  lemma Delivered(out: Bytes, r: Result)
    ensures Emitting(out, r).verdict == r.verdict
  {
  }

  lemma WholeChunkFound(t: bool, s: Bytes, i: nat, size: Bytes, ext: Bytes) returns (c: Chunk)
    requires i <= |s| && Run(Decoder(0, t, 0, Size), s, i).verdict == Finished
    requires IsSize(size) && IsExt(ext) && At(s, i, SizeText(size, ext)) && SizeOf(size) > 0
    ensures IsChunk(c) && At(s, i, ChunkText(c))
  {
    hide Run, SizeText, Returns, IsSize, IsExt;
    var n, j := SizeOf(size), i + |SizeText(size, ext)|;
    LineRun(t, s, i, size, ext);
    DataThere(Decoder(n, t, 0, Data), s, j);
    Call.RunData(Decoder(n, t, 0, Data), s, j, n);
    var crs := CrlfFound(Decoder(0, t, 0, Crlf), s, j + n);
    c := Chunk(size, ext, s[j..j + n], crs);
    JoinAt(s, j, s[j..j + n], Returns(crs) + [0x0A]);
    JoinAt(s, i, SizeText(size, ext), s[j..j + n] + (Returns(crs) + [0x0A]));
  }

  /** A run that finishes has all the data. */
  lemma DataThere(d: Decoder, s: Bytes, j: nat)
    requires j <= |s| && d.phase.Data? && d.left > 0 && Run(d, s, j).verdict == Finished
    ensures j + d.left <= |s|
  {
    hide Run;
    if j == |s| {
      NothingLeft(d, s);
    } else if |s| - j < d.left {
      var e := d.(left := d.left - (|s| - j));
      Delivered(s[j..|s|], Run(e, s, |s|));
      NothingLeft(e, s);
      Call.RunData(d, s, j, |s| - j);
    }
  }

  lemma {:induction false} TrailersFound(d: Decoder, s: Bytes, i: nat) returns (ts: seq<Trailer>, crs: nat)
    requires i <= |s| && d.phase.LineHead? && Run(d, s, i).verdict == Finished
    ensures (forall k :: 0 <= k < |ts| ==> IsTrailer(ts[k])) && At(s, i, TrailersText(ts, crs))
    decreases |s| - i
  {
    hide Run, TrailerText, IsTrailer, Returns;
    var j := ReturnsEnd(s, i);
    crs := j - i;
    ReturnsThere(s, i, crs);
    ReturnsSize(crs);
    ReturnsRun(d, s, i, crs);
    NotFinished(d, s, j);
    OneAt(s, j);
    if s[j] == 0x0A {
      ts := [];
      JoinAt(s, i, Returns(crs), [0x0A]);
    } else {
      var t := TrailerFound(d, s, i, crs);
      TrailerRun(d, s, i, t);
      TrailerSize(t);
      var more, last := TrailersFound(d, s, i + |TrailerText(t)|);
      ts, crs := [t] + more, last;
      JoinAt(s, i, TrailerText(t), TrailersText(more, last));
      assert ts[1..] == more;
    }
  }

  lemma TrailerSize(t: Trailer)
    ensures |TrailerText(t)| > 0
  {
  }

  lemma TrailerFound(d: Decoder, s: Bytes, i: nat, crs: nat) returns (t: Trailer)
    requires i + crs < |s| && At(s, i, Returns(crs)) && d.phase.LineHead? && Run(d, s, i + crs).verdict == Finished
    requires s[i + crs] != 0x0D && s[i + crs] != 0x0A
    ensures IsTrailer(t) && At(s, i, TrailerText(t))
  {
    hide Run, Returns, At;
    var j := i + crs;
    ReturnsSize(crs);
    Quiet(d, s, j);
    var k := BreakAt(s, j + 1);
    t := Trailer(crs, s[j], s[j + 1..k]);
    var e := d.(phase := LineMiddle);
    SliceAt(s, j + 1, k);
    RestRun(e, s, j + 1, t.rest);
    if k == |s| {
      NothingLeft(e, s);
    } else {
      OneAt(s, k);
      JoinAt(s, j + 1, t.rest, [0x0A]);
      OneAt(s, j);
      JoinAt(s, j, [t.first], t.rest + [0x0A]);
      JoinAt(s, i, Returns(crs), [t.first] + (t.rest + [0x0A]));
    }
  }

  lemma {:induction false} BodyFound(t: bool, s: Bytes, i: nat) returns (b: Body)
    requires i <= |s| && Run(Decoder(0, t, 0, Size), s, i).verdict == Finished
    ensures IsBody(b) && At(s, i, BodyText(b, t))
    decreases |s| - i
  {
    hide Run, IsSize, IsExt, IsChunk, IsTrailer, SizeText, ChunkText, TrailersText;
    var size, ext := LineFound(t, s, i);
    LineRun(t, s, i, size, ext);
    if SizeOf(size) > 0 {
      var c := WholeChunkFound(t, s, i, size, ext);
      ChunkRun(t, s, i, c);
      ChunkNotEmpty(c);
      Delivered(c.data, Run(Decoder(0, t, 0, Size), s, i + |ChunkText(c)|));
      var more := BodyFound(t, s, i + |ChunkText(c)|);
      b := more.(chunks := [c] + more.chunks);
      JoinAt(s, i, ChunkText(c), BodyText(more, t));
      FirstChunk(c, more, t);
    } else {
      var ts, crs := [], 0;
      if t {
        ts, crs := TrailersFound(AtEnd(t), s, i + |SizeText(size, ext)|);
        JoinAt(s, i, SizeText(size, ext), TrailersText(ts, crs));
      }
      b := Body([], size, ext, ts, crs);
      LastOnly(b, t);
    }
  }

  lemma ChunkNotEmpty(c: Chunk)
    ensures |ChunkText(c)| > 0
  {
  }

  lemma FirstChunk(c: Chunk, b: Body, t: bool)
    ensures BodyText(b.(chunks := [c] + b.chunks), t) == ChunkText(c) + BodyText(b, t)
  {
    hide ChunkText, SizeText, TrailersText;
    assert ([c] + b.chunks)[1..] == b.chunks;
  }

  lemma LastOnly(b: Body, t: bool)
    requires b.chunks == []
    ensures BodyText(b, t) == SizeText(b.size, b.ext) + (if t then TrailersText(b.trailers, b.crs) else [])
  {
    hide SizeText, TrailersText;
  }

  /**
   * The decoder finishes on exactly the texts that begin with a body of the grammar, whatever follows it. It then has
   * put out the data of the chunks, and consumed the body and nothing else. By FragmentationInvisible this holds
   * however the input is cut up.
   */
  lemma DecoderGrammar(t: bool, s: Bytes)
    ensures Run(Decoder(0, t, 0, Size), s, 0).verdict == Finished <==> exists b :: IsBody(b) && At(s, 0, BodyText(b, t))
    ensures forall b :: IsBody(b) && At(s, 0, BodyText(b, t)) ==>
              OneCall(Decoder(0, t, 0, Size), s)
              == Feeding(AtEnd(t), Payload(b.chunks), Finished, s[|BodyText(b, t)|..])
  {
    hide Run, IsBody, BodyText;
    forall b | IsBody(b) && At(s, 0, BodyText(b, t))
      ensures Run(Decoder(0, t, 0, Size), s, 0) == Result(AtEnd(t), Payload(b.chunks), |BodyText(b, t)|, Finished)
    {
      BodyRun(t, s, b);
    }
    if Run(Decoder(0, t, 0, Size), s, 0).verdict == Finished {
      var b := BodyFound(t, s, 0);
    }
  }

  // ---- refusals

  /** The shortest end of a body: a last chunk, and an empty line if there may be trailers. */
  function Ending(t: bool): Bytes {
    [0x30, 0x0A] + EmptyLine(t)
  }

  function EmptyLine(t: bool): Bytes {
    if t then [0x0A] else []
  }

  /** Bytes that bring a decoder to its end from where it is. */
  function Completion(d: Decoder): Bytes {
    match d.phase
    case Size => if d.hex == 0 then Ending(d.trailer) else [0x0A] + FromLine(d.left, d.trailer)
    case Ext => [0x0A] + FromLine(d.left, d.trailer)
    case Data => FromLine(d.left, d.trailer)
    case Crlf => [0x0A] + Ending(d.trailer)
    case LineHead => [0x0A]
    case LineMiddle => [0x0A, 0x0A]
  }

  function FromLine(n: nat, t: bool): Bytes {
    if n == 0 then EmptyLine(t) else seq<byte>(n, _ => 0x58) + ([0x0A] + Ending(t))
  }

  lemma EndingRun(t: bool, s: Bytes, i: nat)
    requires i <= |s| && s[i..] == Ending(t)
    ensures Run(Decoder(0, t, 0, Size), s, i).verdict == Finished
  {
    hide Run, Nibble;
    ZeroLine();
    assert s == s[..i] + s[i..];
    assert At(s, i, [0x30, 0x0A]) by {
      assert s[i..i + 2] == s[i..][..2];
    }
    LineRun(t, s, i, [0x30], []);
    if t {
      assert s[i + 2] == s[i..][2];
      Final(AfterLine(0, true), s, i + 2);
    }
  }

  lemma ZeroLine()
    ensures IsSize([0x30]) && IsExt([]) && SizeOf([0x30]) == 0 && SizeText([0x30], []) == [0x30, 0x0A]
  {
    assert [0x30][..0] == [];
  }

  lemma CrlfEnds(t: bool, s: Bytes, i: nat)
    requires i <= |s| && s[i..] == [0x0A] + Ending(t)
    ensures Run(Decoder(0, t, 0, Crlf), s, i).verdict == Finished
  {
    hide Run, Ending;
    assert s[i] == s[i..][0] && s[i + 1..] == s[i..][1..];
    Quiet(Decoder(0, t, 0, Crlf), s, i);
    EndingRun(t, s, i + 1);
  }

  lemma DataEnds(n: nat, t: bool, s: Bytes, i: nat)
    requires n > 0 && i <= |s| && s[i..] == FromLine(n, t)
    ensures Run(Decoder(n, t, 0, Data), s, i).verdict == Finished
  {
    hide Run, Ending;
    var data := seq<byte>(n, _ => 0x58);
    assert s[i + n..] == s[i..][n..] == [0x0A] + Ending(t);
    Call.RunData(Decoder(n, t, 0, Data), s, i, n);
    CrlfEnds(t, s, i + n);
    Delivered(s[i..i + n], Run(Decoder(0, t, 0, Crlf), s, i + n));
  }

  lemma LineEnds(d: Decoder, s: Bytes)
    requires (d.phase.Ext? && d.hex == 0) || (d.phase.Size? && d.hex > 0)
    requires s == [0x0A] + FromLine(d.left, d.trailer)
    ensures Run(d, s, 0).verdict == Finished
  {
    hide Run, Ending;
    LastOfLine(d, s, 0);
    if d.left > 0 {
      assert s[1..] == FromLine(d.left, d.trailer);
      DataEnds(d.left, d.trailer, s, 1);
    } else if d.trailer {
      Final(AfterLine(0, true), s, 1);
    }
  }

  /** No state that a decoder can be in is hopeless. */
  lemma Completable(d: Decoder)
    requires Ok(d)
    ensures Run(d, Completion(d), 0).verdict == Finished
  {
    hide Run, Pow16, Ending, FromLine;
    var s := Completion(d);
    assert s[0..] == s;
    match d.phase {
      case Size =>
        if d.hex == 0 {
          SizeIsZero(d);
          EndingRun(d.trailer, s, 0);
        } else {
          LineEnds(d, s);
        }
      case Ext => LineEnds(d, s);
      case Data => DataFrom(d, s);
      case Crlf => CrlfEnds(d.trailer, s, 0);
      case LineHead => Final(d, s, 0);
      case LineMiddle =>
        Quiet(d, s, 0);
        Final(d.(phase := LineHead), s, 1);
    }
  }

  lemma SizeIsZero(d: Decoder)
    requires Ok(d) && d.phase.Size? && d.hex == 0
    ensures d == Decoder(0, d.trailer, 0, Size)
  {
  }

  lemma DataFrom(d: Decoder, s: Bytes)
    requires Ok(d) && d.phase.Data? && s == FromLine(d.left, d.trailer)
    ensures Run(d, s, 0).verdict == Finished
  {
    hide Run, FromLine, Pow16;
    assert s[0..] == s;
    DataEnds(d.left, d.trailer, s, 0);
  }

  /** The decoder fails on exactly the texts that no continuation makes begin with a body. */
  lemma DecoderRefuses(t: bool, s: Bytes)
    ensures Run(Decoder(0, t, 0, Size), s, 0).verdict == Failed
      <==> forall tail: Bytes, b :: IsBody(b) ==> !At(s + tail, 0, BodyText(b, t))
  {
    hide Run, IsBody, BodyText, At, Completion, Ok;
    var d := Decoder(0, t, 0, Size);
    var r := Run(d, s, 0);
    forall tail: Bytes, b | r.verdict == Failed && IsBody(b) ensures !At(s + tail, 0, BodyText(b, t)) {
      RunAppend(d, s, tail, 0);
      DecoderGrammar(t, s + tail);
    }
    if r.verdict != Failed {
      var tail := if r.verdict.More? then Completion(r.decoder) else [];
      GoesOn(d, s);
      DecoderGrammar(t, s + tail);
      var b :| IsBody(b) && At(s + tail, 0, BodyText(b, t));
    }
  }

  lemma GoesOn(d: Decoder, s: Bytes)
    requires d == Decoder(0, d.trailer, 0, Size) && Run(d, s, 0).verdict != Failed
    ensures var r := Run(d, s, 0);
      Run(d, s + (if r.verdict.More? then Completion(r.decoder) else []), 0).verdict == Finished
  {
    StartOk(d);
    RunOk(d, s, 0);
    hide Run, Ok, Completion;
    var r := Run(d, s, 0);
    if r.verdict.More? {
      var tail := Completion(r.decoder);
      Completable(r.decoder);
      RunAppend(d, s, tail, 0);
      RunShift(r.decoder, s, tail, 0);
    } else {
      assert s + [] == s;
    }
  }

  lemma StartOk(d: Decoder)
    requires d == Decoder(0, d.trailer, 0, Size)
    ensures Ok(d)
  {
  }
}
