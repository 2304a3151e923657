/** What http_dechunk does not look at: the two bytes after the data of a chunk. */
module HttpChunkEnds {
  import opened ChunkEncoding
  import opened Hex
  import opened HttpChunk
  import opened Utf8
  import D = ChunkDecoder

  /** The two bytes after the data of the chunk at o are a line end. */
  predicate LineEnded(s: Bytes, o: nat, c: Chunk)
    requires c.Chunk? && o + c.Length() <= |s|
  {
    s[o + c.Length() - 2] == CR && s[o + c.Length() - 1] == LF
  }

  /** So it is for every chunk that a scan from o passes. */
  predicate AllEnded(s: Bytes, o: nat)
    requires o <= |s|
    decreases |s| - o
  {
    var c := ChunkAt(s[o..]);
    c.Chunk? ==> LineEnded(s, o, c) && (c.size > 0 ==> AllEnded(s, o + c.Length()))
  }

  /** A scan that demands the line ends, as section 4.1 of RFC 7230 does. */
  function StrictFrom(s: Bytes, o: nat): Scan
    requires o <= |s|
    decreases |s| - o
  {
    var c := ChunkAt(s[o..]);
    if c.NoChunk? then Incomplete
    else if c.BadChunk? || !LineEnded(s, o, c) then Malformed
    else if c.size == 0 then Complete(o + c.Length(), [])
    else Prepend(Payload(s, o, c), StrictFrom(s, o + c.Length()))
  }

  lemma StrictOne(s: Bytes, o: nat)
    requires o <= |s|
    ensures var c := ChunkAt(s[o..]);
      && (c.NoChunk? ==> StrictFrom(s, o) == Incomplete && AllEnded(s, o))
      && (c.BadChunk? ==> StrictFrom(s, o) == Malformed && AllEnded(s, o))
      && (c.Chunk? && !LineEnded(s, o, c) ==> StrictFrom(s, o) == Malformed && !AllEnded(s, o))
      && (c.Chunk? && c.size == 0 && LineEnded(s, o, c) ==>
            StrictFrom(s, o) == Complete(o + c.Length(), []) && AllEnded(s, o))
      && (c.Chunk? && c.size > 0 && LineEnded(s, o, c) ==>
            && StrictFrom(s, o) == Prepend(Payload(s, o, c), StrictFrom(s, o + c.Length()))
            && (AllEnded(s, o) <==> AllEnded(s, o + c.Length())))
  {
    hide ChunkAt;
  }

  /**
   * The strict scan finds the same if and only if every chunk passed has its line end, unless the body is
   * malformed anyway; what is refused already, the strict scan refuses too.
   */
  lemma {:induction false} StrictIff(s: Bytes, o: nat)
    requires o <= |s|
    ensures StrictFrom(s, o) == ScanFrom(s, o) <==> AllEnded(s, o) || ScanFrom(s, o).Malformed?
    ensures !AllEnded(s, o) ==> StrictFrom(s, o).Malformed?
    decreases |s| - o
  {
    hide ChunkAt, StrictFrom, ScanFrom, AllEnded, LineEnded, Payload;
    StrictOne(s, o);
    ScanOne(s, o);
    var c := ChunkAt(s[o..]);
    if c.Chunk? && c.size > 0 && LineEnded(s, o, c) {
      StrictIff(s, o + c.Length());
      PrependSame(Payload(s, o, c), StrictFrom(s, o + c.Length()), ScanFrom(s, o + c.Length()));
    }
  }

  lemma PrependSame(data: Bytes, a: Scan, b: Scan)
    ensures Prepend(data, a) == Prepend(data, b) <==> a == b
  {
    if a.Complete? && b.Complete? && Prepend(data, a) == Prepend(data, b) {
      assert a.body == (data + a.body)[|data|..] == (data + b.body)[|data|..] == b.body;
    }
  }

  /** In particular a complete body is passed on alike if and only if all its chunks have their line ends. */
  lemma CompleteIff(s: Bytes)
    requires ScanFrom(s, 0).Complete?
    ensures StrictFrom(s, 0) == ScanFrom(s, 0) <==> AllEnded(s, 0)
  {
    StrictIff(s, 0);
  }

  /** Any two bytes pass for a line end. */
  lemma AnyBytesPass(data: Bytes, x: byte, y: byte, rest: Bytes)
    requires |data| < ULONG_MAX
    ensures ChunkAt(HexText(|data|) + [CR, LF] + data + [x, y] + rest) == Chunk(|HexText(|data|)| + 2, |data|)
  {
    var h := HexText(|data|);
    hide ChunkSize, HexText;
    assert h + [CR, LF] + data + [x, y] + rest == h + [CR, LF] + (data + [x, y] + rest);
    SizeLine(|data|, data + [x, y] + rest);
  }

  /** Of the same bytes phr_decode_chunked accepts a line feed after carriage returns only. */
  lemma OtherBytesFail(t: bool, s: Bytes, i: nat)
    requires i < |s| && s[i] != CR && s[i] != LF
    ensures D.Run(D.Decoder(0, t, 0, D.Crlf), s, i) == D.Result(D.Decoder(0, t, 0, D.Crlf), [], i, D.Failed)
  {
  }

  /** A chunk "a" with "XY" for its line end, and the last chunk. */
  function Loose(): Bytes {
    [0x31, CR, LF, 0x61, 0x58, 0x59, 0x30, CR, LF, CR, LF]
  }

  /** It is passed on as the body "a"; the strict scan refuses it, and so does phr_decode_chunked. */
  lemma LooseBody()
    ensures ScanFrom(Loose(), 0) == Complete(11, [0x61])
    ensures StrictFrom(Loose(), 0) == Malformed
    ensures D.OneCall(D.Decoder(0, true, 0, D.Size), Loose()).verdict == D.Failed
  {
    hide ChunkAt, StrictFrom, ScanFrom, AllEnded, D.Run;
    var s := Loose();
    LooseChunks(s);
    ScanOne(s, 0);
    ScanOne(s, 6);
    StrictOne(s, 0);
    LooseFails();
  }

  lemma LooseChunks(s: Bytes)
    requires s == Loose()
    ensures ChunkAt(s[0..]) == Chunk(3, 1) && ChunkAt(s[6..]) == Chunk(3, 0)
  {
    OneDigitText();
    hide HexText, ChunkAt;
    var d: Bytes := [0x61];
    AnyBytesPass(d, 0x58, 0x59, [0x30, CR, LF, CR, LF]);
    assert s[0..] == [0x31] + [CR, LF] + d + [0x58, 0x59] + [0x30, CR, LF, CR, LF];
    AnyBytesPass([], CR, LF, []);
    assert s[6..] == [0x30] + [CR, LF] + [] + [CR, LF] + [];
  }

  lemma OneDigitText()
    ensures HexText(0) == [0x30] && HexText(1) == [0x31]
  {
  }

  lemma LooseFails()
    ensures D.OneCall(D.Decoder(0, true, 0, D.Size), Loose()).verdict == D.Failed
  {
    var s := Loose();
    var d1 := D.Decoder(1, true, 0, D.Data);
    OneDigitText();
    HexTextNumber(1);
    assert s[0..3] == [0x31] + [CR, LF] && IsHex(0x31);
    hide D.Run, HexText, HexNumber;
    RunSizeLine(true, s, 0, [0x31]);
    OneByte(s);
    OtherBytesFail(true, s, 4);
  }

  lemma OneByte(s: Bytes)
    requires s == Loose()
    ensures D.Run(D.Decoder(1, true, 0, D.Data), s, 3)
         == D.Emitting([0x61], D.Run(D.Decoder(0, true, 0, D.Crlf), s, 4))
  {
  }
}
