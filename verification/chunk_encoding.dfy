/** Both chunked decoders against the canonical encoding of section 4.1 of RFC 7230, without trailers. */
module ChunkEncoding {
  import opened Utf8
  import opened Hex
  import opened HttpChunk
  import D = ChunkDecoder
  import Call = ChunkDecodeCall

  /** chunk-size: the hexadecimal form without leading zeros. */
  function HexText(n: nat): (h: Bytes)
    ensures h != [] && forall i :: 0 <= i < |h| ==> IsHex(h[i])
  {
    if n < 16 then [HexDigit(n)] else HexText(n / 16) + [HexDigit(n % 16)]
  }

  function EncodeChunk(data: Bytes): Bytes {
    HexText(|data|) + [CR, LF] + data + [CR, LF]
  }

  /** The chunks of the payloads, the last chunk, and the empty line after it. */
  function EncodeBody(payloads: seq<Bytes>): Bytes {
    if payloads == [] then [0x30, CR, LF, CR, LF] else EncodeChunk(payloads[0]) + EncodeBody(payloads[1..])
  }

  function Flatten(payloads: seq<Bytes>): Bytes {
    if payloads == [] then [] else payloads[0] + Flatten(payloads[1..])
  }

  /** Every payload has data, and a size that the size line can carry. */
  predicate Encodable(payloads: seq<Bytes>) {
    forall i :: 0 <= i < |payloads| ==> 0 < |payloads[i]| < ULONG_MAX
  }

  lemma {:induction false} HexTextNumber(n: nat)
    ensures HexNumber(HexText(n)) == n
  {
    if n >= 16 {
      HexTextNumber(n / 16);
      assert HexText(n)[..|HexText(n)| - 1] == HexText(n / 16);
    } else {
      assert HexText(n)[..0] == [];
    }
  }

  lemma {:induction false} HexTextLength(n: nat, k: nat)
    requires n < D.Pow16(k) && k > 0
    ensures |HexText(n)| <= k
  {
    if n >= 16 {
      HexTextLength(n / 16, k - 1);
    }
  }

  // ---- http_dechunk

  /** A size line in front of anything. */
  lemma SizeLine(n: nat, rest: Bytes)
    requires n < ULONG_MAX
    ensures ChunkSize(HexText(n) + [CR, LF] + rest) == Line(|HexText(n)| + 2, n)
  {
    var h := HexText(n);
    var s := h + [CR, LF];
    SizeLineAlone(h);
    HexTextNumber(n);
    assert s[0..|h|] == h;
    hide HexNumber, SkipHex, SkipBlank, LineEnd;
    assert ChunkSize(s) == Line(|h| + 2, n);
    ChunkSizeStable(s, rest);
  }

  lemma SizeLineAlone(h: Bytes)
    requires h != [] && forall i :: 0 <= i < |h| ==> IsHex(h[i])
    ensures var s := h + [CR, LF];
      LineEnd(s, 0) == |h| + 1 && SkipBlank(s, 0) == 0 && SkipHex(s, 0) == |h| && SkipBlank(s, |h|) == |h|
  {
    var s := h + [CR, LF];
    assert forall i :: 0 <= i < |h| ==> s[i] == h[i];
    assert IsHex(s[0]);
    HexRunEnd(s, 0, |h|);
    LineFound(s, 0, |h| + 1);
  }

  lemma {:induction false} HexRunEnd(s: Bytes, p: nat, q: nat)
    requires p <= q < |s| && (forall i :: p <= i < q ==> IsHex(s[i])) && !IsHex(s[q])
    ensures SkipHex(s, p) == q
    decreases q - p
  {
    if p < q {
      HexRunEnd(s, p + 1, q);
    }
  }

  lemma {:induction false} LineFound(s: Bytes, p: nat, q: nat)
    requires p <= q < |s| && (forall i :: p <= i < q ==> s[i] != LF) && s[q] == LF
    ensures LineEnd(s, p) == q
    decreases q - p
  {
    if p < q {
      LineFound(s, p + 1, q);
    }
  }

  lemma ChunkFound(data: Bytes, rest: Bytes)
    requires |data| < ULONG_MAX
    ensures ChunkAt(EncodeChunk(data) + rest) == Chunk(|HexText(|data|)| + 2, |data|)
  {
    var h := HexText(|data|);
    hide ChunkSize, HexText;
    assert EncodeChunk(data) + rest == h + [CR, LF] + (data + [CR, LF] + rest);
    SizeLine(|data|, data + [CR, LF] + rest);
  }

  /** http_dechunk undoes the encoding and stops exactly at its end, whatever follows. */
  lemma {:induction false} DechunkEncoded(payloads: seq<Bytes>, tail: Bytes)
    requires Encodable(payloads)
    ensures ScanFrom(EncodeBody(payloads) + tail, 0) == Complete(|EncodeBody(payloads)|, Flatten(payloads))
    decreases |payloads|
  {
    hide *;
    if payloads == [] {
      NoPayloads(payloads);
      DechunkLast(tail);
    } else {
      FirstPayload(payloads);
      var e, body := EncodeChunk(payloads[0]), EncodeBody(payloads[1..]);
      assert e + body + tail == e + (body + tail);
      DechunkEncoded(payloads[1..], tail);
      DechunkFirst(payloads[0], body + tail, |body|, Flatten(payloads[1..]));
    }
  }

  lemma NoPayloads(payloads: seq<Bytes>)
    requires payloads == []
    ensures EncodeBody(payloads) == EncodeBody([]) && Flatten(payloads) == []
  {
  }

  lemma FirstPayload(payloads: seq<Bytes>)
    requires Encodable(payloads) && payloads != []
    ensures 0 < |payloads[0]| < ULONG_MAX && Encodable(payloads[1..])
    ensures EncodeBody(payloads) == EncodeChunk(payloads[0]) + EncodeBody(payloads[1..])
    ensures Flatten(payloads) == payloads[0] + Flatten(payloads[1..])
  {
    hide EncodeChunk;
  }

  lemma DechunkFirst(data: Bytes, rest: Bytes, n: nat, body: Bytes)
    requires 0 < |data| < ULONG_MAX && ScanFrom(rest, 0) == Complete(n, body)
    ensures ScanFrom(EncodeChunk(data) + rest, 0) == Complete(|EncodeChunk(data)| + n, data + body)
  {
    hide ChunkAt, HexText, ScanFrom, EncodeChunk;
    var e := EncodeChunk(data);
    assert (e + rest)[0..] == e + rest;
    ScanOne(e + rest, 0);
    PayloadFound(data, rest);
    ScanShift(e, rest, 0);
  }

  lemma DechunkLast(tail: Bytes)
    ensures ScanFrom(EncodeBody([]) + tail, 0) == Complete(|EncodeBody([])|, [])
  {
    var s := EncodeBody([]) + tail;
    assert s[0..] == s;
    LastSize();
    hide ChunkAt, HexText, ScanFrom;
    ScanOne(s, 0);
    assert EncodeChunk([]) == EncodeBody([]);
    PayloadFound([], tail);
  }

  lemma LastSize()
    ensures HexText(0) == [0x30]
  {
  }

  lemma PayloadFound(data: Bytes, rest: Bytes)
    requires |data| < ULONG_MAX
    ensures var s := EncodeChunk(data) + rest;
      var c := ChunkAt(s);
      c.Chunk? && c.Length() == |EncodeChunk(data)| && HttpChunk.Payload(s, 0, c) == data
  {
    var h := HexText(|data|);
    ChunkFound(data, rest);
    hide ChunkAt, HexText;
    assert EncodeChunk(data) + rest == (h + [CR, LF]) + data + ([CR, LF] + rest);
  }

  // ---- phr_decode_chunked

  lemma {:induction false} RunDigits(d: D.Decoder, s: Bytes, i: nat, h: Bytes)
    requires d == D.Decoder(0, d.trailer, 0, D.Size)
    requires (forall k :: 0 <= k < |h| ==> IsHex(h[k])) && |h| <= 16 && i + |h| <= |s| && s[i..i + |h|] == h
    ensures D.Run(d, s, i) == D.Run(d.(left := HexNumber(h), hex := |h|), s, i + |h|)
    decreases |h|
  {
    hide D.Run, D.Step, IsHex, HexValue;
    if h != [] {
      var n := |h| - 1;
      assert s[i..i + n] == h[..n] by { assert s[i..i + n] == s[i..i + |h|][..n]; }
      RunDigits(d, s, i, h[..n]);
      assert s[i + n] == h[n];
      DigitStep(d.(left := HexNumber(h[..n]), hex := n), s, i + n);
    }
  }

  lemma DigitStep(d: D.Decoder, s: Bytes, i: nat)
    requires d.phase == D.Size && d.hex < 16 && i < |s| && IsHex(s[i])
    ensures D.Run(d, s, i) == D.Run(d.(left := d.left * 16 + HexValue(s[i]), hex := d.hex + 1), s, i + 1)
  {
    hide IsHex, HexValue;
    QuietStep(d, s, i);
  }

  lemma QuietStep(d: D.Decoder, s: Bytes, i: nat)
    requires i < |s| && D.Step(d, s[i]).verdict == D.More && !D.Step(d, s[i]).emits
    ensures D.Run(d, s, i) == D.Run(D.Step(d, s[i]).decoder, s, i + 1)
  {
    hide D.Step;
    assert forall r: D.Result :: D.Emitting([], r) == r;
  }

  lemma LastStep(d: D.Decoder, s: Bytes, i: nat)
    requires i < |s| && D.Step(d, s[i]).verdict == D.Finished
    ensures D.Run(d, s, i) == D.Result(D.Step(d, s[i]).decoder, [], i + 1, D.Finished)
  {
    hide D.Step;
  }

  /** From the size line to the data: hex digits and a line end. */
  lemma RunSizeLine(t: bool, s: Bytes, i: nat, h: Bytes)
    requires h != [] && (forall k :: 0 <= k < |h| ==> IsHex(h[k])) && |h| <= 16
    requires i + |h| + 2 <= |s| && s[i..i + |h| + 2] == h + [CR, LF]
    requires HexNumber(h) > 0 || t
    ensures D.Run(D.Decoder(0, t, 0, D.Size), s, i)
         == D.Run(D.Decoder(HexNumber(h), t, 0, if HexNumber(h) > 0 then D.Data else D.LineHead), s, i + |h| + 2)
  {
    var n, v := |h|, HexNumber(h);
    var w := s[i..i + n + 2];
    assert s[i..i + n] == h by { assert s[i..i + n] == w[..n]; }
    assert s[i + n] == w[n] == CR && s[i + n + 1] == w[n + 1] == LF;
    hide HexNumber;
    RunDigits(D.Decoder(0, t, 0, D.Size), s, i, h);
    QuietStep(D.Decoder(v, t, n, D.Size), s, i + n);
    QuietStep(D.Decoder(v, t, 0, D.Ext), s, i + n + 1);
  }

  /** Chunk data and its line end. */
  lemma RunChunkData(t: bool, s: Bytes, i: nat, data: Bytes)
    requires data != [] && i + |data| + 2 <= |s| && s[i..i + |data| + 2] == data + [CR, LF]
    ensures D.Run(D.Decoder(|data|, t, 0, D.Data), s, i)
         == D.Emitting(data, D.Run(D.Decoder(0, t, 0, D.Size), s, i + |data| + 2))
  {
    hide D.Run, D.Step;
    WithLineEnd(s, i, data);
    Call.RunData(D.Decoder(|data|, t, 0, D.Data), s, i, |data|);
    LineEndSteps(t, s, i + |data|);
  }

  lemma WithLineEnd(s: Bytes, i: nat, data: Bytes)
    requires i + |data| + 2 <= |s| && s[i..i + |data| + 2] == data + [CR, LF]
    ensures s[i..i + |data|] == data && s[i + |data|] == CR && s[i + |data| + 1] == LF
  {
    var n := |data|;
    var w := s[i..i + n + 2];
    assert s[i..i + n] == w[..n];
    assert s[i + n] == w[n] && s[i + n + 1] == w[n + 1];
  }

  lemma LineEndSteps(t: bool, s: Bytes, i: nat)
    requires i + 2 <= |s| && s[i] == CR && s[i + 1] == LF
    ensures D.Run(D.Decoder(0, t, 0, D.Crlf), s, i) == D.Run(D.Decoder(0, t, 0, D.Size), s, i + 2)
  {
    hide D.Run;
    QuietStep(D.Decoder(0, t, 0, D.Crlf), s, i);
    QuietStep(D.Decoder(0, t, 0, D.Crlf), s, i + 1);
  }

  /** phr_decode_chunked, told to consume trailers, undoes the encoding too: one call, and by
      D.FragmentationInvisible any cut of the input into calls, yields the payloads and leaves the tail. */
  lemma {:induction false} DecodeEncoded(payloads: seq<Bytes>, tail: Bytes)
    requires Encodable(payloads)
    ensures D.OneCall(D.Decoder(0, true, 0, D.Size), EncodeBody(payloads) + tail)
         == D.Feeding(D.Decoder(0, true, 0, D.LineHead), Flatten(payloads), D.Finished, tail)
    decreases |payloads|
  {
    hide *;
    if payloads == [] {
      NoPayloads(payloads);
      LastChunk(tail);
    } else {
      FirstPayload(payloads);
      var e, body := EncodeChunk(payloads[0]), EncodeBody(payloads[1..]);
      assert e + body + tail == e + (body + tail);
      DecodeEncoded(payloads[1..], tail);
      DecodeFirst(payloads[0], body + tail, Flatten(payloads[1..]), tail);
    }
  }

  lemma DecodeFirst(data: Bytes, rest: Bytes, body: Bytes, tail: Bytes)
    requires 0 < |data| < ULONG_MAX
    requires D.OneCall(D.Decoder(0, true, 0, D.Size), rest)
          == D.Feeding(D.Decoder(0, true, 0, D.LineHead), body, D.Finished, tail)
    ensures D.OneCall(D.Decoder(0, true, 0, D.Size), EncodeChunk(data) + rest)
         == D.Feeding(D.Decoder(0, true, 0, D.LineHead), data + body, D.Finished, tail)
  {
    hide D.Run, EncodeChunk;
    var d, e := D.Decoder(0, true, 0, D.Size), EncodeChunk(data);
    DecodeChunk(data, rest);
    D.RunShift(d, e, rest, 0);
    var end := D.Run(d, rest, 0).end;
    assert (e + rest)[|e| + end..] == rest[end..];
  }

  lemma LastChunk(tail: Bytes)
    ensures D.OneCall(D.Decoder(0, true, 0, D.Size), EncodeBody([]) + tail)
         == D.Feeding(D.Decoder(0, true, 0, D.LineHead), [], D.Finished, tail)
  {
    var s := EncodeBody([]) + tail;
    assert s[0..1] == [0x30] && s[0..3] == [0x30] + [CR, LF];
    assert HexNumber([0x30]) == 0 by { assert [0x30][..0] == []; }
    hide D.Run, HexNumber;
    assert s[3] == CR && s[4] == LF && IsHex([0x30][0]);
    assert s[5..] == tail && |s| >= 5;
    LastSteps(s);
  }

  lemma LastSteps(s: Bytes)
    requires |s| >= 5 && s[0..3] == [0x30] + [CR, LF] && s[3] == CR && s[4] == LF
    requires HexNumber([0x30]) == 0 && IsHex([0x30][0])
    ensures D.Run(D.Decoder(0, true, 0, D.Size), s, 0)
         == D.Result(D.Decoder(0, true, 0, D.LineHead), [], 5, D.Finished)
  {
    hide D.Run, HexNumber, IsHex;
    RunSizeLine(true, s, 0, [0x30]);
    QuietStep(D.Decoder(0, true, 0, D.LineHead), s, 3);
    LastStep(D.Decoder(0, true, 0, D.LineHead), s, 4);
  }

  lemma DecodeChunk(data: Bytes, rest: Bytes)
    requires 0 < |data| < ULONG_MAX
    ensures var s := EncodeChunk(data) + rest;
      D.Run(D.Decoder(0, true, 0, D.Size), s, 0)
      == D.Emitting(data, D.Run(D.Decoder(0, true, 0, D.Size), s, |EncodeChunk(data)|))
  {
    hide D.Run, D.Step;
    var h := HexText(|data|);
    var s := EncodeChunk(data) + rest;
    HexTextNumber(|data|);
    SixteenDigits(|data|);
    hide HexText, HexNumber;
    assert s[0..|h| + 2] == h + [CR, LF];
    assert s[|h| + 2..|h| + 2 + |data| + 2] == data + [CR, LF];
    RunSizeLine(true, s, 0, h);
    RunChunkData(true, s, |h| + 2, data);
  }

  lemma SixteenDigits(n: nat)
    requires n < ULONG_MAX
    ensures |HexText(n)| <= 16
  {
    D.Pow16Four(0);
    D.Pow16Four(4);
    D.Pow16Four(8);
    D.Pow16Four(12);
    HexTextLength(n, 16);
  }
}
