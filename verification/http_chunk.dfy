/** Chunked bodies in http.c: the size line, a chunk, and the two passes of http_dechunk. */
module HttpChunk {
  import opened Utf8
  import opened Hex
  import opened Memory

  const SEMICOLON: byte := 0x3B
  const ULONG_MAX := 0xFFFF_FFFF_FFFF_FFFF

  predicate IsBlank(c: byte) {
    c == 0x20 || c == 0x09
  }

  function SkipBlank(s: Bytes, p: nat): (q: nat)
    ensures p <= q && !IsBlank(Read(s, q))
    decreases Remaining(s, p)
  {
    if IsBlank(Read(s, p)) then SkipBlank(s, p + 1) else p
  }

  function SkipHex(s: Bytes, p: nat): (q: nat)
    ensures p <= q && !IsHex(Read(s, q))
    ensures forall i :: p <= i < q ==> IsHex(Read(s, i))
    ensures q == p || q <= |s|
    decreases Remaining(s, p)
  {
    if IsHex(Read(s, p)) then SkipHex(s, p + 1) else p
  }

  /** The first line feed from p on, or the end of the input. */
  function LineEnd(s: Bytes, p: nat): (q: nat)
    ensures p <= |s| ==> p <= q <= |s|
    ensures q < |s| ==> s[q] == LF
    ensures forall i :: p <= i < q && i < |s| ==> s[i] != LF
    decreases Remaining(s, p)
  {
    if p >= |s| then |s| else if s[p] == LF then p else LineEnd(s, p + 1)
  }

  function HexNumber(digits: Bytes): nat
    requires forall i :: 0 <= i < |digits| ==> IsHex(digits[i])
  {
    if digits == [] then 0 else 16 * HexNumber(digits[..|digits| - 1]) + HexValue(digits[|digits| - 1])
  }

  lemma HexRun(s: Bytes, p: nat, q: nat)
    requires p <= q <= |s| && forall i :: p <= i < q ==> IsHex(Read(s, i))
    ensures forall i :: 0 <= i < q - p ==> IsHex(s[p..q][i])
  {
    forall i | 0 <= i < q - p ensures IsHex(s[p..q][i]) {
      assert IsHex(Read(s, p + i));
    }
  }

  /** A size line of length bytes; nothing yet without a line feed. */
  datatype Line = NoLine | BadLine | Line(length: nat, size: nat)

  /** http_chunk_size */
  function ChunkSize(s: Bytes): (r: Line)
    ensures r.Line? ==> 0 < r.length <= |s| && r.size < ULONG_MAX
  {
    if LineEnd(s, 0) == |s| then NoLine
    else
      var digits := SkipBlank(s, 0);
      var p := SkipHex(s, digits);
      if p == digits then BadLine
      else
        var q := SkipBlank(s, p);
        var lf := if Read(s, q) == SEMICOLON then LineEnd(s, q) else q + 1;
        if Read(s, lf - 1) != CR || Read(s, lf) != LF || lf >= |s| then BadLine
        else
          HexRun(s, digits, p);
          var size := HexNumber(s[digits..p]);
          if size >= ULONG_MAX then BadLine else Line(lf + 1, size)
  }

  /** A chunk: its data at offset, of a given size, followed by two more bytes. */
  datatype Chunk = NoChunk | BadChunk | Chunk(offset: nat, size: nat) {
    function Length(): nat
      requires Chunk?
    {
      offset + size + 2
    }
  }

  /** http_chunk */
  function ChunkAt(s: Bytes): (r: Chunk)
    ensures r.Chunk? ==> 0 < r.offset && r.Length() <= |s|
  {
    match ChunkSize(s)
    case NoLine => NoChunk
    case BadLine => BadChunk
    case Line(n, size) => if n + 2 > |s| || size > |s| - n - 2 then NoChunk else Chunk(n, size)
  }

  function Payload(s: Bytes, o: nat, c: Chunk): Bytes
    requires c.Chunk? && o + c.Length() <= |s|
  {
    s[o + c.offset..o + c.offset + c.size]
  }

  /** What the chunks from a position on come to: where the last one ends, and their payloads. */
  datatype Scan = Incomplete | Malformed | Complete(end: nat, body: Bytes)

  function Prepend(data: Bytes, r: Scan): Scan {
    if r.Complete? then Complete(r.end, data + r.body) else r
  }

  function ScanFrom(s: Bytes, o: nat): (r: Scan)
    requires o <= |s|
    ensures r.Complete? ==> o < r.end <= |s| && o + |r.body| <= r.end
    decreases |s| - o
  {
    var c := ChunkAt(s[o..]);
    if c.NoChunk? then Incomplete
    else if c.BadChunk? then Malformed
    else if c.size == 0 then Complete(o + c.Length(), [])
    else Prepend(Payload(s, o, c), ScanFrom(s, o + c.Length()))
  }

  // ---- a size line depends on nothing after its line feed

  lemma LineStable(s: Bytes, x: Bytes, p: nat)
    requires p <= |s| && LineEnd(s, p) < |s|
    ensures LineEnd(s + x, p) == LineEnd(s, p)
    decreases |s| - p
  {
    if s[p] != LF {
      LineStable(s, x, p + 1);
    }
  }

  lemma {:induction false} BlankStable(s: Bytes, x: Bytes, p: nat)
    requires p <= LineEnd(s, 0) < |s|
    ensures SkipBlank(s + x, p) == SkipBlank(s, p) <= LineEnd(s, 0)
    decreases |s| - p
  {
    if IsBlank(Read(s, p)) {
      BlankStable(s, x, p + 1);
    }
  }

  lemma {:induction false} HexStable(s: Bytes, x: Bytes, p: nat)
    requires p <= LineEnd(s, 0) < |s|
    ensures SkipHex(s + x, p) == SkipHex(s, p) <= LineEnd(s, 0)
    decreases |s| - p
  {
    if IsHex(Read(s, p)) {
      HexStable(s, x, p + 1);
    }
  }

  /** http_chunk_size gives the same answer on every extension of an input with a line feed, so it does not
      look past that line feed. */
  lemma ChunkSizeStable(s: Bytes, x: Bytes)
    requires !ChunkSize(s).NoLine?
    ensures ChunkSize(s + x) == ChunkSize(s)
  {
    hide SkipBlank, SkipHex, LineEnd, IsHex, IsBlank, HexNumber;
    LineStable(s, x, 0);
    BlankStable(s, x, 0);
    var digits := SkipBlank(s, 0);
    HexStable(s, x, digits);
    var p := SkipHex(s, digits);
    BlankStable(s, x, p);
    var q := SkipBlank(s, p);
    LineLater(s, q);
    LineStable(s, x, q);
    assert p != digits ==> (s + x)[digits..p] == s[digits..p];
  }

  lemma LineLater(s: Bytes, q: nat)
    requires q <= LineEnd(s, 0) < |s|
    ensures LineEnd(s, q) == LineEnd(s, 0)
  {
    LineFrom(s, 0, q);
  }

  lemma {:induction false} LineFrom(s: Bytes, p: nat, q: nat)
    requires p <= q <= LineEnd(s, p) < |s|
    ensures LineEnd(s, q) == LineEnd(s, p)
    decreases q - p
  {
    if p < q {
      LineFrom(s, p + 1, q);
    }
  }

  lemma ChunkStable(s: Bytes, x: Bytes)
    requires !ChunkAt(s).NoChunk?
    ensures ChunkAt(s + x) == ChunkAt(s)
  {
    ChunkSizeStable(s, x);
  }

  /** A positive result and a -1 result stay what they are when more input arrives. */
  lemma {:induction false} ScanStable(s: Bytes, x: Bytes, o: nat)
    requires o <= |s| && !ScanFrom(s, o).Incomplete?
    ensures ScanFrom(s + x, o) == ScanFrom(s, o)
    decreases |s| - o
  {
    hide ChunkAt;
    var c := ChunkAt(s[o..]);
    assert (s + x)[o..] == s[o..] + x;
    ChunkStable(s[o..], x);
    if c.Chunk? && c.size > 0 {
      ScanStable(s, x, o + c.Length());
      SamePayload(s, x, o, c);
    }
  }

  lemma SamePayload(s: Bytes, x: Bytes, o: nat, c: Chunk)
    requires c.Chunk? && o + c.Length() <= |s|
    ensures Payload(s + x, o, c) == Payload(s, o, c)
  {
  }

  lemma ScanOne(s: Bytes, o: nat)
    requires o <= |s|
    ensures var c := ChunkAt(s[o..]);
      && (c.NoChunk? ==> ScanFrom(s, o) == Incomplete)
      && (c.BadChunk? ==> ScanFrom(s, o) == Malformed)
      && (c.Chunk? && c.size == 0 ==> ScanFrom(s, o) == Complete(o + c.Length(), []))
      && (c.Chunk? && c.size > 0 ==> ScanFrom(s, o) == Prepend(Payload(s, o, c), ScanFrom(s, o + c.Length())))
  {
    hide ChunkAt;
  }

  /** A scan sees only what lies ahead of it. */
  function Shift(r: Scan, by': nat): Scan {
    if r.Complete? then Complete(by' + r.end, r.body) else r
  }

  lemma {:induction false} ScanShift(a: Bytes, s: Bytes, o: nat)
    requires o <= |s|
    ensures ScanFrom(a + s, |a| + o) == Shift(ScanFrom(s, o), |a|)
    decreases |s| - o
  {
    hide ChunkAt, ScanFrom;
    assert (a + s)[|a| + o..] == s[o..];
    ScanOne(s, o);
    ScanOne(a + s, |a| + o);
    var c := ChunkAt(s[o..]);
    if c.Chunk? && c.size > 0 {
      ScanShift(a, s, o + c.Length());
      assert Payload(a + s, |a| + o, c) == Payload(s, o, c);
    }
  }

  // ---- the two passes

  method PastBlank(s: Bytes, from: nat) returns (p: nat)
    ensures p == SkipBlank(s, from)
  {
    p := from;
    while IsBlank(Read(s, p))
      invariant SkipBlank(s, p) == SkipBlank(s, from)
      decreases Remaining(s, p)
    {
      p := p + 1;
    }
  }

  method PastHex(s: Bytes, from: nat) returns (p: nat)
    ensures p == SkipHex(s, from)
  {
    p := from;
    while IsHex(Read(s, p))
      invariant from <= p && SkipHex(s, p) == SkipHex(s, from)
      decreases Remaining(s, p)
    {
      p := p + 1;
    }
  }

  /** The loop through a chunk extension; the line feed found before bounds it. */
  method ToLineFeed(s: Bytes, from: nat) returns (p: nat)
    requires from <= |s| && LineEnd(s, from) < |s|
    ensures p == LineEnd(s, from)
  {
    p := from;
    while Read(s, p) != LF
      invariant from <= p <= |s| && LineEnd(s, p) == LineEnd(s, from)
      decreases Remaining(s, p)
    {
      p := p + 1;
    }
  }

  /** http_chunk_size: 0 for an unfinished line, -1 for a bad one, else the length of the line. */
  method ChunkSizeOf(input: Bytes) returns (n: int, size: nat)
    ensures match ChunkSize(input) case NoLine => n == 0 case BadLine => n == -1 case Line(l, z) => n == l && size == z
  {
    size := 0;
    if LineEnd(input, 0) == |input| {
      return 0, 0;
    }
    hide SkipBlank, SkipHex, LineEnd, IsBlank, IsHex;
    LineParts(input);
    var digits := PastBlank(input, 0);
    var digitsEnd := PastHex(input, digits);
    if digits == digitsEnd {
      return -1, 0;
    }
    var p := PastBlank(input, digitsEnd);
    if Read(input, p) == SEMICOLON {
      p := ToLineFeed(input, p);
      if Read(input, p - 1) != CR {
        return -1, 0;
      }
    } else {
      if Read(input, p) != CR {
        return -1, 0;
      }
      p := p + 1;
    }
    if Read(input, p) != LF {
      return -1, 0;
    }
    p := p + 1;
    HexRun(input, digits, digitsEnd);
    size := HexNumber(input[digits..digitsEnd]);
    if size >= ULONG_MAX {
      return -1, size;
    }
    n := p;
  }

  /** None of the scanning loops runs past the first line feed. */
  lemma LineParts(s: Bytes)
    requires LineEnd(s, 0) < |s|
    ensures var digits := SkipBlank(s, 0);
      var p := SkipHex(s, digits);
      var q := SkipBlank(s, p);
      && digits <= p <= q <= LineEnd(s, 0) && LineEnd(s, q) == LineEnd(s, 0)
      && (forall i :: digits <= i < p ==> IsHex(Read(s, i)))
      && (p == digits || p <= |s|) && (Read(s, q) == SEMICOLON ==> q < LineEnd(s, 0))
  {
    BlankStable(s, [], 0);
    HexStable(s, [], SkipBlank(s, 0));
    BlankStable(s, [], SkipHex(s, SkipBlank(s, 0)));
    LineLater(s, SkipBlank(s, SkipHex(s, SkipBlank(s, 0))));
  }

  method ChunkOf(input: Bytes) returns (n: int, chunk: Chunk)
    ensures chunk == ChunkAt(input)
    ensures n == match chunk case NoChunk => 0 case BadChunk => -1 case Chunk(_, _) => chunk.Length()
  {
    var line, size := ChunkSizeOf(input);
    if line <= 0 {
      return line, if line == 0 then NoChunk else BadChunk;
    }
    if line + 2 > |input| || size > |input| - line - 2 {
      return 0, NoChunk;
    }
    chunk := Chunk(line, size);
    n := size + line + 2;
  }

  /** The first pass reads only; the second moves the payloads down and never writes where it has yet to
      parse. A result of 0 or -1 leaves the buffer as it was, and the bytes after the last chunk are
      untouched in any case. */
  method Dechunk(buf: array<byte>) returns (n: int, size: nat)
    modifies buf
    ensures match ScanFrom(old(buf[..]), 0)
      case Incomplete => n == 0 && buf[..] == old(buf[..])
      case Malformed => n == -1 && buf[..] == old(buf[..])
      case Complete(end, body) =>
        n == end && end <= buf.Length && size == |body| <= end && buf[..size] == body && buf[end..] == old(buf[end..])
  {
    hide ChunkAt, ScanFrom;
    ghost var s := buf[..];
    size := 0;
    var offset := 0;
    var last := false;
    ghost var data := [];
    assert Prepend([], ScanFrom(s, 0)) == ScanFrom(s, 0);
    while !last
      invariant buf[..] == s && offset <= |s|
      invariant if last then ScanFrom(s, 0).Complete? else ScanFrom(s, 0) == Prepend(data, ScanFrom(s, offset))
      decreases !last, |s| - offset
    {
      assert buf[offset..] == s[offset..];
      ChunkStep(s, offset);
      var chunk;
      n, chunk := ChunkOf(buf[offset..]);
      if n <= 0 {
        return;
      }
      data := data + Payload(s, offset, chunk);
      offset := offset + n;
      last := chunk.size == 0;
    }
    n, size := Compact(buf);
  }

  /** The second pass. */
  method Compact(buf: array<byte>) returns (n: int, size: nat)
    requires ScanFrom(buf[..], 0).Complete?
    modifies buf
    ensures var r := ScanFrom(old(buf[..]), 0);
      n == r.end && size == |r.body| <= r.end && buf[..size] == r.body && buf[r.end..] == old(buf[r.end..])
  {
    hide ChunkAt, ScanFrom;
    ghost var s := buf[..];
    ghost var r := ScanFrom(s, 0);
    size := 0;
    var offset := 0;
    var last := false;
    assert buf[..0] == [] && Prepend([], r) == r;
    while !last
      invariant size <= offset <= |s| == buf.Length && buf[offset..] == s[offset..]
      invariant if last then r == Complete(offset, buf[..size])
                else ScanFrom(s, offset).Complete? && r == Prepend(buf[..size], ScanFrom(s, offset))
      decreases !last, |s| - offset
    {
      ChunkStep(s, offset);
      var length, chunk := ChunkOf(buf[offset..]);
      MoveChunk(buf, s, size, offset, chunk);
      offset := offset + length;
      size := size + chunk.size;
      last := chunk.size == 0;
    }
    n := offset;
  }

  /** One step of either pass. */
  lemma ChunkStep(s: Bytes, o: nat)
    requires o <= |s|
    ensures var c := ChunkAt(s[o..]);
      && (c.NoChunk? ==> ScanFrom(s, o) == Incomplete)
      && (c.BadChunk? ==> ScanFrom(s, o) == Malformed)
      && (c.Chunk? && c.size == 0 ==> forall sofar :: Prepend(sofar, ScanFrom(s, o)) == Complete(o + c.Length(), sofar))
      && (c.Chunk? && c.size > 0 ==> forall sofar ::
            Prepend(sofar, ScanFrom(s, o)) == Prepend(sofar + Payload(s, o, c), ScanFrom(s, o + c.Length())))
  {
    hide ChunkAt;
    var c := ChunkAt(s[o..]);
    if c.Chunk? {
      forall sofar
        ensures c.size == 0 ==> Prepend(sofar, ScanFrom(s, o)) == Complete(o + c.Length(), sofar)
        ensures c.size > 0 ==>
          Prepend(sofar, ScanFrom(s, o)) == Prepend(sofar + Payload(s, o, c), ScanFrom(s, o + c.Length()))
      {
        if c.size > 0 && ScanFrom(s, o + c.Length()).Complete? {
          Regroup(sofar, Payload(s, o, c), ScanFrom(s, o + c.Length()).body);
        } else {
          assert sofar + [] == sofar;
        }
      }
    }
  }

  /** Moves the payload of the chunk at offset behind the output so far. */
  method MoveChunk(buf: array<byte>, ghost s: Bytes, size: nat, offset: nat, chunk: Chunk)
    requires size <= offset && chunk.Chunk? && offset + chunk.Length() <= |s| == buf.Length
      && buf[offset..] == s[offset..]
    modifies buf
    ensures && buf[..size + chunk.size] == old(buf[..size]) + Payload(s, offset, chunk)
      && buf[offset + chunk.Length()..] == s[offset + chunk.Length()..]
  {
    ghost var before := buf[..];
    ghost var data, end := offset + chunk.offset, offset + chunk.Length();
    SameSlice(before, s, offset, data, data + chunk.size);
    MoveDown(buf, size, offset + chunk.offset, chunk.size);
    MovedDown(before, buf[..], size, data, chunk.size, end);
    SameSlice(before, s, offset, end, |s|);
    assert before[end..|s|] == before[end..];
    assert s[end..|s|] == s[end..];
  }

  lemma SameSlice(a: Bytes, b: Bytes, o: nat, i: nat, j: nat)
    requires o <= i <= j <= |a| == |b| && a[o..] == b[o..]
    ensures a[i..j] == b[i..j]
  {
    forall k | i <= k < j ensures a[k] == b[k] {
      assert a[k] == a[o..][k - o] && b[k] == b[o..][k - o];
    }
  }

  lemma MovedDown(before: Bytes, after: Bytes, dst: nat, src: nat, n: nat, end: nat)
    requires dst <= src && src + n <= end <= |before| == |after|
    requires after[dst..dst + n] == before[src..src + n]
    requires after[..dst] == before[..dst] && after[src + n..] == before[src + n..]
    ensures after[..dst + n] == before[..dst] + before[src..src + n] && after[end..] == before[end..]
  {
    assert after[..dst + n] == after[..dst] + after[dst..dst + n];
    assert after[end..] == after[src + n..][end - src - n..];
    assert before[end..] == before[src + n..][end - src - n..];
  }
}
