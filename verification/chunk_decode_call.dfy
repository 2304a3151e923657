/** A call of phr_decode_chunked, in place on the caller's buffer. */
module ChunkDecodeCall {
  import opened Common
  import opened Utf8
  import opened Hex
  import opened ChunkDecoder
  import opened Memory

  lemma {:induction false} RunSuffix(d: Decoder, s: Bytes, t: Bytes, i: nat)
    requires i <= |s| == |t| && s[i..] == t[i..]
    ensures Run(d, s, i) == Run(d, t, i)
    decreases |s| - i
  {
    hide Step;
    if i < |s| {
      assert s[i] == s[i..][0] == t[i..][0] == t[i];
      assert s[i + 1..] == s[i..][1..] && t[i + 1..] == t[i..][1..];
      if Step(d, s[i]).verdict.More? {
        RunSuffix(Step(d, s[i]).decoder, s, t, i + 1);
      }
    }
  }

  /** A stretch of chunk data. */
  lemma {:induction false} RunData(d: Decoder, s: Bytes, i: nat, n: nat)
    requires d.phase.Data? && 0 < n <= d.left && i + n <= |s|
    ensures var d' := if n == d.left then d.(left := 0, phase := Crlf) else d.(left := d.left - n);
      Run(d, s, i) == Emitting(s[i..i + n], Run(d', s, i + n))
    decreases n
  {
    hide *;
    var next := Step(d, s[i]).decoder;
    DataByte(d, s, i);
    if n > 1 {
      RunData(next, s, i + 1, n - 1);
      var d' := if n == d.left then d.(left := 0, phase := Crlf) else d.(left := d.left - n);
      EmitTwice([s[i]], s[i + 1..i + n], Run(d', s, i + n));
      assert s[i..i + n] == [s[i]] + s[i + 1..i + n];
    } else {
      assert s[i..i + 1] == [s[i]];
    }
  }

  lemma EmitTwice(a: Bytes, b: Bytes, r: Result)
    ensures Emitting(a, Emitting(b, r)) == Emitting(a + b, r)
  {
    Regroup(a, b, r.out);
  }

  lemma DataByte(d: Decoder, s: Bytes, i: nat)
    requires d.phase.Data? && d.left > 0 && i < |s|
    ensures var next := Step(d, s[i]).decoder;
      && next == (if d.left == 1 then d.(left := 0, phase := Crlf) else d.(left := d.left - 1))
      && Run(d, s, i) == Emitting([s[i]], Run(next, s, i + 1))
  {
  }

  lemma SizeStep(d: Decoder, s: Bytes, i: nat)
    requires d.phase.Size? && Ok(d) && i <= |s|
    ensures i == |s| ==> Run(d, s, i) == Result(d, [], i, More)
    ensures i < |s| && !IsHex(s[i]) && d.hex == 0 ==> Run(d, s, i) == Result(d, [], i, Failed)
    ensures i < |s| && !IsHex(s[i]) && d.hex > 0 ==>
      var d' := d.(hex := 0, phase := Ext); Run(d, s, i) == Run(d', s, i) && Ok(d')
    ensures i < |s| && IsHex(s[i]) && d.hex == HEX_DIGITS_MAX ==> Run(d, s, i) == Result(d, [], i, Failed)
    ensures i < |s| && IsHex(s[i]) && d.hex != HEX_DIGITS_MAX ==>
      var d' := d.(left := d.left * 16 + HexValue(s[i]), hex := d.hex + 1); Run(d, s, i) == Run(d', s, i + 1) && Ok(d')
  {
    hide IsHex, Pow16;
    if i < |s| && IsHex(s[i]) && d.hex != HEX_DIGITS_MAX {
      DigitOk(d, HexValue(s[i]));
      hide HexValue;
      NothingEmitted(Run(Step(d, s[i]).decoder, s, i + 1));
    } else if i < |s| {
      NothingEmitted(Run(Step(d, s[i]).decoder, s, i + 1));
    }
  }

  lemma NothingEmitted(r: Result)
    ensures Emitting([], r) == r
  {
  }

  class ChunkedDecoder {
    var left: nat
    var trailer: bool
    var hex: nat
    var phase: Phase

    function State(): Decoder
      reads this
    {
      Decoder(left, trailer, hex, phase)
    }

    /** The decoder as the interface demands it: zero-filled before the first call. */
    constructor (trailer: bool)
      ensures State() == Decoder(0, trailer, 0, Size) && Ok(State())
    {
      left, hex, phase := 0, 0, Size;
      this.trailer := trailer;
    }

    method SizeDigits(buf: array<byte>, from: nat, bufsz: nat) returns (src: nat, stop: Option<Verdict>)
      requires from <= bufsz <= buf.Length && phase.Size? && Ok(State())
      modifies this
      ensures Ok(State())
      ensures from <= src <= bufsz
      ensures var r := Run(old(State()), buf[..bufsz], from);
        if stop.None? then phase.Ext? && r == Run(State(), buf[..bufsz], src)
          else r == Result(State(), [], src, stop.value)
    {
      hide Run, Step, Ok, IsHex, HexValue;
      src := from;
      while true
        invariant from <= src <= bufsz && phase.Size? && Ok(State())
        invariant Run(old(State()), buf[..bufsz], from) == Run(State(), buf[..bufsz], src)
        decreases bufsz - src
      {
        SizeStep(State(), buf[..bufsz], src);
        if src == bufsz {
          return src, Some(More);
        }
        if !IsHex(buf[src]) {
          if hex == 0 {
            return src, Some(Failed);
          }
          break;
        }
        if hex == HEX_DIGITS_MAX {
          return src, Some(Failed);
        }
        left := left * 16 + HexValue(buf[src]);
        hex := hex + 1;
        src := src + 1;
      }
      hex := 0;
      phase := Ext;
      stop := None;
    }

    method ExtLine(buf: array<byte>, from: nat, bufsz: nat) returns (src: nat, stop: Option<Verdict>)
      requires from <= bufsz <= buf.Length && phase.Ext? && Ok(State())
      modifies this
      ensures Ok(State())
      ensures from <= src <= bufsz && (stop.None? ==> from < src && (phase.Data? || phase.LineHead?))
      ensures var r := Run(old(State()), buf[..bufsz], from);
        if stop.None? then r == Run(State(), buf[..bufsz], src) else r == Result(State(), [], src, stop.value)
    {
      src := from;
      while true
        invariant from <= src <= bufsz && State() == old(State())
        invariant Run(old(State()), buf[..bufsz], from) == Run(State(), buf[..bufsz], src)
        decreases bufsz - src
      {
        if src == bufsz {
          return src, Some(More);
        }
        if buf[src] == LF {
          break;
        }
        src := src + 1;
      }
      src := src + 1;
      stop := None;
      if left == 0 {
        if trailer {
          phase := LineHead;
        } else {
          stop := Some(Finished);
        }
      } else {
        phase := Data;
      }
    }

    method CrlfEnd(buf: array<byte>, from: nat, bufsz: nat) returns (src: nat, stop: Option<Verdict>)
      requires from <= bufsz <= buf.Length && phase.Crlf? && Ok(State())
      modifies this
      ensures Ok(State())
      ensures from <= src <= bufsz && (stop.None? ==> from < src && phase.Size?)
      ensures var r := Run(old(State()), buf[..bufsz], from);
        if stop.None? then r == Run(State(), buf[..bufsz], src) else r == Result(State(), [], src, stop.value)
    {
      src := from;
      while true
        invariant from <= src <= bufsz && State() == old(State())
        invariant Run(old(State()), buf[..bufsz], from) == Run(State(), buf[..bufsz], src)
        decreases bufsz - src
      {
        if src == bufsz {
          return src, Some(More);
        }
        if buf[src] != CR {
          break;
        }
        src := src + 1;
      }
      if buf[src] != LF {
        return src, Some(Failed);
      }
      src := src + 1;
      phase := Size;
      stop := None;
    }

    method TrailerHead(buf: array<byte>, from: nat, bufsz: nat) returns (src: nat, stop: Option<Verdict>)
      requires from <= bufsz <= buf.Length && phase.LineHead? && Ok(State())
      modifies this
      ensures Ok(State())
      ensures from <= src <= bufsz && (stop.None? ==> from < src && phase.LineMiddle?)
      ensures var r := Run(old(State()), buf[..bufsz], from);
        if stop.None? then r == Run(State(), buf[..bufsz], src) else r == Result(State(), [], src, stop.value)
    {
      src := from;
      while true
        invariant from <= src <= bufsz && State() == old(State())
        invariant Run(old(State()), buf[..bufsz], from) == Run(State(), buf[..bufsz], src)
        decreases bufsz - src
      {
        if src == bufsz {
          return src, Some(More);
        }
        if buf[src] != CR {
          break;
        }
        src := src + 1;
      }
      src := src + 1;
      if buf[src - 1] == LF {
        return src, Some(Finished);
      }
      phase := LineMiddle;
      stop := None;
    }

    method TrailerMiddle(buf: array<byte>, from: nat, bufsz: nat) returns (src: nat, stop: Option<Verdict>)
      requires from <= bufsz <= buf.Length && phase.LineMiddle? && Ok(State())
      modifies this
      ensures Ok(State())
      ensures from <= src <= bufsz && (stop.None? ==> from < src && phase.LineHead?)
      ensures var r := Run(old(State()), buf[..bufsz], from);
        if stop.None? then r == Run(State(), buf[..bufsz], src) else r == Result(State(), [], src, stop.value)
    {
      src := from;
      while true
        invariant from <= src <= bufsz && State() == old(State())
        invariant Run(old(State()), buf[..bufsz], from) == Run(State(), buf[..bufsz], src)
        decreases bufsz - src
      {
        if src == bufsz {
          return src, Some(More);
        }
        if buf[src] == LF {
          break;
        }
        src := src + 1;
      }
      src := src + 1;
      phase := LineHead;
      stop := None;
    }

    /** Copies chunk data down, as much as there is. */
    method TakeData(buf: array<byte>, dst0: nat, src0: nat, bufsz: nat)
      returns (dst: nat, src: nat, stop: Option<Verdict>)
      requires dst0 <= src0 <= bufsz <= buf.Length && phase.Data? && Ok(State())
      modifies this, buf
      ensures Ok(State())
      ensures dst0 <= dst <= src && src0 <= src <= bufsz && dst - dst0 == src - src0
      ensures stop.None? ==> src0 < src && phase.Crlf?
      ensures buf[..dst0] == old(buf[..dst0]) && buf[src..] == old(buf[src..])
      ensures var r := Run(old(State()), old(buf[..bufsz]), src0);
        r == if stop.None? then Emitting(buf[dst0..dst], Run(State(), buf[..bufsz], src))
             else Result(State(), buf[dst0..dst], src, stop.value)
    {
      hide Step, Ok, Run;
      DataOk(State(), bufsz - src0);
      ghost var t := buf[..bufsz];
      ghost var d := State();
      var avail := bufsz - src0;
      var n := if avail < left then avail else left;
      ghost var data := buf[src0..src0 + n];
      assert t[src0..src0 + n] == data;
      MoveDown(buf, dst0, src0, n);
      dst, src := dst0 + n, src0 + n;
      AfterMove(old(buf[..]), buf[..], src, bufsz);
      assert buf[dst0..dst] == data;
      DataTaken(d, t, buf[..bufsz], src0, n);
      if avail < left {
        left := left - avail;
        stop := Some(More);
      } else {
        left := 0;
        phase := Crlf;
        stop := None;
      }
    }

    /** Once through the switch, falling through from state to state. */
    method Pass(buf: array<byte>, dst0: nat, src0: nat, bufsz: nat) returns (dst: nat, src: nat, stop: Option<Verdict>)
      requires dst0 <= src0 <= bufsz <= buf.Length && Ok(State())
      modifies this, buf
      ensures Ok(State())
      ensures dst0 <= dst <= src && src0 <= src <= bufsz && (stop.None? ==> src0 < src)
      ensures buf[..dst0] == old(buf[..dst0]) && buf[src..] == old(buf[src..])
      ensures var r := Run(old(State()), old(buf[..bufsz]), src0);
        r == if stop.None? then Emitting(buf[dst0..dst], Run(State(), buf[..bufsz], src))
             else Result(State(), buf[dst0..dst], src, stop.value)
    {
      hide Run, Step, Ok;
      dst, src, stop := dst0, src0, None;
      ghost var t := buf[..bufsz];
      assert buf[dst0..dst0] == [];
      NothingEmitted(Run(State(), t, src0));
      if phase.Size? {
        src, stop := SizeDigits(buf, src, bufsz);
        if stop.Some? {
          return;
        }
      }
      if phase.Ext? {
        src, stop := ExtLine(buf, src, bufsz);
        NothingEmitted(Run(State(), t, src));
        if stop.Some? || phase.LineHead? {
          return;
        }
      }
      if phase.Data? || phase.Crlf? {
        dst, src, stop := ChunkBody(buf, dst, src, bufsz);
      } else {
        src, stop := Trailer(buf, src, bufsz);
        NothingEmitted(Run(State(), t, src));
      }
    }

    /** Chunk data and the line end after it. */
    method ChunkBody(buf: array<byte>, dst0: nat, src0: nat, bufsz: nat)
      returns (dst: nat, src: nat, stop: Option<Verdict>)
      requires dst0 <= src0 <= bufsz <= buf.Length && Ok(State()) && (phase.Data? || phase.Crlf?)
      modifies this, buf
      ensures Ok(State())
      ensures dst0 <= dst <= src && src0 <= src <= bufsz && (stop.None? ==> src0 < src)
      ensures buf[..dst0] == old(buf[..dst0]) && buf[src..] == old(buf[src..])
      ensures var r := Run(old(State()), old(buf[..bufsz]), src0);
        r == if stop.None? then Emitting(buf[dst0..dst], Run(State(), buf[..bufsz], src))
             else Result(State(), buf[dst0..dst], src, stop.value)
    {
      hide Run, Step, Ok;
      dst, src, stop := dst0, src0, None;
      assert buf[dst0..dst0] == [];
      NothingEmitted(Run(State(), buf[..bufsz], src0));
      if phase.Data? {
        dst, src, stop := TakeData(buf, dst, src, bufsz);
        if stop.Some? {
          return;
        }
      }
      ghost var mid := src;
      src, stop := CrlfEnd(buf, src, bufsz);
      assert buf[src..] == buf[mid..][src - mid..];
      assert buf[dst0..dst] + [] == buf[dst0..dst];
    }

    method Trailer(buf: array<byte>, from: nat, bufsz: nat) returns (src: nat, stop: Option<Verdict>)
      requires from <= bufsz <= buf.Length && (phase.LineHead? || phase.LineMiddle?) && Ok(State())
      modifies this
      ensures Ok(State())
      ensures from <= src <= bufsz && (stop.None? ==> from < src)
      ensures var r := Run(old(State()), buf[..bufsz], from);
        if stop.None? then r == Run(State(), buf[..bufsz], src) else r == Result(State(), [], src, stop.value)
    {
      hide Run, Step, Ok;
      src := from;
      if phase.LineHead? {
        src, stop := TrailerHead(buf, src, bufsz);
        if stop.Some? {
          return;
        }
      }
      src, stop := TrailerMiddle(buf, src, bufsz);
    }

    /** One call: decodes in place, reports the verdict, and moves what was not consumed behind the output. */
    method Decode(buf: array<byte>, bufsz: nat) returns (ret: int, size: nat)
      requires bufsz <= buf.Length && Ok(State())
      modifies this, buf
      ensures var r := Run(old(State()), old(buf[..bufsz]), 0);
        && State() == r.decoder && Ok(State())
        && ret == (match r.verdict case More => -2 case Failed => -1 case Finished => bufsz - r.end)
        && size == |r.out| && size + (bufsz - r.end) <= bufsz && buf[..size] == r.out
        && buf[size..size + (bufsz - r.end)] == old(buf[r.end..bufsz])
      ensures buf[bufsz..] == old(buf[bufsz..])
    {
      hide Run, Step, Ok;
      var dst, src, verdict := Drain(buf, bufsz);
      ret := match verdict case More => -2 case Failed => -1 case Finished => bufsz - src;
      size := dst;
      SameTail(buf[..], old(buf[..]), src, bufsz);
      if dst != src {
        MoveDown(buf, dst, src, bufsz - src);
      }
    }

    /** The loop around the switch, up to its exit. */
    method Drain(buf: array<byte>, bufsz: nat) returns (dst: nat, src: nat, verdict: Verdict)
      requires bufsz <= buf.Length && Ok(State())
      modifies this, buf
      ensures Ok(State()) && dst <= src <= bufsz && buf[src..] == old(buf[src..])
      ensures Run(old(State()), old(buf[..bufsz]), 0) == Result(State(), buf[..dst], src, verdict)
    {
      hide Run, Step, Ok;
      ghost var r := Run(State(), buf[..bufsz], 0);
      NothingEmitted(r);
      dst, src := 0, 0;
      var stop: Option<Verdict>;
      assert buf[..0] == [];
      while true
        invariant dst <= src <= bufsz && Ok(State())
        invariant buf[src..] == old(buf[src..])
        invariant r == Emitting(buf[..dst], Run(State(), buf[..bufsz], src))
        decreases bufsz - src
      {
        ghost var sofar, dst0, src0, mid := buf[..dst], dst, src, buf[..];
        dst, src, stop := Pass(buf, dst, src, bufsz);
        assert buf[..dst] == sofar + buf[dst0..dst];
        assert mid[src..] == mid[src0..][src - src0..] == old(buf[src..]);
        if stop.Some? {
          return dst, src, stop.value;
        }
        Regroup(sofar, buf[dst0..dst], Run(State(), buf[..bufsz], src).out);
      }
    }
  }

  lemma DataOk(d: Decoder, n: nat)
    requires Ok(d) && d.phase.Data?
    ensures d.left > 0
    ensures Ok(d.(left := 0, phase := Crlf))
    ensures n < d.left ==> Ok(d.(left := d.left - n))
  {
  }

  /** n bytes of data, as many as are left or all there are, have been taken and the buffer rearranged. */
  lemma DataTaken(d: Decoder, t: Bytes, t': Bytes, src: nat, n: nat)
    requires d.phase.Data? && d.left > 0 && src + n <= |t| == |t'| && t[src + n..] == t'[src + n..]
    requires n == if |t| - src < d.left then |t| - src else d.left
    ensures n < d.left ==> Run(d, t, src) == Result(d.(left := d.left - n), t[src..src + n], src + n, More)
    ensures n == d.left ==>
      Run(d, t, src) == Emitting(t[src..src + n], Run(d.(left := 0, phase := Crlf), t', src + n))
  {
    var d' := if n == d.left then d.(left := 0, phase := Crlf) else d.(left := d.left - n);
    if n > 0 {
      RunData(d, t, src, n);
    }
    RunSuffix(d', t, t', src + n);
    hide Step;
  }

  lemma SameTail(a: Bytes, b: Bytes, src: nat, bufsz: nat)
    requires src <= bufsz <= |a| == |b| && a[src..] == b[src..]
    ensures a[src..bufsz] == b[src..bufsz] && a[bufsz..] == b[bufsz..]
  {
    assert a[src..bufsz] == a[src..][..bufsz - src] == b[src..][..bufsz - src] == b[src..bufsz];
    assert a[bufsz..] == a[src..][bufsz - src..] == b[src..][bufsz - src..] == b[bufsz..];
  }

  lemma AfterMove(before: Bytes, after: Bytes, src: nat, bufsz: nat)
    requires src <= bufsz <= |before| == |after| && before[src..] == after[src..]
    ensures before[..bufsz][src..] == after[..bufsz][src..]
  {
    assert before[..bufsz][src..] == before[src..][..bufsz - src];
    assert after[..bufsz][src..] == after[src..][..bufsz - src];
  }

  // ---- a whole input, in any number of calls

  /** What was put out before goes in front. */
  function Fed(out: Bytes, f: Feeding): Feeding {
    f.(out := out + f.out)
  }

  lemma FeedOne(d: Decoder, pieces: seq<Bytes>)
    requires pieces != []
    ensures var r := Run(d, pieces[0], 0);
      Feed(d, pieces) == if r.verdict.More? then Fed(r.out, Feed(r.decoder, pieces[1..]))
                         else Feeding(r.decoder, r.out, r.verdict, pieces[0][r.end..] + Join(pieces[1..]))
  {
    hide Run;
  }

  lemma FedTwice(a: Bytes, b: Bytes, f: Feeding)
    ensures Fed(a, Fed(b, f)) == Fed(a + b, f)
  {
    Regroup(a, b, f.out);
  }

  lemma FedNothing(d: Decoder, f: Feeding)
    ensures Fed([], f) == f && Feed(d, []) == Feeding(d, [], More, [])
  {
  }

  /**
   * The pieces of an input, handed over one buffer after the other until there is a verdict: the output, the
   * verdict, the decoder, and for a complete body what is left, are those of one call on the whole input.
   */
  method CallByPiece(decoder: ChunkedDecoder, pieces: seq<Bytes>) returns (out: Bytes, ret: int, rest: Bytes)
    requires Ok(decoder.State())
    modifies decoder
    ensures var one := OneCall(old(decoder.State()), Join(pieces));
      && decoder.State() == one.decoder && out == one.out
      && (match one.verdict
          case More => ret == -2
          case Failed => ret == -1
          case Finished => ret >= 0 && rest == one.rest)
  {
    hide Run, Ok, OneCall, Feed, Fed;
    ghost var whole := Feed(decoder.State(), pieces);
    FragmentationInvisible(decoder.State(), pieces);
    FedNothing(decoder.State(), whole);
    out, ret, rest := [], -2, [];
    var k := 0;
    assert pieces[0..] == pieces;
    while k < |pieces|
      invariant 0 <= k <= |pieces| && Ok(decoder.State()) && ret == -2
      invariant whole == Fed(out, Feed(decoder.State(), pieces[k..]))
    {
      var piece := pieces[k];
      ghost var after := pieces[k + 1..];
      FeedOne(decoder.State(), pieces[k..]);
      assert pieces[k..][0] == piece && pieces[k..][1..] == after;
      ghost var r := Run(decoder.State(), piece, 0);
      var part;
      ret, part, rest := CallOne(decoder, piece);
      if ret != -2 {
        FedVerdict(out, r, piece[r.end..] + Join(after));
        out := out + part;
        var others := JoinAll(pieces, k + 1);
        rest := rest + others;
        return;
      }
      FedTwice(out, part, Feed(decoder.State(), after));
      out := out + part;
      k := k + 1;
    }
    FedNothing(decoder.State(), whole);
    assert pieces[k..] == [];
    FedNone(out, decoder.State());
  }

  lemma FedVerdict(out: Bytes, r: Result, rest: Bytes)
    ensures Fed(out, Feeding(r.decoder, r.out, r.verdict, rest)) == Feeding(r.decoder, out + r.out, r.verdict, rest)
  {
  }

  lemma FedNone(out: Bytes, d: Decoder)
    ensures Fed(out, Feed(d, [])) == Feeding(d, out, More, [])
  {
  }

  method JoinAll(pieces: seq<Bytes>, from: nat) returns (all: Bytes)
    requires from <= |pieces|
    ensures all == Join(pieces[from..])
  {
    all := [];
    var k := |pieces|;
    while k > from
      invariant from <= k <= |pieces| && all == Join(pieces[k..])
    {
      k := k - 1;
      assert pieces[k..][0] == pieces[k] && pieces[k..][1..] == pieces[k + 1..];
      all := pieces[k] + all;
    }
  }

  /** One call on a buffer with one piece. */
  method CallOne(decoder: ChunkedDecoder, piece: Bytes) returns (ret: int, part: Bytes, rest: Bytes)
    requires Ok(decoder.State())
    modifies decoder
    ensures Ok(decoder.State())
    ensures var r := Run(old(decoder.State()), piece, 0);
      && decoder.State() == r.decoder && part == r.out
      && ret == (match r.verdict case More => -2 case Failed => -1 case Finished => |piece| - r.end)
      && (ret >= 0 ==> rest == piece[r.end..])
  {
    hide Run, Ok;
    var buf := new byte[|piece|](i requires 0 <= i < |piece| => piece[i]);
    assert buf[..|piece|] == piece;
    var size;
    ret, size := decoder.Decode(buf, |piece|);
    part := buf[..size];
    rest := if ret >= 0 then buf[size..size + ret] else [];
  }
}
