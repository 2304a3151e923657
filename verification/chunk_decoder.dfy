/** The resumable chunked decoder, phr_decode_chunked, as an automaton over bytes. */
module ChunkDecoder {
  import opened Utf8
  import opened Hex

  const HEX_DIGITS_MAX := 16
  const SIZE_LIMIT := 0x1_0000_0000_0000_0000

  datatype Phase = Size | Ext | Data | Crlf | LineHead | LineMiddle

  datatype Decoder = Decoder(left: nat, trailer: bool, hex: nat, phase: Phase)

  datatype Verdict = More | Failed | Finished

  /** Where one byte leads; on failure the byte is not consumed. */
  datatype Move = Move(decoder: Decoder, emits: bool, verdict: Verdict)

  function Step(d: Decoder, b: byte): Move {
    match d.phase
    case Size =>
      if !IsHex(b) then
        if d.hex == 0 then Move(d, false, Failed) else StepExt(d.(hex := 0, phase := Ext), b)
      else if d.hex == HEX_DIGITS_MAX then Move(d, false, Failed)
      else Move(d.(left := d.left * 16 + HexValue(b), hex := d.hex + 1), false, More)
    case Ext => StepExt(d, b)
    case Data =>
      if d.left == 0 then Move(d, false, Failed)
      else if d.left == 1 then Move(d.(left := 0, phase := Crlf), true, More)
      else Move(d.(left := d.left - 1), true, More)
    case Crlf =>
      if b == CR then Move(d, false, More)
      else if b == LF then Move(d.(phase := Size), false, More)
      else Move(d, false, Failed)
    case LineHead =>
      if b == CR then Move(d, false, More)
      else if b == LF then Move(d, false, Finished)
      else Move(d.(phase := LineMiddle), false, More)
    case LineMiddle => Move(if b == LF then d.(phase := LineHead) else d, false, More)
  }

  function StepExt(d: Decoder, b: byte): Move {
    if b != LF then Move(d, false, More)
    else if d.left > 0 then Move(d.(phase := Data), false, More)
    else if d.trailer then Move(d.(phase := LineHead), false, More)
    else Move(d, false, Finished)
  }

  /** The outcome of a call: decoder state, decoded bytes, bytes consumed, verdict. */
  datatype Result = Result(decoder: Decoder, out: Bytes, end: nat, verdict: Verdict)

  function Emitting(out: Bytes, r: Result): Result {
    r.(out := out + r.out)
  }

  function Run(d: Decoder, s: Bytes, i: nat): (r: Result)
    requires i <= |s|
    ensures i <= r.end <= |s| && (r.verdict.More? ==> r.end == |s|)
    ensures |r.out| <= r.end - i
    decreases |s| - i
  {
    if i == |s| then Result(d, [], i, More)
    else
      var m := Step(d, s[i]);
      match m.verdict
      case Failed => Result(m.decoder, [], i, Failed)
      case Finished => Result(m.decoder, [], i + 1, Finished)
      case More => Emitting(if m.emits then [s[i]] else [], Run(m.decoder, s, i + 1))
  }

  // ---- the states a call can be in

  function Pow16(k: nat): (p: nat)
    ensures p >= 1
  {
    if k == 0 then 1 else 16 * Pow16(k - 1)
  }

  /** The digits read so far bound the size, and outside the size line the digit count is zero. */
  predicate Ok(d: Decoder) {
    && d.hex <= HEX_DIGITS_MAX && d.left < SIZE_LIMIT
    && (if d.phase.Size? then d.left < Pow16(d.hex) else d.hex == 0)
    && (d.phase.Data? ==> d.left > 0)
    && (d.phase in {Crlf, LineHead, LineMiddle} ==> d.left == 0)
  }

  lemma {:induction false} Pow16Mono(a: nat, b: nat)
    requires a <= b
    ensures Pow16(a) <= Pow16(b)
  {
    if a < b {
      Pow16Mono(a, b - 1);
    }
  }

  lemma Pow16Four(k: nat)
    ensures Pow16(k + 4) == 65536 * Pow16(k)
  {
    assert Pow16(k + 2) == 256 * Pow16(k);
  }

  lemma Pow16Bound(k: nat)
    requires k <= HEX_DIGITS_MAX
    ensures Pow16(k) <= SIZE_LIMIT
  {
    Pow16Mono(k, HEX_DIGITS_MAX);
    Pow16Four(0);
    Pow16Four(4);
    Pow16Four(8);
    Pow16Four(12);
  }

  lemma DigitOk(d: Decoder, v: nat)
    requires Ok(d) && d.phase.Size? && d.hex < HEX_DIGITS_MAX && v < 16
    ensures Ok(d.(left := d.left * 16 + v, hex := d.hex + 1))
  {
    Pow16Bound(d.hex + 1);
  }

  lemma StepOk(d: Decoder, b: byte)
    requires Ok(d)
    ensures Ok(Step(d, b).decoder)
  {
    hide Pow16;
    if d.phase.Size? && IsHex(b) && d.hex < HEX_DIGITS_MAX {
      DigitOk(d, HexValue(b));
    }
    hide IsHex, HexValue;
  }

  /** Whatever the input, the remaining chunk size stays below 2^64: the digit count sees to it. */
  lemma {:induction false} RunOk(d: Decoder, s: Bytes, i: nat)
    requires Ok(d) && i <= |s|
    ensures Ok(Run(d, s, i).decoder)
    decreases |s| - i
  {
    hide Step, Ok;
    if i < |s| {
      StepOk(d, s[i]);
      if Step(d, s[i]).verdict.More? {
        RunOk(Step(d, s[i]).decoder, s, i + 1);
      }
    }
  }

  // ---- fragmentation

  lemma {:induction false} RunAppend(d: Decoder, a: Bytes, b: Bytes, i: nat)
    requires i <= |a|
    ensures Run(d, a, i).verdict.More? ==>
      var r := Run(Run(d, a, i).decoder, a + b, |a|);
      Run(d, a + b, i) == Emitting(Run(d, a, i).out, r)
    ensures !Run(d, a, i).verdict.More? ==> Run(d, a + b, i) == Run(d, a, i)
    decreases |a| - i
  {
    hide Step;
    if i < |a| {
      assert (a + b)[i] == a[i];
      var m := Step(d, a[i]);
      if m.verdict.More? {
        RunAppend(m.decoder, a, b, i + 1);
        if Run(d, a, i).verdict.More? {
          var e := if m.emits then [a[i]] else [];
          var r := Run(Run(d, a, i).decoder, a + b, |a|);
          Regroup(e, Run(m.decoder, a, i + 1).out, r.out);
        }
      }
    }
  }

  lemma {:induction false} RunShift(d: Decoder, a: Bytes, b: Bytes, i: nat)
    requires i <= |b|
    ensures Run(d, a + b, |a| + i) == Run(d, b, i).(end := |a| + Run(d, b, i).end)
    decreases |b| - i
  {
    hide Step;
    if i < |b| {
      assert (a + b)[|a| + i] == b[i];
      if Step(d, b[i]).verdict.More? {
        RunShift(Step(d, b[i]).decoder, a, b, i + 1);
      }
    }
  }

  lemma NothingRead(d: Decoder)
    ensures Run(d, [], 0) == Result(d, [], 0, More)
  {
  }

  function Join(pieces: seq<Bytes>): Bytes {
    if pieces == [] then [] else pieces[0] + Join(pieces[1..])
  }

  /** What a caller sees that passes one piece a call until a call does not ask for more: the output so far,
      the verdict, the decoder, and the bytes after those consumed. */
  datatype Feeding = Feeding(decoder: Decoder, out: Bytes, verdict: Verdict, rest: Bytes)

  function Feed(d: Decoder, pieces: seq<Bytes>): Feeding
    decreases |pieces|
  {
    if pieces == [] then Feeding(d, [], More, [])
    else
      var r := Run(d, pieces[0], 0);
      if r.verdict.More? then
        var f := Feed(r.decoder, pieces[1..]);
        f.(out := r.out + f.out)
      else Feeding(r.decoder, r.out, r.verdict, pieces[0][r.end..] + Join(pieces[1..]))
  }

  function OneCall(d: Decoder, s: Bytes): Feeding {
    var r := Run(d, s, 0);
    Feeding(r.decoder, r.out, r.verdict, s[r.end..])
  }

  /** Output, verdict, decoder and leftover do not depend on how the input is cut up. */
  lemma {:induction false} FragmentationInvisible(d: Decoder, pieces: seq<Bytes>)
    ensures Feed(d, pieces) == OneCall(d, Join(pieces))
    decreases |pieces|
  {
    hide Run;
    if pieces == [] {
      NothingRead(d);
    } else {
      var a, b := pieces[0], Join(pieces[1..]);
      var r := Run(d, a, 0);
      RunAppend(d, a, b, 0);
      if r.verdict.More? {
        RunShift(r.decoder, a, b, 0);
        FragmentationInvisible(r.decoder, pieces[1..]);
        var end := Run(r.decoder, b, 0).end;
        assert (a + b)[|a| + end..] == b[end..];
      } else {
        assert (a + b)[r.end..] == a[r.end..] + b;
      }
    }
  }
}
