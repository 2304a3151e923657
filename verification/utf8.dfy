/** UTF-8 code points: the table-driven reader and the writer of string.c, against section 4 of
    RFC 3629. */
module Utf8 {
  import opened Words

  type byte = b: int | 0 <= b < 256
  type Bytes = seq<byte>

  const REPLACEMENT := 0xFFFD

  const CR: byte := 0x0D
  const LF: byte := 0x0A
  const SPACE: byte := 0x20
  const COLON: byte := 0x3A

  /** A C string is NUL-terminated: reading at its end, or further, yields 0. */
  function Read(t: Bytes, i: nat): byte {
    if i < |t| then t[i] else 0
  }

  function Remaining(t: Bytes, p: nat): nat {
    if p < |t| then |t| - p else 0
  }

  lemma Regroup(a: Bytes, b: Bytes, c: Bytes)
    ensures a + b + c == a + (b + c)
  {
  }

  // ---- section 4 of RFC 3629

  predicate Scalar(c: nat) {
    c < 0xD800 || 0xE000 <= c < 0x110000
  }

  predicate Tail(b: byte) {
    0x80 <= b < 0xC0
  }

  /** The bytes of one character, as the grammar of section 4 lists them. */
  predicate WellFormedChar(s: Bytes) {
    match |s|
    case 1 => s[0] < 0x80
    case 2 => 0xC2 <= s[0] < 0xE0 && Tail(s[1])
    case 3 =>
      && Tail(s[2])
      && (|| (s[0] == 0xE0 && 0xA0 <= s[1] < 0xC0)
          || (0xE1 <= s[0] < 0xED && Tail(s[1]))
          || (s[0] == 0xED && 0x80 <= s[1] < 0xA0)
          || (0xEE <= s[0] < 0xF0 && Tail(s[1])))
    case 4 =>
      && Tail(s[2]) && Tail(s[3])
      && (|| (s[0] == 0xF0 && 0x90 <= s[1] < 0xC0)
          || (0xF1 <= s[0] < 0xF4 && Tail(s[1]))
          || (s[0] == 0xF4 && 0x80 <= s[1] < 0x90))
    case _ => false
  }

  /** The number of bytes that a lead byte announces. */
  function Width(lead: byte): (n: nat)
    ensures 1 <= n <= 4
  {
    if lead < 0xC0 then 1 else if lead < 0xE0 then 2 else if lead < 0xF0 then 3 else 4
  }

  predicate WellFormed(s: Bytes) {
    s == [] || (Width(s[0]) <= |s| && WellFormedChar(s[..Width(s[0])]) && WellFormed(s[Width(s[0])..]))
  }

  // ---- the decoder automaton

  const ACCEPT := 0
  const REJECT := 12

  /** The first 256 entries of the table: the class of a byte. */
  function Class(b: byte): (c: nat)
    ensures c < 12
  {
    if b < 0x80 then 0
    else if b < 0x90 then 1
    else if b < 0xA0 then 9
    else if b < 0xC0 then 7
    else if b < 0xC2 then 8
    else if b < 0xE0 then 2
    else if b == 0xE0 then 10
    else if b < 0xED then 3
    else if b == 0xED then 4
    else if b < 0xF0 then 3
    else if b == 0xF0 then 11
    else if b < 0xF4 then 6
    else if b == 0xF4 then 5
    else 8
  }

  /** The remaining entries, twelve a state. */
  function Transition(state: nat, c: nat): nat {
    match state
    case 0 =>
      (match c
       case 0 => ACCEPT
       case 2 => 24
       case 3 => 36
       case 10 => 48
       case 4 => 60
       case 11 => 72
       case 6 => 84
       case 5 => 96
       case _ => REJECT)
    case 24 => if c == 1 || c == 7 || c == 9 then ACCEPT else REJECT
    case 36 => if c == 1 || c == 7 || c == 9 then 24 else REJECT
    case 48 => if c == 7 then 24 else REJECT
    case 60 => if c == 1 || c == 9 then 24 else REJECT
    case 72 => if c == 7 || c == 9 then 36 else REJECT
    case 84 => if c == 1 || c == 7 || c == 9 then 36 else REJECT
    case 96 => if c == 1 then 36 else REJECT
    case _ => REJECT
  }

  /** byte & (0xff >> c): the payload bits of a lead byte. */
  function LeadBits(b: byte, c: nat): nat {
    match c
    case 0 => b
    case 1 => b % 128
    case 2 => b % 64
    case 3 => b % 32
    case 4 => b % 16
    case 5 => b % 8
    case 6 => b % 4
    case 7 => b % 2
    case _ => 0
  }

  function StepCode(state: nat, code: nat, b: byte): nat {
    if state != ACCEPT then b % 64 + 64 * code else LeadBits(b, Class(b))
  }

  /** What a single code-point read comes to; accepted tells whether the automaton accepted. */
  datatype Char = Char(code: nat, end: nat, accepted: bool)

  function GetFrom(t: Bytes, p: nat, to: nat, state: nat, code: nat): (r: Char)
    ensures p <= r.end
    decreases if p < to then to - p else 0
  {
    if p >= to then Char(code, p, false)
    else
      var c := StepCode(state, code, Read(t, p));
      var next := Transition(state, Class(Read(t, p)));
      if next == ACCEPT then Char(c, p + 1, true)
      else if next == REJECT || p + 1 == to then Char(REPLACEMENT, p + 1, false)
      else GetFrom(t, p + 1, to, next, c)
  }

  function Get(t: Bytes, p: nat, to: nat): Char {
    GetFrom(t, p, to, ACCEPT, 0)
  }

  /** string_utf8_get: the loop over the automaton. */
  method GetChar(t: Bytes, from: nat, to: nat) returns (code: nat, end: nat)
    ensures code == Get(t, from, to).code && end == Get(t, from, to).end
  {
    var state: nat := ACCEPT;
    code := 0;
    end := from;
    while end < to
      invariant from <= end
      invariant end < to ==> GetFrom(t, end, to, state, code) == Get(t, from, to)
      invariant end >= to ==> end == from && code == 0
    {
      var b := Read(t, end);
      code := StepCode(state, code, b);
      state := Transition(state, Class(b));
      end := end + 1;
      if state == ACCEPT {
        break;
      }
      if state == REJECT || end == to {
        code := REPLACEMENT;
        break;
      }
    }
  }

  // ---- the writer

  function Put(code: nat): (s: Bytes)
    requires code < 0x200000
    ensures 1 <= |s| <= 4
  {
    if code < 0x80 then [code]
    else if code < 0x800 then [0xC0 + code / 64, 0x80 + code % 64]
    else if code < 0x10000 then [0xE0 + code / 4096, 0x80 + code / 64 % 64, 0x80 + code % 64]
    else [0xF0 + code / 262144, 0x80 + code / 4096 % 64, 0x80 + code / 64 % 64, 0x80 + code % 64]
  }

  /** The scalar value that a well-formed character stands for. */
  function Value(s: Bytes): nat
    requires WellFormedChar(s)
  {
    match |s|
    case 1 => s[0]
    case 2 => (s[0] as nat) % 32 * 64 + (s[1] as nat) % 64
    case 3 => (s[0] as nat) % 16 * 4096 + (s[1] as nat) % 64 * 64 + (s[2] as nat) % 64
    case _ => (s[0] as nat) % 8 * 262144 + (s[1] as nat) % 64 * 4096 + (s[2] as nat) % 64 * 64 + (s[3] as nat) % 64
  }

  /** The writer yields a well-formed character exactly for a scalar value, and Value reads it back. */
  lemma PutWellFormed(c: nat)
    requires c < 0x200000
    ensures WellFormedChar(Put(c)) <==> Scalar(c)
    ensures Scalar(c) ==> Value(Put(c)) == c && |Put(c)| == Width(Put(c)[0])
  {
    if c >= 0x10000 {
      PutFour(c);
    } else if c >= 0x800 {
      PutThree(c);
    }
  }

  lemma PutThree(c: nat)
    requires 0x800 <= c < 0x10000
    ensures WellFormedChar(Put(c)) <==> Scalar(c)
    ensures Scalar(c) ==> Value(Put(c)) == c
  {
    assert c / 64 == c / 4096 * 64 + c / 64 % 64;
  }

  lemma PutFour(c: nat)
    requires 0x10000 <= c < 0x200000
    ensures WellFormedChar(Put(c)) <==> Scalar(c)
    ensures Scalar(c) ==> Value(Put(c)) == c
  {
    var a, b := c / 262144, c / 4096 % 64;
    assert c / 4096 == a * 64 + b;
    assert 16 <= c / 4096 && (c / 4096 < 0x110 <==> c < 0x110000);
    assert c / 64 == c / 4096 * 64 + c / 64 % 64;
    assert Put(c) == [0xF0 + a, 0x80 + b, 0x80 + c / 64 % 64, 0x80 + c % 64];
  }

  /** A well-formed character is what the writer yields for its value. */
  lemma ValueThenPut(s: Bytes)
    requires WellFormedChar(s)
    ensures Scalar(Value(s)) && Put(Value(s)) == s && |s| == Width(s[0])
  {
    if |s| == 4 {
      ValueFour(s);
    } else if |s| == 3 {
      ValueThree(s);
    }
  }

  lemma ValueThree(s: Bytes)
    requires |s| == 3 && WellFormedChar(s)
    ensures Scalar(Value(s)) && Put(Value(s)) == s
  {
    var a: nat, b: nat, c: nat := s[0] - 0xE0, s[1] - 0x80, s[2] - 0x80;
    assert s == [0xE0 + a, 0x80 + b, 0x80 + c];
    assert a < 16 && b < 64 && c < 64 && (a == 0 ==> b >= 32) && (a == 13 ==> b < 32);
    hide *;
    SumThree(a, b, c);
    ScalarThree(a, b, c);
    PutDigits(0, a, b, c);
  }

  lemma SumThree(a: nat, b: nat, c: nat)
    requires a < 16 && b < 64 && c < 64
    ensures var s := [0xE0 + a, 0x80 + b, 0x80 + c];
      WellFormedChar(s) ==> Value(s) == a * 4096 + b * 64 + c
  {
    LowBits(a);
    LowBits(b);
    LowBits(c);
  }

  lemma ScalarThree(a: nat, b: nat, c: nat)
    requires a < 16 && b < 64 && c < 64 && (a == 0 ==> b >= 32) && (a == 13 ==> b < 32)
    ensures var v := a * 4096 + b * 64 + c;
      0x800 <= v < 0x10000 && Scalar(v)
  {
  }

  lemma ValueFour(s: Bytes)
    requires |s| == 4 && WellFormedChar(s)
    ensures Scalar(Value(s)) && Put(Value(s)) == s
  {
    var a: nat, b: nat, c: nat, d: nat := s[0] - 0xF0, s[1] - 0x80, s[2] - 0x80, s[3] - 0x80;
    assert s == [0xF0 + a, 0x80 + b, 0x80 + c, 0x80 + d];
    assert a < 5 && b < 64 && c < 64 && d < 64 && (a == 0 ==> b >= 16) && (a == 4 ==> b < 16);
    hide *;
    SumFour(a, b, c, d);
    ScalarFour(a, b, c, d);
    PutDigits(a, b, c, d);
  }

  lemma SumFour(a: nat, b: nat, c: nat, d: nat)
    requires a < 5 && b < 64 && c < 64 && d < 64
    ensures var s := [0xF0 + a, 0x80 + b, 0x80 + c, 0x80 + d];
      WellFormedChar(s) ==> Value(s) == a * 262144 + b * 4096 + c * 64 + d
  {
    LowBits(a);
    LowBits(b);
    LowBits(c);
    LowBits(d);
  }

  lemma ScalarFour(a: nat, b: nat, c: nat, d: nat)
    requires a < 5 && b < 64 && c < 64 && d < 64 && (a == 0 ==> b >= 16) && (a == 4 ==> b < 16)
    ensures var v := a * 262144 + b * 4096 + c * 64 + d;
      0x10000 <= v < 0x110000 && Scalar(v)
  {
  }

  /** The bits of a lead or tail byte below its marker. */
  lemma LowBits(x: nat)
    ensures x < 64 ==> (0x80 + x) % 64 == x
    ensures x < 16 ==> (0xE0 + x) % 16 == x
    ensures x < 8 ==> (0xF0 + x) % 8 == x
  {
  }

  lemma PutDigits(a: nat, b: nat, c: nat, d: nat)
    requires a < 5 && b < 64 && c < 64 && d < 64
    ensures var v := a * 262144 + b * 4096 + c * 64 + d;
      && (v >= 0x10000 ==> Put(v) == [0xF0 + a, 0x80 + b, 0x80 + c, 0x80 + d])
      && (0x800 <= v < 0x10000 ==> Put(v) == [0xE0 + b, 0x80 + c, 0x80 + d])
  {
    Digits(a, b, c, d);
  }

  lemma Digits(a: nat, b: nat, c: nat, d: nat)
    requires b < 64 && c < 64 && d < 64
    ensures var v := a * 262144 + b * 4096 + c * 64 + d;
      v % 64 == d && v / 64 % 64 == c && v / 4096 % 64 == b && v / 262144 == a && v / 4096 == a * 64 + b
  {
  }

  function Window(t: Bytes, p: nat, n: nat): (w: Bytes)
    ensures |w| == n
  {
    seq<byte>(n, i requires 0 <= i < n => Read(t, p + i))
  }

  /** The character that the lead byte at p announces is all there, before to, and well formed. */
  predicate CharAt(t: Bytes, p: nat, to: nat) {
    var n := Width(Read(t, p));
    p + n <= to && WellFormedChar(Window(t, p, n))
  }

  /** A read accepts exactly the sequences of section 4 and then returns their value; otherwise it
      returns U+FFFD. It always consumes at least one byte. */
  lemma GetAccepts(t: Bytes, p: nat, to: nat)
    requires p < to
    ensures Accepts(t, p, to)
  {
    var b := Read(t, p);
    var state := Transition(ACCEPT, Class(b));
    if state == 24 {
      AcceptsTwo(t, p, to);
    } else if state == 36 || state == 48 || state == 60 {
      AcceptsThree(t, p, to);
    } else if state != ACCEPT && state != REJECT {
      AcceptsFour(t, p, to);
    }
  }

  ghost predicate Accepts(t: Bytes, p: nat, to: nat) {
    var r := Get(t, p, to);
    && p < r.end <= to
    && (r.accepted <==> CharAt(t, p, to))
    && (r.accepted ==> r.code == Value(Window(t, p, Width(Read(t, p)))) && r.end == p + Width(Read(t, p)))
    && (!r.accepted ==> r.code == REPLACEMENT)
  }

  lemma AcceptsTwo(t: Bytes, p: nat, to: nat)
    requires p < to && 0xC2 <= Read(t, p) < 0xE0
    ensures Accepts(t, p, to)
  {
    if p + 1 < to {
      GetTail(t, p + 1, to, Read(t, p) % 64);
    }
  }

  lemma AcceptsThree(t: Bytes, p: nat, to: nat)
    requires p < to && 0xE0 <= Read(t, p) < 0xF0
    ensures Accepts(t, p, to)
  {
    var b := Read(t, p);
    if p + 1 < to {
      GetTwo(t, p + 1, to, Transition(ACCEPT, Class(b)), LeadBits(b, Class(b)));
    }
  }

  lemma AcceptsFour(t: Bytes, p: nat, to: nat)
    requires p < to && 0xF0 <= Read(t, p) < 0xF5
    ensures Accepts(t, p, to)
  {
    var b := Read(t, p);
    if p + 1 < to {
      GetThree(t, p + 1, to, Transition(ACCEPT, Class(b)), LeadBits(b, Class(b)));
    }
  }

  lemma GetTail(t: Bytes, p: nat, to: nat, code: nat)
    requires p < to
    ensures GetFrom(t, p, to, 24, code) ==
      if Tail(Read(t, p)) then Char(Read(t, p) % 64 + 64 * code, p + 1, true) else Char(REPLACEMENT, p + 1, false)
  {
  }

  lemma GetTwo(t: Bytes, p: nat, to: nat, state: nat, code: nat)
    requires p <= to && state in {36, 48, 60}
    ensures p < to ==>
      var b := Read(t, p);
      var good := Tail(b) && (state == 48 ==> b >= 0xA0) && (state == 60 ==> b < 0xA0);
      GetFrom(t, p, to, state, code) ==
        if !good || p + 1 == to then Char(REPLACEMENT, p + 1, false)
        else GetFrom(t, p + 1, to, 24, b % 64 + 64 * code)
  {
  }

  lemma GetThree(t: Bytes, p: nat, to: nat, state: nat, code: nat)
    requires p <= to && state in {72, 84, 96}
    ensures p < to ==>
      var b := Read(t, p);
      var good := Tail(b) && (state == 72 ==> b >= 0x90) && (state == 96 ==> b < 0x90);
      GetFrom(t, p, to, state, code) ==
        if !good || p + 1 == to then Char(REPLACEMENT, p + 1, false)
        else GetFrom(t, p + 1, to, 36, b % 64 + 64 * code)
  {
  }

  /** A read of a written scalar value returns it and consumes exactly its bytes. */
  lemma PutThenGet(c: nat, t: Bytes, p: nat, to: nat)
    requires Scalar(c) && p + |Put(c)| <= to && p + |Put(c)| <= |t| && t[p..p + |Put(c)|] == Put(c)
    ensures Get(t, p, to) == Char(c, p + |Put(c)|, true)
  {
    PutWellFormed(c);
    var n := |Put(c)|;
    forall i | 0 <= i < n ensures Window(t, p, n)[i] == Put(c)[i] {
      assert Put(c)[i] == t[p..p + n][i] == t[p + i];
    }
    assert Window(t, p, n) == Put(c);
    assert Read(t, p) == Window(t, p, n)[0];
    GetAccepts(t, p, to);
  }

  /** The writer's bytes, with the bit operators of the source. */
  lemma PutTwoIsOr(c: nat)
    requires 0x80 <= c < 0x800
    ensures Put(c) == [Or(0xC0, c / 64), Or(0x80, c % 64)]
  {
    OrFive(c / 64);
    OrSix(c % 64);
  }

  lemma PutThreeIsOr(c: nat)
    requires 0x800 <= c < 0x10000
    ensures Put(c) == [Or(0xE0, c / 4096), Or(0x80, c / 64 % 64), Or(0x80, c % 64)]
  {
    hide Or;
    OrFour(c / 4096);
    OrSix(c / 64 % 64);
    OrSix(c % 64);
  }

  lemma PutFourIsOr(c: nat)
    requires 0x10000 <= c < 0x200000
    ensures Put(c) == [Or(0xF0, c / 262144), Or(0x80, c / 4096 % 64), Or(0x80, c / 64 % 64), Or(0x80, c % 64)]
  {
    hide Or;
    FourOr(c / 262144, c / 4096 % 64, c / 64 % 64, c % 64);
  }

  lemma FourOr(a: nat, b: nat, c: nat, d: nat)
    requires a < 8 && b < 64 && c < 64 && d < 64
    ensures 0xF0 + a == Or(0xF0, a) && 0x80 + b == Or(0x80, b) && 0x80 + c == Or(0x80, c) && 0x80 + d == Or(0x80, d)
  {
    OrThree(a);
    OrSix(b);
    OrSix(c);
    OrSix(d);
  }

  lemma WindowInside(t: Bytes, p: nat, n: nat)
    requires p + n <= |t|
    ensures Window(t, p, n) == t[p..p + n]
  {
    forall i | 0 <= i < n ensures Window(t, p, n)[i] == t[p..p + n][i] {
      assert Window(t, p, n)[i] == Read(t, p + i);
    }
  }

  lemma OrSix(b: nat)
    requires b < 64
    ensures Or(0x80, b) == 0x80 + b
  {
    assert Pow2(6) == 64 by { assert Pow2(3) == 8; }
    OrDisjoint(2, 6, b);
  }

  lemma OrFive(b: nat)
    requires b < 32
    ensures Or(0xC0, b) == 0xC0 + b
  {
    assert Pow2(5) == 32 by { assert Pow2(3) == 8; }
    OrDisjoint(6, 5, b);
  }

  lemma OrFour(b: nat)
    requires b < 16
    ensures Or(0xE0, b) == 0xE0 + b
  {
    assert Pow2(4) == 16 by { assert Pow2(3) == 8; }
    OrDisjoint(14, 4, b);
  }

  lemma OrThree(b: nat)
    requires b < 8
    ensures Or(0xF0, b) == 0xF0 + b
  {
    assert Pow2(3) == 8;
    OrDisjoint(30, 3, b);
  }
}
