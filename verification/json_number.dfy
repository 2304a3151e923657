/** The number scanner against the grammar of section 6 of RFC 8259. */
module JsonNumber {
  import opened Common
  import opened Utf8
  import opened JsonValue
  import opened JsonGrammar

  predicate Digits(s: Bytes) {
    s != [] && forall i :: 0 <= i < |s| ==> 0x30 <= s[i] <= 0x39
  }

  predicate Int(s: Bytes) {
    Digits(s) && (s[0] == 0x30 ==> |s| == 1)
  }

  predicate Frac(s: Bytes) {
    s == [] || (s[0] == 0x2E && Digits(s[1..]))
  }

  /** The digits of an exponent; the grammar allows leading zeros there, the scanner does not. */
  predicate ExpDigits(s: Bytes, narrow: bool) {
    if narrow then Int(s) else Digits(s)
  }

  predicate Exp(s: Bytes, narrow: bool) {
    s == [] ||
    ((s[0] == 0x65 || s[0] == 0x45)
     && (ExpDigits(s[1..], narrow) || (|s| > 1 && (s[1] == 0x2D || s[1] == 0x2B) && ExpDigits(s[2..], narrow))))
  }

  /** [ minus ] int [ frac ] [ exp ], with the parts ending at f and e. */
  predicate Parts(l: Bytes, f: nat, e: nat, narrow: bool) {
    var i := if Read(l, 0) == 0x2D then 1 else 0;
    i <= f <= e <= |l| && Int(l[i..f]) && Frac(l[f..e]) && Exp(l[e..], narrow)
  }

  ghost predicate Number(l: Bytes, narrow: bool) {
    exists f, e :: Parts(l, f, e, narrow)
  }

  // ---- one part at a time

  lemma {:induction false} DigitsEndIs(l: Bytes, i: nat, f: nat)
    requires i < f <= |l| && Digits(l[i..f]) && !IsDigit(Read(l, f))
    ensures DigitsEnd(l, i) == f
    decreases f - i
  {
    assert l[i] == l[i..f][0];
    if i + 1 < f {
      assert l[i + 1..f] == l[i..f][1..];
      DigitsEndIs(l, i + 1, f);
    }
  }

  lemma DigitsScanned(l: Bytes, i: nat)
    requires IsDigit(Read(l, i))
    ensures i < DigitsEnd(l, i) <= |l| && Digits(l[i..DigitsEnd(l, i)])
  {
    var f := DigitsEnd(l, i);
    forall k | 0 <= k < f - i ensures IsDigit(l[i..f][k]) {
      assert IsDigit(Read(l, i + k));
    }
  }

  lemma IntScanned(l: Bytes, i: nat)
    requires IntEnd(l, i).Some?
    ensures i < IntEnd(l, i).value <= |l| && Int(l[i..IntEnd(l, i).value]) && !IsDigit(Read(l, IntEnd(l, i).value))
  {
    DigitsScanned(l, i);
    var f := DigitsEnd(l, i);
    assert l[i..f][0] == l[i];
    if l[i] == ZERO {
      assert DigitsEnd(l, i) == DigitsEnd(l, i + 1) == i + 1;
    }
  }

  lemma IntEndIs(l: Bytes, i: nat, f: nat)
    requires i <= f <= |l| && Int(l[i..f]) && !IsDigit(Read(l, f))
    ensures IntEnd(l, i) == Some(f)
  {
    assert l[i..f][0] == l[i];
    DigitsEndIs(l, i, f);
  }

  lemma FracScanned(l: Bytes, f: nat)
    requires f <= |l| && FracEnd(l, f).Some?
    ensures f <= FracEnd(l, f).value <= |l| && Frac(l[f..FracEnd(l, f).value])
  {
    if Read(l, f) == DOT {
      DigitsScanned(l, f + 1);
      var e := FracEnd(l, f).value;
      assert l[f..e][1..] == l[f + 1..e] && l[f..e][0] == l[f];
    } else {
      assert l[f..f] == [];
    }
  }

  lemma FracEndIs(l: Bytes, f: nat, e: nat)
    requires f <= e <= |l| && Frac(l[f..e])
    requires if f < e then !IsDigit(Read(l, e)) else Read(l, e) != DOT
    ensures FracEnd(l, f) == Some(e)
  {
    if f < e {
      assert l[f..e][1..] == l[f + 1..e] && l[f..e][0] == l[f];
      assert l[f + 1..e][0] == l[f + 1];
      DigitsEndIs(l, f + 1, e);
    }
  }

  lemma ExpScanned(l: Bytes, e: nat)
    requires e <= |l| && ExpEnd(l, e) == Some(|l|)
    ensures Exp(l[e..], true)
  {
    if e < |l| {
      var signed := Read(l, e + 1) == MINUS || Read(l, e + 1) == PLUS;
      var q := if signed then e + 2 else e + 1;
      assert Read(l, e) == 0x65 || Read(l, e) == 0x45;
      IntScanned(l, q);
      assert l[q..|l|] == l[e..][q - e..];
    }
  }

  lemma ExpEndIs(l: Bytes, e: nat)
    requires e <= |l| && Exp(l[e..], true)
    ensures ExpEnd(l, e) == Some(|l|)
  {
    if e < |l| {
      var s := l[e..];
      assert s[1..] == l[e + 1..|l|];
      if ExpDigits(s[1..], true) {
        assert s[1..][0] == l[e + 1];
        IntEndIs(l, e + 1, |l|);
      } else {
        assert s[2..] == l[e + 2..|l|];
        IntEndIs(l, e + 2, |l|);
      }
    }
  }

  lemma ExpEndAt(t: Bytes, e: nat, end: nat)
    requires e <= end <= |t| && Exp(t[e..end], true)
    requires if e < end then !IsDigit(Read(t, end)) else Read(t, e) != 0x65 && Read(t, e) != 0x45
    ensures ExpEnd(t, e) == Some(end)
  {
    if e < end {
      var s := t[e..end];
      assert s[0] == t[e] && (|s| > 1 ==> s[1] == t[e + 1]);
      assert s[1..] == t[e + 1..end];
      if ExpDigits(s[1..], true) {
        assert s[1..][0] == t[e + 1];
        IntEndIs(t, e + 1, end);
      } else {
        assert s[2..] == t[e + 2..end];
        IntEndIs(t, e + 2, end);
      }
    }
  }

  // ---- where a number ends

  predicate HasPoint(l: Bytes) {
    exists i :: 0 <= i < |l| && l[i] == 0x2E
  }

  predicate HasExponent(l: Bytes) {
    exists i :: 0 <= i < |l| && (l[i] == 0x65 || l[i] == 0x45)
  }

  /** The character c does not go on with the number l: no digit, and no second point or exponent's beginning. */
  predicate Ends(l: Bytes, c: byte) {
    && !(0x30 <= c <= 0x39)
    && (c == 0x2E ==> HasPoint(l) || HasExponent(l))
    && (c == 0x65 || c == 0x45 ==> HasExponent(l))
  }

  lemma PartsPlain(l: Bytes, f: nat, e: nat)
    requires Parts(l, f, e, true)
    ensures f < |l| ==> !IsDigit(l[f])
    ensures e < |l| ==> l[e] == 0x65 || l[e] == 0x45
    ensures f < e ==> l[f] == 0x2E
    ensures e == |l| ==> !HasExponent(l)
    ensures f == e == |l| ==> !HasPoint(l)
  {
    assert e < |l| ==> l[e..][0] == l[e];
    assert f < e ==> l[f..e][0] == l[f];
    var i := if Read(l, 0) == MINUS then 1 else 0;
    assert forall k :: i <= k < f ==> l[k] == l[i..f][k - i];
    assert forall k :: f < k < e ==> l[k] == l[f..e][1..][k - f - 1];
  }

  /** The scanner takes a number of the grammar whole where it ends. */
  lemma ScannedAt(t: Bytes, p: nat, end: nat)
    requires p <= end <= |t| && Number(t[p..end], true) && Ends(t[p..end], Read(t, end))
    ensures NumberEnd(t, p) == Some(end)
  {
    hide Parts, Ends;
    var f: nat, e: nat :| Parts(t[p..end], f, e, true);
    PartsAt(t, p, end, f, e);
  }

  lemma PartsAt(t: Bytes, p: nat, end: nat, f: nat, e: nat)
    requires p <= end <= |t| && Parts(t[p..end], f, e, true) && Ends(t[p..end], Read(t, end))
    ensures NumberEnd(t, p) == Some(end)
  {
    var l := t[p..end];
    PartsPlain(l, f, e);
    PartsMoved(t, p, end, f, e);
    hide Int, Frac, Exp, HasPoint, HasExponent;
    var i := if Read(t, p) == MINUS then p + 1 else p;
    assert f < |l| ==> l[f] == t[p + f];
    assert e < |l| ==> l[e] == t[p + e];
    assert e < |l| ==> Read(t, end) != 0x2E || HasPoint(l) || HasExponent(l);
    NumberFrom(t, p, i, p + f, p + e, end);
  }

  lemma PartsMoved(t: Bytes, p: nat, end: nat, f: nat, e: nat)
    requires p <= end <= |t| && Parts(t[p..end], f, e, true)
    ensures var i := if Read(t, p) == MINUS then p + 1 else p;
      i < p + f <= p + e <= end && Int(t[i..p + f]) && Frac(t[p + f..p + e]) && Exp(t[p + e..end], true)
  {
    var l := t[p..end];
    var k := if Read(l, 0) == MINUS then 1 else 0;
    hide Frac, Exp;
    IntNotEmpty(l, k, f);
    assert Read(t, p) == Read(l, 0);
    Slice(t, p, end, p + k, p + f);
    Slice(t, p, end, p + f, p + e);
    Slice(t, p, end, p + e, end);
    assert l[e..|l|] == l[e..];
  }

  lemma NumberFrom(t: Bytes, p: nat, i: nat, f: nat, e: nat, end: nat)
    requires i == if Read(t, p) == MINUS then p + 1 else p
    requires i < f <= e <= end <= |t| && Int(t[i..f]) && Frac(t[f..e]) && Exp(t[e..end], true)
    requires !IsDigit(Read(t, f))
    requires if f < e then !IsDigit(Read(t, e)) else Read(t, f) != DOT
    requires if e < end then !IsDigit(Read(t, end)) else Read(t, e) != 0x65 && Read(t, e) != 0x45
    ensures NumberEnd(t, p) == Some(end)
  {
    hide IntEnd, FracEnd, ExpEnd, Int, Frac, Exp;
    IntEndIs(t, i, f);
    FracEndIs(t, f, e);
    ExpEndAt(t, e, end);
  }

  lemma IntNotEmpty(l: Bytes, i: nat, f: nat)
    requires i <= f <= |l| && Int(l[i..f])
    ensures i < f
  {
  }

  lemma EndsThere(t: Bytes, p: nat)
    requires NumberEnd(t, p).Some?
    ensures var end := NumberEnd(t, p).value; p < end <= |t| && Ends(t[p..end], Read(t, end))
  {
    var end := NumberEnd(t, p).value;
    var l := t[p..end];
    var i := if Read(t, p) == MINUS then p + 1 else p;
    var f := IntEnd(t, i).value;
    var e := FracEnd(t, f).value;
    IntScanned(t, i);
    FracScanned(t, f);
    if Read(t, e) == 0x65 || Read(t, e) == 0x45 {
      ExpInside(t, e);
      assert l[e - p] == t[e];
    } else if Read(t, f) == DOT {
      assert l[f - p] == t[f];
    }
  }

  /** The scanner takes exactly the numbers of the grammar whose exponents have no leading zero. */
  lemma NumberGrammar(l: Bytes)
    ensures IsNumber(l) <==> Number(l, true)
  {
    if IsNumber(l) {
      Scanned(l);
    }
    if Number(l, true) {
      var f, e :| Parts(l, f, e, true);
      PartsScanned(l, f, e);
    }
  }

  lemma Scanned(l: Bytes)
    requires IsNumber(l)
    ensures Number(l, true)
  {
    var i := if Read(l, 0) == MINUS then 1 else 0;
    var f := IntEnd(l, i).value;
    IntScanned(l, i);
    FracScanned(l, f);
    var e := FracEnd(l, f).value;
    ExpScanned(l, e);
    assert Parts(l, f, e, true);
  }

  lemma PartsScanned(l: Bytes, f: nat, e: nat)
    requires Parts(l, f, e, true)
    ensures IsNumber(l)
  {
    var i := if Read(l, 0) == MINUS then 1 else 0;
    assert e < |l| ==> l[e..][0] == l[e];
    assert f < e ==> l[f..e][0] == l[f];
    ExpEndIs(l, e);
    FracEndIs(l, f, e);
    IntEndIs(l, i, f);
  }

  /** What a number is decoded from is a number of the grammar, whatever text follows it. */
  lemma DecodedIsNumber(t: Bytes, p: nat, fits: Bytes -> bool)
    requires ParseNumber(t, p, fits).Done?
    ensures var r := ParseNumber(t, p, fits);
      p < r.end <= |t| && r.value == JsonValue.Value.Number(t[p..r.end]) && Number(t[p..r.end], true)
  {
    var end := NumberEnd(t, p).value;
    var i := if Read(t, p) == MINUS then p + 1 else p;
    var f := IntEnd(t, i).value;
    IntScanned(t, i);
    FracScanned(t, f);
    ExpInside(t, FracEnd(t, f).value);
    hide IntEnd, FracEnd, ExpEnd, Int, Frac, Exp;
    PartsOf(t, p, f, FracEnd(t, f).value, end);
  }

  lemma PartsOf(t: Bytes, p: nat, f: nat, e: nat, end: nat)
    requires p < end <= |t|
    requires var i := if Read(t, p) == MINUS then p + 1 else p;
      i <= f <= e <= end && Int(t[i..f]) && Frac(t[f..e]) && Exp(t[e..end], true)
    ensures Number(t[p..end], true)
  {
    hide Int, Frac, Exp;
    var l := t[p..end];
    var i := if Read(t, p) == MINUS then p + 1 else p;
    Slice(t, p, end, i, f);
    Slice(t, p, end, f, e);
    Slice(t, p, end, e, end);
    assert l[e - p..] == l[e - p..end - p];
    assert Read(l, 0) == Read(t, p);
    assert Parts(l, f - p, e - p, true);
  }

  lemma Slice(t: Bytes, p: nat, end: nat, a: nat, b: nat)
    requires p <= a <= b <= end <= |t|
    ensures t[p..end][a - p..b - p] == t[a..b]
  {
    var l := t[p..end];
    forall k | 0 <= k < b - a ensures l[a - p..b - p][k] == t[a..b][k] {
      assert l[a - p + k] == t[a + k];
    }
    assert l[a - p..b - p] == t[a..b];
  }

  lemma ExpInside(t: Bytes, e: nat)
    requires e <= |t| && ExpEnd(t, e).Some?
    ensures e <= ExpEnd(t, e).value <= |t| && Exp(t[e..ExpEnd(t, e).value], true)
  {
    if Read(t, e) == 0x65 || Read(t, e) == 0x45 {
      var signed := Read(t, e + 1) == MINUS || Read(t, e + 1) == PLUS;
      var q := if signed then e + 2 else e + 1;
      IntScanned(t, q);
      var end := ExpEnd(t, e).value;
      assert t[e..end][q - e..] == t[q..end] && t[e..end][0] == t[e];
      if signed {
        assert t[e..end][1] == t[e + 1];
      }
    } else {
      assert t[e..e] == [];
    }
  }

  /** The grammar of the standard is wider: it has 1e09. */
  lemma LeadingZeroExponent()
    ensures var l := [0x31, 0x65, 0x30, 0x39]; Number(l, false) && !IsNumber(l)
  {
    var l: Bytes := [0x31, 0x65, 0x30, 0x39];
    assert l[0..1] == [0x31] && l[1..1] == [] && l[1..] == [0x65, 0x30, 0x39] && l[1..][1..] == [0x30, 0x39];
    assert Parts(l, 1, 1, false);
    assert DigitsEnd(l, 0) == 1;
  }
}
