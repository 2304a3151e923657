/** Decoding undoes encoding of JSON values, compact or pretty. */
module JsonRoundTrip {
  import opened Common
  import opened Utf8
  import opened JsonString
  import opened JsonStringLaws
  import opened JsonValue
  import opened JsonGrammar
  import opened JsonKeys
  import opened JsonEncode

  // ---- numbers

  predicate NumberChar(c: byte) {
    IsDigit(c) || c == MINUS || c == PLUS || c == DOT || c == 0x65 || c == 0x45 || c == 0x78 || c == 0x58
  }

  /** The two texts look alike to the number scanner: l stands in t at p and is followed by nothing numeric. */
  ghost predicate Alike(l: Bytes, t: Bytes, p: nat) {
    && (forall i :: 0 <= i < |l| ==> Read(t, p + i) == l[i])
    && !NumberChar(Read(t, p + |l|))
  }

  lemma {:induction false} DigitsShift(l: Bytes, t: Bytes, p: nat, i: nat)
    requires Alike(l, t, p) && i <= |l|
    ensures DigitsEnd(t, p + i) == p + DigitsEnd(l, i)
    decreases |l| - i
  {
    if i < |l| {
      assert Read(t, p + i) == l[i];
      if IsDigit(l[i]) {
        DigitsShift(l, t, p, i + 1);
      }
    }
  }

  lemma ReadShift(l: Bytes, t: Bytes, p: nat, i: nat)
    requires Alike(l, t, p) && i <= |l|
    ensures Read(t, p + i) == Read(l, i) || (i == |l| && !NumberChar(Read(t, p + i)))
  {
  }

  function Shifted(r: Option<nat>, p: nat): Option<nat> {
    match r
    case None => None
    case Some(e) => Some(e + p)
  }

  lemma IntShift(l: Bytes, t: Bytes, p: nat, i: nat)
    requires Alike(l, t, p) && i <= |l|
    ensures IntEnd(t, p + i) == Shifted(IntEnd(l, i), p)
    ensures IntEnd(l, i).Some? ==> i < IntEnd(l, i).value <= |l|
  {
    ReadShift(l, t, p, i);
    DigitsShift(l, t, p, i);
    if i < |l| {
      ReadShift(l, t, p, i + 1);
    }
  }

  lemma FracShift(l: Bytes, t: Bytes, p: nat, i: nat)
    requires Alike(l, t, p) && i <= |l|
    ensures FracEnd(t, p + i) == Shifted(FracEnd(l, i), p)
    ensures FracEnd(l, i).Some? ==> FracEnd(l, i).value <= |l|
  {
    ReadShift(l, t, p, i);
    if i < |l| {
      ReadShift(l, t, p, i + 1);
      DigitsShift(l, t, p, i + 1);
    }
  }

  lemma ExpShift(l: Bytes, t: Bytes, p: nat, i: nat)
    requires Alike(l, t, p) && i <= |l|
    ensures ExpEnd(t, p + i) == Shifted(ExpEnd(l, i), p)
  {
    ReadShift(l, t, p, i);
    if i < |l| {
      ReadShift(l, t, p, i + 1);
      IntShift(l, t, p, i + 1);
      if i + 1 < |l| {
        IntShift(l, t, p, i + 2);
      }
    }
  }

  lemma NumberShift(l: Bytes, t: Bytes, p: nat)
    requires Alike(l, t, p) && IsNumber(l)
    ensures NumberEnd(t, p) == Some(p + |l|)
  {
    hide Alike, IntEnd, FracEnd, ExpEnd;
    assert Read(t, p) == Read(l, 0) by { FirstChar(l, t, p); }
    var i := if Read(l, 0) == MINUS then 1 else 0;
    assert i <= |l|;
    IntShift(l, t, p, i);
    var f := IntEnd(l, i).value;
    FracShift(l, t, p, f);
    ExpShift(l, t, p, FracEnd(l, f).value);
  }

  lemma FirstChar(l: Bytes, t: Bytes, p: nat)
    requires Alike(l, t, p) && IsNumber(l)
    ensures |l| > 0 && Read(t, p) == Read(l, 0)
  {
    ReadShift(l, t, p, 0);
  }

  lemma NumberTrip(l: Bytes, t: Bytes, p: nat, fits: Bytes -> bool)
    requires IsNumber(l) && fits(l) && EscapeAt(t, p, l) && !NumberChar(Read(t, p + |l|))
    ensures ParseNumber(t, p, fits) == Done(Number(l), p + |l|)
    ensures IsDigit(Read(t, p)) || Read(t, p) == MINUS
  {
    forall i | 0 <= i < |l| ensures Read(t, p + i) == l[i] {
      ReadAt(t, p, l, i);
    }
    NumberShift(l, t, p);
    assert Read(t, p) == Read(l, 0);
  }

  // ---- what comes back unchanged

  /** No undefined value, well-formed strings and keys, and numbers that strtold takes. */
  ghost predicate Writable(v: Value, fits: Bytes -> bool)
    decreases v
  {
    match v
    case Undefined => false
    case Number(l) => IsNumber(l) && fits(l)
    case String(s) => WellFormed(s)
    case Array(xs) => forall i :: 0 <= i < |xs| ==> Writable(xs[i], fits)
    case Object(m) => forall k :: k in m ==> WellFormed(k) && Writable(m[k], fits)
    case _ => true
  }

  /** What a value comes back as; where two keys come back the same, the later one in the text wins. */
  ghost function Reread(v: Value, ascii: bool): Value
    decreases v, 1
  {
    match v
    case String(s) => String(ReadBack(s, ascii))
    case Array(xs) => Array(Elements(v, |xs|, ascii))
    case Object(m) => Object(Members(v, SortedKeys(m.Keys), |SortedKeys(m.Keys)|, ascii))
    case _ => v
  }

  /** The first i elements, as they come back. */
  ghost function Elements(v: Value, i: nat, ascii: bool): seq<Value>
    requires v.Array? && i <= |v.elements|
    decreases v, 0, i
  {
    if i == 0 then [] else Elements(v, i - 1, ascii) + [Reread(v.elements[i - 1], ascii)]
  }

  /** The members of the first i keys, as they come back. */
  ghost function Members(v: Value, keys: seq<Bytes>, i: nat, ascii: bool): map<Bytes, Value>
    requires v.Object? && i <= |keys| && forall k :: k in keys ==> k in v.members
    decreases v, 0, i
  {
    if i == 0 then map[]
    else Members(v, keys, i - 1, ascii)[ReadBack(keys[i - 1], ascii) := Reread(v.members[keys[i - 1]], ascii)]
  }

  /** Every string and key of the tree keeps to the planes that survive. */
  ghost predicate AllSurvive(v: Value)
    decreases v
  {
    match v
    case String(s) => WellFormed(s) && PlanesSurvive(s)
    case Array(xs) => forall i :: 0 <= i < |xs| ==> AllSurvive(xs[i])
    case Object(m) => forall k :: k in m ==> WellFormed(k) && PlanesSurvive(k) && AllSurvive(m[k])
    case _ => true
  }

  lemma BodyTrip(s: Bytes, opts: Options, t: Bytes, p: nat, body: Bytes)
    requires WellFormed(s) && body == EncodeFrom(s, 0, opts.ascii)
    requires EscapeAt(t, p, [QUOTE] + body + [QUOTE])
    ensures Read(t, p) == QUOTE && Read(t, p + 1 + |body|) == QUOTE
    ensures DecodeFrom(t, p + 1) == Token(ReadBack(s, opts.ascii), p + 1 + |body|)
  {
    hide EncodeFrom, WellFormed, ReadBack, EscapeAt, DecodeFrom;
    SplitEscape(t, p, [QUOTE] + body, [QUOTE]);
    SplitEscape(t, p, [QUOTE], body);
    ReadAt(t, p, [QUOTE], 0);
    ReadAt(t, p + 1 + |body|, [QUOTE], 0);
    DecodesTo(s, opts.ascii, t, p + 1);
  }

  lemma StringTrip(s: Bytes, opts: Options, t: Bytes, p: nat)
    requires WellFormed(s) && EscapeAt(t, p, Quoted(s, opts))
    ensures Read(t, p) == QUOTE
    ensures ParseString(t, p) == Done(String(ReadBack(s, opts.ascii)), p + |Quoted(s, opts)|)
  {
    hide EncodeFrom, DecodeFrom, WellFormed, ReadBack, EscapeAt;
    BodyTrip(s, opts, t, p, EncodeFrom(s, 0, opts.ascii));
  }

  // ---- values

  /** What may follow a printed value: nothing that a number could run on into. */
  predicate Delimited(t: Bytes, q: nat) {
    !NumberChar(Read(t, q))
  }

  lemma PrintHead(v: Value, depth: nat, opts: Options, fits: Bytes -> bool)
    requires Writable(v, fits)
    ensures var s := Print(v, depth, opts);
      s != [] && !IsSpace(s[0]) && s[0] != RBRACKET && s[0] != RBRACE && s[0] != COMMA
  {
    if v.Number? {
      var l := v.lexeme;
      assert Alike(l, l, 0);
      IntShift(l, l, 0, if Read(l, 0) == MINUS then 1 else 0);
    }
  }

  /** White space printed for a line break is skipped. */
  lemma BreakSkipped(t: Bytes, p: nat, depth: nat, opts: Options)
    requires EscapeAt(t, p, Break(depth, opts)) && !IsSpace(Read(t, p + |Break(depth, opts)|))
    ensures Ws(t, p) == p + |Break(depth, opts)|
  {
    var b := Break(depth, opts);
    forall i | p <= i < p + |b| ensures IsSpace(Read(t, i)) {
      ReadAt(t, p, b, i - p);
    }
    WsRun(t, p, p + |b|);
  }

  lemma {:induction false} WsRun(t: Bytes, p: nat, q: nat)
    requires p <= q && forall i :: p <= i < q ==> IsSpace(Read(t, i))
    requires !IsSpace(Read(t, q))
    ensures Ws(t, p) == q
    decreases q - p
  {
    if p < q {
      WsRun(t, p + 1, q);
    }
  }

  lemma ScalarTrip(v: Value, depth: nat, opts: Options, fits: Bytes -> bool, t: Bytes, p: nat)
    requires Writable(v, fits) && !v.Array? && !v.Object?
    requires EscapeAt(t, p, Print(v, depth, opts)) && Delimited(t, p + |Print(v, depth, opts)|)
    ensures ParseValue(t, p, fits) == Done(Reread(v, opts.ascii), p + |Print(v, depth, opts)|)
  {
    var s := Print(v, depth, opts);
    PrintHead(v, depth, opts, fits);
    ReadAt(t, p, s, 0);
    match v {
      case Number(l) => NumberTrip(l, t, p, fits);
      case String(x) => StringTrip(x, opts, t, p);
      case Bool(b) =>
        if !b {
          assert !WordAt(t, p, TRUE_TEXT) by {
            if WordAt(t, p, TRUE_TEXT) {
              ReadAt(t, p, TRUE_TEXT, 0);
            }
          }
        }
      case _ =>
    }
    hide ParseString, ParseNumber;
  }

  // ---- containers: a printed tail of elements or members is parsed after the part before it

  lemma {:induction false} ValueTrip(v: Value, depth: nat, opts: Options, fits: Bytes -> bool, t: Bytes, p: nat)
    requires Writable(v, fits)
    requires EscapeAt(t, p, Print(v, depth, opts)) && Delimited(t, p + |Print(v, depth, opts)|)
    ensures ParseValue(t, p, fits) == Done(Reread(v, opts.ascii), p + |Print(v, depth, opts)|)
    decreases v, 1, 0
  {
    hide Writable, Reread, Elements, Members, PrintElements, PrintMembers, ParseElements, ParseMembers, ParseScalar, Ws;
    hide SortedKeys;
    match v {
      case Array(xs) =>
        SplitEscape(t, p, [LBRACKET], PrintElements(v, 0, depth + 1, opts));
        ReadAt(t, p, [LBRACKET], 0);
        FirstElement(v, depth + 1, opts, fits, t, p + 1);
      case Object(m) =>
        SplitEscape(t, p, [LBRACE], PrintMembers(v, SortedKeys(m.Keys), 0, depth + 1, opts));
        ReadAt(t, p, [LBRACE], 0);
        FirstMember(v, depth + 1, opts, fits, t, p + 1);
      case _ =>
        ScalarTrip(v, depth, opts, fits, t, p);
    }
  }

  lemma {:induction false} FirstElement(v: Value, depth: nat, opts: Options, fits: Bytes -> bool, t: Bytes, p: nat)
    requires v.Array? && depth > 0 && Writable(v, fits)
    requires EscapeAt(t, p, PrintElements(v, 0, depth, opts))
    ensures var q, end := Ws(t, p), p + |PrintElements(v, 0, depth, opts)|;
      if v.elements == [] then Read(t, q) == RBRACKET && q + 1 == end && Reread(v, opts.ascii) == Array([])
      else Read(t, q) != RBRACKET && ParseElements(t, q, [], fits) == Done(Reread(v, opts.ascii), end)
    decreases v, 0, |v.elements| + 1, 0
  {
    if v.elements == [] {
      assert Reread(v, opts.ascii) == Array([]);
      ReadAt(t, p, [RBRACKET], 0);
    } else {
      FirstIsOne(v, depth, opts);
      hide Writable, Reread, Elements, Members, PrintElements, ElementText, ParseElements, EscapeAt;
      OneElement(v, 0, depth, opts, fits, t, p);
      NoElements(v, opts.ascii);
    }
  }

  lemma FirstIsOne(v: Value, depth: nat, opts: Options)
    requires v.Array? && v.elements != [] && depth > 0
    ensures PrintElements(v, 0, depth, opts) == ElementText(v, 0, depth, opts)
  {
    hide Print, Break;
    assert Separator(0) + Break(depth, opts) == Break(depth, opts);
  }

  /** A line break, element i and the tail after it. */
  ghost function ElementText(v: Value, i: nat, depth: nat, opts: Options): Bytes
    requires v.Array? && i < |v.elements| && depth > 0
  {
    Break(depth, opts) + Print(v.elements[i], depth, opts) + PrintElements(v, i + 1, depth, opts)
  }

  lemma ElementParsed(t: Bytes, q: nat, xs: seq<Value>, x: Value, e: nat, fits: Bytes -> bool)
    requires ParseValue(t, q, fits) == Done(x, e)
    ensures ParseElements(t, q, xs, fits) == RestOfArray(t, e, xs + [x], fits)
  {
    hide RestOfArray, ParseValue;
  }

  lemma {:induction false} OneElement(v: Value, i: nat, depth: nat, opts: Options, fits: Bytes -> bool, t: Bytes,
                                      p: nat)
    requires v.Array? && i < |v.elements| && depth > 0 && Writable(v, fits)
    requires EscapeAt(t, p, ElementText(v, i, depth, opts))
    ensures Read(t, Ws(t, p)) != RBRACKET
    ensures ParseElements(t, Ws(t, p), Elements(v, i, opts.ascii), fits)
         == Done(Reread(v, opts.ascii), p + |ElementText(v, i, depth, opts)|)
    decreases v, 0, |v.elements| - i, 0
  {
    hide *;
    ElementFacts(v, i, fits);
    var x := v.elements[i];
    var q, e := ElementSplit(v, i, depth, opts, fits, t, p);
    RestOfElements(v, i + 1, depth, opts, fits, t, e);
    ValueTrip(x, depth, opts, fits, t, q);
    ElementParsed(t, q, Elements(v, i, opts.ascii), Reread(x, opts.ascii), e, fits);
    ElementsStep(v, i, opts.ascii);
  }

  lemma ElementFacts(v: Value, i: nat, fits: Bytes -> bool)
    requires v.Array? && Writable(v, fits) && i < |v.elements|
    ensures Writable(v.elements[i], fits)
  {
  }

  lemma NoElements(v: Value, ascii: bool)
    requires v.Array?
    ensures Elements(v, 0, ascii) == []
  {
  }

  lemma ElementsStep(v: Value, i: nat, ascii: bool)
    requires v.Array? && i < |v.elements|
    ensures Elements(v, i + 1, ascii) == Elements(v, i, ascii) + [Reread(v.elements[i], ascii)]
  {
  }

  lemma RereadArray(v: Value, ascii: bool)
    requires v.Array?
    ensures Reread(v, ascii) == Array(Elements(v, |v.elements|, ascii))
  {
  }

  lemma RereadObject(v: Value, keys: seq<Bytes>, ascii: bool)
    requires v.Object? && keys == SortedKeys(v.members.Keys)
    ensures (forall k :: k in keys <==> k in v.members) && Reread(v, ascii) == Object(Members(v, keys, |keys|, ascii))
  {
  }

  lemma NoMembers(v: Value, keys: seq<Bytes>, ascii: bool)
    requires v.Object? && forall k :: k in keys ==> k in v.members
    ensures Members(v, keys, 0, ascii) == map[]
  {
  }

  lemma MembersStep(v: Value, keys: seq<Bytes>, i: nat, ascii: bool)
    requires v.Object? && i < |keys| && forall k :: k in keys ==> k in v.members
    ensures keys[i] in v.members
    ensures Members(v, keys, i + 1, ascii)
         == Members(v, keys, i, ascii)[ReadBack(keys[i], ascii) := Reread(v.members[keys[i]], ascii)]
  {
    hide Reread, ReadBack;
    assert keys[i] in keys;
  }

  lemma SplitThree(t: Bytes, p: nat, a: Bytes, b: Bytes, c: Bytes)
    requires EscapeAt(t, p, a + b + c)
    ensures EscapeAt(t, p, a) && EscapeAt(t, p + |a|, b) && EscapeAt(t, p + |a| + |b|, c)
  {
    hide EscapeAt;
    SplitEscape(t, p, a + b, c);
    SplitEscape(t, p, a, b);
  }

  lemma SplitFive(t: Bytes, p: nat, a: Bytes, b: Bytes, c: Bytes, d: Bytes, e: Bytes)
    requires EscapeAt(t, p, a + b + c + d + e)
    ensures EscapeAt(t, p, a) && EscapeAt(t, p + |a|, b) && EscapeAt(t, p + |a| + |b|, c)
    ensures EscapeAt(t, p + |a| + |b| + |c|, d) && EscapeAt(t, p + |a| + |b| + |c| + |d|, e)
  {
    hide EscapeAt;
    SplitThree(t, p, a + b + c, d, e);
    SplitThree(t, p, a, b, c);
  }

  /** Where element i begins and ends. */
  lemma ElementSplit(v: Value, i: nat, depth: nat, opts: Options, fits: Bytes -> bool, t: Bytes, p: nat)
    returns (q: nat, e: nat)
    requires v.Array? && i < |v.elements| && depth > 0 && Writable(v.elements[i], fits)
    requires EscapeAt(t, p, ElementText(v, i, depth, opts))
    ensures q == Ws(t, p) && e == q + |Print(v.elements[i], depth, opts)|
    ensures e + |PrintElements(v, i + 1, depth, opts)| == p + |ElementText(v, i, depth, opts)|
    ensures Read(t, q) != RBRACKET
    ensures EscapeAt(t, q, Print(v.elements[i], depth, opts)) && EscapeAt(t, e, PrintElements(v, i + 1, depth, opts))
  {
    hide Print, PrintElements, Break, Ws, EscapeAt, Writable, Read, IsSpace;
    var s := Print(v.elements[i], depth, opts);
    PrintHead(v.elements[i], depth, opts, fits);
    ElementPlace(t, p, depth, opts, s, PrintElements(v, i + 1, depth, opts));
    q, e := p + |Break(depth, opts)|, p + |Break(depth, opts)| + |s|;
  }

  lemma ElementPlace(t: Bytes, p: nat, depth: nat, opts: Options, s: Bytes, rest: Bytes)
    requires s != [] && !IsSpace(s[0]) && EscapeAt(t, p, Break(depth, opts) + s + rest)
    ensures var q := p + |Break(depth, opts)|;
      && Ws(t, p) == q && Read(t, q) == s[0] && EscapeAt(t, q, s) && EscapeAt(t, q + |s|, rest)
  {
    SplitThree(t, p, Break(depth, opts), s, rest);
    ReadAt(t, p + |Break(depth, opts)|, s, 0);
    BreakSkipped(t, p, depth, opts);
    hide Ws, Break, EscapeAt;
  }

  lemma MemberPlace(t: Bytes, p: nat, depth: nat, opts: Options, key: Bytes, s: Bytes, rest: Bytes)
    requires WellFormed(key) && s != [] && !IsSpace(s[0])
    requires EscapeAt(t, p, Break(depth, opts) + Quoted(key, opts) + Colon(opts) + s + rest)
    ensures var q := p + |Break(depth, opts)|;
      var afterKey := q + |Quoted(key, opts)|;
      var start := afterKey + |Colon(opts)|;
      && Ws(t, p) == q && Read(t, q) == QUOTE && ParseString(t, q) == Done(String(ReadBack(key, opts.ascii)), afterKey)
      && Ws(t, afterKey) == afterKey && Read(t, afterKey) == COLON && Ws(t, afterKey + 1) == start
      && EscapeAt(t, start, s) && EscapeAt(t, start + |s|, rest)
  {
    var b, k, c := Break(depth, opts), Quoted(key, opts), Colon(opts);
    hide Ws, Break, Quoted, Colon, EscapeAt, WellFormed, ReadBack, ParseString;
    SplitFive(t, p, b, k, c, s, rest);
    StringTrip(key, opts, t, p + |b|);
    BreakSkipped(t, p, depth, opts);
    ReadAt(t, p + |b| + |k| + |c|, s, 0);
    ColonSkipped(t, p + |b| + |k|, opts);
  }

  /** The break and the bracket or brace that closes a container. */
  lemma ClosingFound(t: Bytes, p: nat, depth: nat, opts: Options, c: byte)
    requires c == RBRACKET || c == RBRACE
    requires EscapeAt(t, p, Break(depth, opts) + [c])
    ensures Ws(t, p) + 1 == p + |Break(depth, opts) + [c]| && Read(t, Ws(t, p)) == c && Delimited(t, p)
  {
    var b := Break(depth, opts);
    hide Break, Ws;
    SplitEscape(t, p, b, [c]);
    ReadAt(t, p + |b|, [c], 0);
    BreakSkipped(t, p, depth, opts);
    BreakDelimited(t, p, depth, opts);
  }

  lemma {:induction false} RestOfElements(v: Value, i: nat, depth: nat, opts: Options, fits: Bytes -> bool, t: Bytes,
                                          p: nat)
    requires v.Array? && 0 < i <= |v.elements| && depth > 0 && Writable(v, fits)
    requires EscapeAt(t, p, PrintElements(v, i, depth, opts))
    ensures Delimited(t, p)
    ensures RestOfArray(t, p, Elements(v, i, opts.ascii), fits)
         == Done(Reread(v, opts.ascii), p + |PrintElements(v, i, depth, opts)|)
    decreases v, 0, |v.elements| - i, 1
  {
    hide Writable, Reread, Elements, Members, Break, ParseElements, Print, ElementText, Ws;
    if i == |v.elements| {
      ClosingFound(t, p, depth - 1, opts, RBRACKET);
      RereadArray(v, opts.ascii);
    } else {
      ElementTail(v, i, depth, opts);
      SplitEscape(t, p, [COMMA], ElementText(v, i, depth, opts));
      ReadAt(t, p, [COMMA], 0);
      OneElement(v, i, depth, opts, fits, t, p + 1);
      NextParsed(t, p, Elements(v, i, opts.ascii), fits);
    }
  }

  lemma NextParsed(t: Bytes, p: nat, xs: seq<Value>, fits: Bytes -> bool)
    requires Read(t, p) == COMMA
    ensures Delimited(t, p)
    ensures RestOfArray(t, p, xs, fits) == ParseElements(t, Ws(t, p + 1), xs, fits)
  {
    hide ParseElements;
  }

  lemma ElementTail(v: Value, i: nat, depth: nat, opts: Options)
    requires v.Array? && 0 < i < |v.elements| && depth > 0
    ensures PrintElements(v, i, depth, opts) == [COMMA] + ElementText(v, i, depth, opts)
  {
    hide Break, Print;
    FourParts([COMMA], Break(depth, opts), Print(v.elements[i], depth, opts), PrintElements(v, i + 1, depth, opts));
    ThreeParts(Break(depth, opts), Print(v.elements[i], depth, opts), PrintElements(v, i + 1, depth, opts));
  }

  lemma ThreeParts(a: Bytes, b: Bytes, c: Bytes)
    ensures a + (b + c) == a + b + c
  {
  }

  lemma BreakDelimited(t: Bytes, p: nat, depth: nat, opts: Options)
    requires EscapeAt(t, p, Break(depth, opts)) && Delimited(t, p + |Break(depth, opts)|)
    ensures Delimited(t, p)
  {
    if opts.pretty {
      ReadAt(t, p, Break(depth, opts), 0);
    }
  }

  lemma {:induction false} FirstMember(v: Value, depth: nat, opts: Options, fits: Bytes -> bool, t: Bytes, p: nat)
    requires v.Object? && depth > 0 && Writable(v, fits)
    requires EscapeAt(t, p, PrintMembers(v, SortedKeys(v.members.Keys), 0, depth, opts))
    ensures var q, end := Ws(t, p), p + |PrintMembers(v, SortedKeys(v.members.Keys), 0, depth, opts)|;
      if v.members == map[] then Read(t, q) == RBRACE && q + 1 == end && Reread(v, opts.ascii) == Object(map[])
      else Read(t, q) != RBRACE && ParseMembers(t, q, map[], fits) == Done(Reread(v, opts.ascii), end)
    decreases v, 0, |SortedKeys(v.members.Keys)| + 1, 0
  {
    var m := v.members;
    var keys := SortedKeys(m.Keys);
    RereadObject(v, keys, opts.ascii);
    NoMembers(v, keys, opts.ascii);
    if keys == [] {
      assert m == map[] by {
        assert forall k :: k in m ==> k in keys;
      }
      ReadAt(t, p, [RBRACE], 0);
    } else {
      assert keys[0] in m;
      FirstIsOneMember(v, keys, depth, opts);
      hide Writable, Reread, Elements, Members, PrintMembers, MemberText, ParseMembers, EscapeAt;
      OneMember(v, keys, 0, depth, opts, fits, t, p);
    }
  }

  lemma FirstIsOneMember(v: Value, keys: seq<Bytes>, depth: nat, opts: Options)
    requires v.Object? && keys != [] && depth > 0 && forall k :: k in keys ==> k in v.members
    ensures PrintMembers(v, keys, 0, depth, opts) == MemberText(v, keys, 0, depth, opts)
  {
    hide Print, Break, Quoted, Colon;
    assert Separator(0) + Break(depth, opts) == Break(depth, opts);
  }

  /** A line break, a key with its value, and the tail after it. */
  lemma {:induction false} OneMember(v: Value, keys: seq<Bytes>, i: nat, depth: nat, opts: Options, fits: Bytes -> bool,
                                     t: Bytes, p: nat)
    requires v.Object? && depth > 0 && Writable(v, fits)
    requires i < |keys| && keys == SortedKeys(v.members.Keys)
    requires EscapeAt(t, p, MemberText(v, keys, i, depth, opts))
    ensures var q := Ws(t, p);
      Read(t, q) != RBRACE
      && ParseMembers(t, q, Members(v, keys, i, opts.ascii), fits)
         == Done(Reread(v, opts.ascii), p + |MemberText(v, keys, i, depth, opts)|)
    decreases v, 0, |keys| - i, 0
  {
    hide *;
    MemberFacts(v, keys, i, fits);
    var m, key := v.members, keys[i];
    var q, afterKey, start, e := MemberSplit(v, keys, i, depth, opts, fits, t, p);
    RestOfMembers(v, keys, i + 1, depth, opts, fits, t, e);
    ValueTrip(m[key], depth, opts, fits, t, start);
    RereadObject(v, keys, opts.ascii);
    MembersStep(v, keys, i, opts.ascii);
    MemberParsed(t, q, Members(v, keys, i, opts.ascii), ReadBack(key, opts.ascii), Reread(m[key], opts.ascii),
                 afterKey, start, e, fits);
  }

  lemma MemberFacts(v: Value, keys: seq<Bytes>, i: nat, fits: Bytes -> bool)
    requires v.Object? && Writable(v, fits) && i < |keys| && keys == SortedKeys(v.members.Keys)
    ensures forall k :: k in keys <==> k in v.members
    ensures keys[i] in v.members && WellFormed(keys[i]) && Writable(v.members[keys[i]], fits)
  {
    assert keys[i] in keys;
  }

  /** Where member i, its colon and its value begin, and where it ends. */
  lemma MemberSplit(v: Value, keys: seq<Bytes>, i: nat, depth: nat, opts: Options, fits: Bytes -> bool, t: Bytes,
                    p: nat)
    returns (q: nat, afterKey: nat, start: nat, e: nat)
    requires v.Object? && depth > 0 && i < |keys| && forall k :: k in keys ==> k in v.members
    requires WellFormed(keys[i]) && Writable(v.members[keys[i]], fits)
    requires EscapeAt(t, p, MemberText(v, keys, i, depth, opts))
    ensures q == Ws(t, p) && Read(t, q) == QUOTE && Read(t, q) != RBRACE
    ensures ParseString(t, q) == Done(String(ReadBack(keys[i], opts.ascii)), afterKey)
    ensures Ws(t, afterKey) == afterKey && Read(t, afterKey) == COLON && Ws(t, afterKey + 1) == start
    ensures EscapeAt(t, start, Print(v.members[keys[i]], depth, opts))
    ensures e == start + |Print(v.members[keys[i]], depth, opts)|
      && EscapeAt(t, e, PrintMembers(v, keys, i + 1, depth, opts))
    ensures e + |PrintMembers(v, keys, i + 1, depth, opts)| == p + |MemberText(v, keys, i, depth, opts)|
  {
    hide Print, PrintMembers, Break, Quoted, Colon, Ws, EscapeAt, ParseString, WellFormed, Writable, ReadBack, Read,
      IsSpace;
    var key, value := keys[i], v.members[keys[i]];
    var s := Print(value, depth, opts);
    PrintHead(value, depth, opts, fits);
    MemberPlace(t, p, depth, opts, key, s, PrintMembers(v, keys, i + 1, depth, opts));
    q := p + |Break(depth, opts)|;
    afterKey := q + |Quoted(key, opts)|;
    start := afterKey + |Colon(opts)|;
    e := start + |s|;
  }

  /** What OneMember finds in the text. */
  ghost function MemberText(v: Value, keys: seq<Bytes>, i: nat, depth: nat, opts: Options): Bytes
    requires v.Object? && i < |keys| && depth > 0 && forall k :: k in keys ==> k in v.members
  {
    Break(depth, opts) + Quoted(keys[i], opts) + Colon(opts) + Print(v.members[keys[i]], depth, opts)
    + PrintMembers(v, keys, i + 1, depth, opts)
  }

  lemma ColonSkipped(t: Bytes, p: nat, opts: Options)
    requires EscapeAt(t, p, Colon(opts)) && !IsSpace(Read(t, p + |Colon(opts)|))
    ensures Ws(t, p) == p && Read(t, p) == COLON && Ws(t, p + 1) == p + |Colon(opts)|
  {
    ReadAt(t, p, Colon(opts), 0);
    if opts.pretty {
      ReadAt(t, p, Colon(opts), 1);
      WsRun(t, p + 1, p + 2);
    }
  }

  lemma MemberParsed(t: Bytes, q: nat, part: map<Bytes, Value>, key: Bytes, value: Value, afterKey: nat, start: nat,
                     e: nat, fits: Bytes -> bool)
    requires Read(t, q) == QUOTE && ParseString(t, q) == Done(String(key), afterKey)
    requires Ws(t, afterKey) == afterKey && Read(t, afterKey) == COLON && Ws(t, afterKey + 1) == start
    requires ParseValue(t, start, fits) == Done(value, e)
    ensures ParseMembers(t, q, part, fits) == RestOfObject(t, e, part[key := value], fits)
  {
    hide ParseString, RestOfObject, ParseValue;
  }

  lemma {:induction false} RestOfMembers(v: Value, keys: seq<Bytes>, i: nat, depth: nat, opts: Options,
                                         fits: Bytes -> bool, t: Bytes, p: nat)
    requires v.Object? && depth > 0 && Writable(v, fits)
    requires 0 < i <= |keys| && keys == SortedKeys(v.members.Keys)
    requires EscapeAt(t, p, PrintMembers(v, keys, i, depth, opts))
    ensures Delimited(t, p)
    ensures RestOfObject(t, p, Members(v, keys, i, opts.ascii), fits)
         == Done(Reread(v, opts.ascii), p + |PrintMembers(v, keys, i, depth, opts)|)
    decreases v, 0, |keys| - i, 1
  {
    hide Writable, Reread, Elements, Members, Break, ParseMembers, Print, MemberText, Ws;
    if i == |keys| {
      ClosingFound(t, p, depth - 1, opts, RBRACE);
      RereadObject(v, keys, opts.ascii);
    } else {
      MemberTail(v, keys, i, depth, opts);
      SplitEscape(t, p, [COMMA], MemberText(v, keys, i, depth, opts));
      ReadAt(t, p, [COMMA], 0);
      OneMember(v, keys, i, depth, opts, fits, t, p + 1);
      NextMemberParsed(t, p, Members(v, keys, i, opts.ascii), fits);
    }
  }

  lemma NextMemberParsed(t: Bytes, p: nat, m: map<Bytes, Value>, fits: Bytes -> bool)
    requires Read(t, p) == COMMA
    ensures Delimited(t, p)
    ensures RestOfObject(t, p, m, fits) == ParseMembers(t, Ws(t, p + 1), m, fits)
  {
    hide ParseMembers;
  }

  lemma MemberTail(v: Value, keys: seq<Bytes>, i: nat, depth: nat, opts: Options)
    requires v.Object? && 0 < i < |keys| && depth > 0 && forall k :: k in keys ==> k in v.members
    ensures PrintMembers(v, keys, i, depth, opts) == [COMMA] + MemberText(v, keys, i, depth, opts)
  {
    hide Break, Quoted, Colon, Print;
    SixParts([COMMA], Break(depth, opts), Quoted(keys[i], opts), Colon(opts), Print(v.members[keys[i]], depth, opts),
             PrintMembers(v, keys, i + 1, depth, opts));
  }

  lemma SixParts(a: Bytes, b: Bytes, c: Bytes, d: Bytes, e: Bytes, f: Bytes)
    ensures a + b + c + d + e + f == a + (b + c + d + e + f)
  {
  }

  // ---- the whole text

  /**
   * Decoding an encoded value consumes all the text, and gives the value back in raw mode always, in ASCII mode if
   * and only if every string and key of the tree keeps to the planes that survive.
   */
  lemma TextRoundTrip(v: Value, opts: Options, fits: Bytes -> bool)
    requires Writable(v, fits)
    ensures var text := Print(v, 0, opts);
      && ParseText(text, 0, fits) == Done(Reread(v, opts.ascii), |text|)
      && (ParseText(text, 0, fits) == Done(v, |text|) <==> (opts.ascii ==> AllSurvive(v)))
  {
    hide *;
    var text := Print(v, 0, opts);
    PrintHead(v, 0, opts, fits);
    Alone(text);
    ValueTrip(v, 0, opts, fits, text, 0);
    WholeText(text, Reread(v, opts.ascii), fits);
    RereadIff(v, opts.ascii, fits);
  }

  lemma Alone(text: Bytes)
    ensures EscapeAt(text, 0, text) && Delimited(text, 0 + |text|)
  {
    assert text[0..|text|] == text;
  }

  lemma WholeText(text: Bytes, v: Value, fits: Bytes -> bool)
    requires text != [] && !IsSpace(text[0]) && ParseValue(text, 0, fits) == Done(v, 0 + |text|)
    ensures ParseText(text, 0, fits) == Done(v, |text|)
  {
    hide ParseValue;
  }

  // ---- what comes back unchanged

  lemma {:induction false} ElementAt(v: Value, n: nat, i: nat, ascii: bool)
    requires v.Array? && i < n <= |v.elements|
    ensures |Elements(v, n, ascii)| == n && Elements(v, n, ascii)[i] == Reread(v.elements[i], ascii)
  {
    hide Reread;
    ElementsLength(v, n - 1, ascii);
    if i < n - 1 {
      ElementAt(v, n - 1, i, ascii);
    }
  }

  lemma {:induction false} ElementsLength(v: Value, n: nat, ascii: bool)
    requires v.Array? && n <= |v.elements|
    ensures |Elements(v, n, ascii)| == n
  {
    hide Reread;
    if n > 0 {
      ElementsLength(v, n - 1, ascii);
    }
  }

  /** Every key of the result is what some key of the value came back as. */
  lemma {:induction false} KeyComesFrom(v: Value, keys: seq<Bytes>, n: nat, ascii: bool, k: Bytes)
    requires v.Object? && n <= |keys| && (forall x :: x in keys ==> x in v.members) && k in Members(v, keys, n, ascii)
    ensures exists i :: 0 <= i < n && ReadBack(keys[i], ascii) == k
  {
    hide Reread, ReadBack;
    if n > 0 && k != ReadBack(keys[n - 1], ascii) {
      KeyComesFrom(v, keys, n - 1, ascii, k);
    }
  }

  /** If all keys come back unchanged, each has its own value. */
  lemma {:induction false} MemberAt(v: Value, keys: seq<Bytes>, n: nat, i: nat, ascii: bool)
    requires v.Object? && i < n <= |keys| && Ordered(keys) && forall x :: x in keys ==> x in v.members
    requires forall x :: x in keys ==> ReadBack(x, ascii) == x
    ensures keys[i] in Members(v, keys, n, ascii) && keys[i] in v.members
    ensures Members(v, keys, n, ascii)[keys[i]] == Reread(v.members[keys[i]], ascii)
  {
    hide Reread, ReadBack;
    assert keys[n - 1] in keys && keys[i] in keys;
    if i < n - 1 {
      LessTotalDistinct(keys, i, n - 1);
      MemberAt(v, keys, n - 1, i, ascii);
    }
  }

  lemma LessTotalDistinct(keys: seq<Bytes>, i: nat, j: nat)
    requires Ordered(keys) && i < j < |keys|
    ensures keys[i] != keys[j]
  {
    assert Less(keys[i], keys[j]);
    NotLess(keys[i]);
  }

  lemma NotLess(k: Bytes)
    ensures !Less(k, k)
  {
    CompareIsDictionary(k, k);
  }

  lemma {:induction false} RereadIff(v: Value, ascii: bool, fits: Bytes -> bool)
    requires Writable(v, fits)
    ensures Reread(v, ascii) == v <==> (ascii ==> AllSurvive(v))
    decreases v, 1
  {
    match v {
      case String(s) =>
        if ascii {
          ReadBackIff(s);
        }
      case Array(xs) => ArrayIff(v, ascii, fits);
      case Object(m) => ObjectIff(v, ascii, fits);
      case _ =>
    }
  }

  lemma {:induction false} ArrayIff(v: Value, ascii: bool, fits: Bytes -> bool)
    requires v.Array? && Writable(v, fits)
    ensures Reread(v, ascii) == v <==> (ascii ==> AllSurvive(v))
    decreases v, 0
  {
    var xs := v.elements;
    forall i | 0 <= i < |xs| ensures Reread(xs[i], ascii) == xs[i] <==> (ascii ==> AllSurvive(xs[i])) {
      RereadIff(xs[i], ascii, fits);
    }
    RereadArray(v, ascii);
    var ys := Elements(v, |xs|, ascii);
    ElementsLength(v, |xs|, ascii);
    forall i | 0 <= i < |xs| ensures ys[i] == Reread(xs[i], ascii) {
      ElementAt(v, |xs|, i, ascii);
    }
    hide Reread, Elements;
  }

  /** If every key comes back unchanged, an object does exactly if its values do. */
  lemma MembersWhole(v: Value, keys: seq<Bytes>, ascii: bool)
    requires v.Object? && keys == SortedKeys(v.members.Keys)
    requires forall k :: k in v.members ==> ReadBack(k, ascii) == k
    ensures forall k :: k in keys <==> k in v.members
    ensures Members(v, keys, |keys|, ascii) == v.members
       <==> forall k :: k in v.members ==> Reread(v.members[k], ascii) == v.members[k]
  {
    hide Reread, ReadBack;
    RereadObject(v, keys, ascii);
    var m, r := v.members, Members(v, keys, |keys|, ascii);
    forall k | k in m ensures k in r && r[k] == Reread(m[k], ascii) {
      var i :| 0 <= i < |keys| && keys[i] == k;
      MemberAt(v, keys, |keys|, i, ascii);
    }
    forall k | k in r ensures k in m {
      KeyComesFrom(v, keys, |keys|, ascii, k);
      var i :| 0 <= i < |keys| && ReadBack(keys[i], ascii) == k;
      assert keys[i] in keys;
    }
    assert r.Keys == m.Keys;
    hide Members;
  }

  /** If an object comes back unchanged, its keys are results, and so they survive. */
  lemma KeysSurvive(v: Value, keys: seq<Bytes>, fits: Bytes -> bool)
    requires v.Object? && keys == SortedKeys(v.members.Keys) && Writable(v, fits)
    requires forall k :: k in keys ==> k in v.members
    requires Members(v, keys, |keys|, true) == v.members
    ensures forall k :: k in v.members ==> WellFormed(k) && PlanesSurvive(k)
  {
    forall k | k in v.members ensures WellFormed(k) && PlanesSurvive(k) {
      KeyComesFrom(v, keys, |keys|, true, k);
      var i :| 0 <= i < |keys| && ReadBack(keys[i], true) == k;
      assert keys[i] in keys;
      ReadBackSurvives(keys[i]);
    }
  }

  lemma {:induction false} ObjectIff(v: Value, ascii: bool, fits: Bytes -> bool)
    requires v.Object? && Writable(v, fits)
    ensures Reread(v, ascii) == v <==> (ascii ==> AllSurvive(v))
    decreases v, 0
  {
    var m := v.members;
    var keys := SortedKeys(m.Keys);
    forall k | k in m
      ensures WellFormed(k) && (ReadBack(k, ascii) == k <==> (ascii ==> PlanesSurvive(k)))
      ensures Reread(m[k], ascii) == m[k] <==> (ascii ==> AllSurvive(m[k]))
    {
      RereadIff(m[k], ascii, fits);
      if ascii {
        ReadBackIff(k);
      }
    }
    RereadObject(v, keys, ascii);
    hide Reread, Members, ReadBack, WellFormed, PlanesSurvive;
    if ascii && Members(v, keys, |keys|, ascii) == m {
      KeysSurvive(v, keys, fits);
    }
    if forall k :: k in m ==> ReadBack(k, ascii) == k {
      MembersWhole(v, keys, ascii);
    }
  }

  /** A tree that ASCII mode loses: the string U+20000. */
  lemma TreeOfPlaneTwo(fits: Bytes -> bool)
    ensures var v := String(Put(0x20000));
      && Writable(v, fits)
      && forall opts: Options :: opts.ascii ==> ParseText(Print(v, 0, opts), 0, fits) != Done(v, |Print(v, 0, opts)|)
  {
    var s := Put(0x20000);
    PutWellFormed(0x20000);
    assert s[..4] == s && s[4..] == [];
    CharsOfText([0x20000]);
    assert Text([0x20000]) == s + [];
    assert s + [] == s;
    assert Chars(s)[0] == 0x20000;
    hide Put, Text, Chars, WellFormed, Print, ParseText;
    var v := String(s);
    assert !AllSurvive(v);
    forall opts: Options | opts.ascii
      ensures ParseText(Print(v, 0, opts), 0, fits) != Done(v, |Print(v, 0, opts)|)
    {
      TextRoundTrip(v, opts, fits);
    }
  }
}
