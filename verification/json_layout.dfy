/** The layout of encoded values, read off the bytes of their text: compact, or with line breaks and indentation. */
module JsonLayout {
  import opened Utf8
  import opened JsonString
  import opened JsonValue
  import opened JsonKeys
  import opened JsonEncode
  import L = JsonLiteral
  import W = JsonWritten

  predicate Blank(c: byte) {
    c == 0x20 || c == 0x09 || c == 0x0A || c == 0x0D
  }

  predicate Opens(c: byte) {
    c == 0x5B || c == 0x7B
  }

  predicate Closes(c: byte) {
    c == 0x5D || c == 0x7D
  }

  /** Where a reader of a text is: outside strings, inside one, or behind a backslash inside one. */
  datatype Place = Outside | Inside | Escape

  function After(at: Place, c: byte): Place {
    match at
    case Outside => if c == 0x22 then Inside else Outside
    case Inside => if c == 0x22 then Outside else if c == 0x5C then Escape else Inside
    case Escape => Inside
  }

  /** A text without the white space outside its strings. */
  function Strip(s: Bytes, at: Place): Bytes {
    if s == [] then []
    else (if at.Outside? && Blank(s[0]) then [] else [s[0]]) + Strip(s[1..], After(at, s[0]))
  }

  /** A new line, behind twice as many spaces as containers are open. */
  function Line(depth: nat): Bytes {
    [0x0A] + seq<byte>(2 * depth, _ => 0x20)
  }

  /**
   * A text without white space, laid out: each element, each member, and each bracket that closes something that is
   * not empty stands on a line of its own, and a space follows each colon. `depth` counts the open brackets.
   */
  function Pretty(s: Bytes, depth: nat, at: Place): Bytes
    decreases |s|
  {
    if s == [] then []
    else
      var c, rest := s[0], s[1..];
      if !at.Outside? then [c] + Pretty(rest, depth, After(at, c))
      else if Opens(c) then
        if rest != [] && Closes(rest[0]) then [c, rest[0]] + Pretty(rest[1..], depth, Outside)
        else [c] + Line(depth + 1) + Pretty(rest, depth + 1, Outside)
      else if Closes(c) then
        var outer: nat := if depth > 0 then depth - 1 else 0;
        Line(outer) + [c] + Pretty(rest, outer, Outside)
      else if c == 0x2C then [c] + Line(depth) + Pretty(rest, depth, Outside)
      else if c == 0x3A then [c, 0x20] + Pretty(rest, depth, Outside)
      else [c] + Pretty(rest, depth, After(Outside, c))
  }

  // ---- runs of bytes that are kept as they are

  /** A byte outside strings that the layout does not touch. */
  predicate Plain(c: byte) {
    !Blank(c) && !Opens(c) && !Closes(c) && c != 0x2C && c != 0x3A && c != 0x22
  }

  predicate AllPlain(s: Bytes) {
    forall i :: 0 <= i < |s| ==> Plain(s[i])
  }

  /** A reader of s stays inside the string. */
  predicate InString(s: Bytes, at: Place) {
    if s == [] then at.Inside? else !at.Outside? && InString(s[1..], After(at, s[0]))
  }

  lemma First(a: byte, s: Bytes, rest: Bytes)
    ensures ([a] + s + rest)[0] == a && ([a] + s + rest)[1..] == s + rest
  {
  }

  lemma {:induction false} PlainKept(s: Bytes, rest: Bytes, depth: nat)
    requires AllPlain(s)
    ensures Pretty(s + rest, depth, Outside) == s + Pretty(rest, depth, Outside)
    ensures Strip(s + rest, Outside) == s + Strip(rest, Outside)
  {
    if s == [] {
      assert s + rest == rest;
    } else {
      PlainKept(s[1..], rest, depth);
      var t := s + rest;
      assert t[1..] == s[1..] + rest && t[0] == s[0];
      assert Plain(s[0]);
      PlainStep(t, depth);
      hide *;
      assert s == [s[0]] + s[1..];
      Regroup([s[0]], s[1..], Pretty(rest, depth, Outside));
      Regroup([s[0]], s[1..], Strip(rest, Outside));
    }
  }

  lemma PlainStep(t: Bytes, depth: nat)
    requires t != [] && Plain(t[0])
    ensures Pretty(t, depth, Outside) == [t[0]] + Pretty(t[1..], depth, Outside)
    ensures Strip(t, Outside) == [t[0]] + Strip(t[1..], Outside)
  {
  }

  lemma StringStep(t: Bytes, depth: nat, at: Place)
    requires t != [] && !at.Outside?
    ensures Pretty(t, depth, at) == [t[0]] + Pretty(t[1..], depth, After(at, t[0]))
    ensures Strip(t, at) == [t[0]] + Strip(t[1..], After(at, t[0]))
  {
    hide After;
  }

  lemma {:induction false} StringKept(s: Bytes, rest: Bytes, depth: nat, at: Place)
    requires InString(s, at)
    ensures Pretty(s + rest, depth, at) == s + Pretty(rest, depth, Inside)
    ensures Strip(s + rest, at) == s + Strip(rest, Inside)
  {
    if s == [] {
      assert s + rest == rest;
    } else {
      StringKept(s[1..], rest, depth, After(at, s[0]));
      var t := s + rest;
      assert t[1..] == s[1..] + rest && t[0] == s[0];
      StringStep(t, depth, at);
      hide *;
      assert s == [s[0]] + s[1..];
      Regroup([s[0]], s[1..], Pretty(rest, depth, Inside));
      Regroup([s[0]], s[1..], Strip(rest, Inside));
    }
  }

  lemma {:induction false} InStringAppend(a: Bytes, b: Bytes, at: Place)
    requires InString(a, at) && InString(b, Inside)
    ensures InString(a + b, at)
  {
    if a == [] {
      assert a + b == b;
    } else {
      assert (a + b)[1..] == a[1..] + b;
      InStringAppend(a[1..], b, After(at, a[0]));
    }
  }

  lemma {:induction false} QuietInString(s: Bytes)
    requires forall i :: 0 <= i < |s| ==> s[i] != 0x22 && s[i] != 0x5C
    ensures InString(s, Inside)
  {
    if s != [] {
      QuietInString(s[1..]);
    }
  }

  lemma UnitInString(u: L.Unit)
    requires L.Legal(u)
    ensures InString(L.Text(u), Inside)
  {
    match u {
      case Plain(s) => QuietInString(s);
      case Short(c) => assert [0x5C, c][1..] == [c] && [c][1..] == [];
      case Escaped(a, b, c, d) =>
        QuietInString([a, b, c, d]);
        assert [0x5C, 0x75, a, b, c, d][1..] == [0x75, a, b, c, d] && [0x75, a, b, c, d][1..] == [a, b, c, d];
    }
  }

  lemma {:induction false} TextsInString(us: seq<L.Unit>)
    requires L.AllLegal(us)
    ensures InString(L.Texts(us), Inside)
  {
    hide L.Legal, L.Text;
    if us != [] {
      UnitInString(us[0]);
      TextsInString(us[1..]);
      InStringAppend(L.Text(us[0]), L.Texts(us[1..]), Inside);
    }
  }

  lemma EncodingInString(s: Bytes, ascii: bool)
    ensures InString(EncodeFrom(s, 0, ascii), Inside)
  {
    var us := W.EncodingWritten(s, 0, ascii);
    hide EncodeFrom, InString;
    TextsInString(us);
  }

  /** A string is kept, quotation marks and all. */
  lemma QuotedKept(s: Bytes, opts: Options, rest: Bytes, depth: nat)
    ensures Pretty(Quoted(s, opts) + rest, depth, Outside) == Quoted(s, opts) + Pretty(rest, depth, Outside)
    ensures Strip(Quoted(s, opts) + rest, Outside) == Quoted(s, opts) + Strip(rest, Outside)
  {
    hide *;
    var e := EncodeFrom(s, 0, opts.ascii);
    QuotedIs(s, opts);
    EncodingInString(s, opts.ascii);
    var t := Quoted(s, opts) + rest;
    assert t == [0x22] + (e + ([0x22] + rest));
    QuoteStep(e + ([0x22] + rest), depth);
    StringKept(e, [0x22] + rest, depth, Inside);
    UnquoteStep(rest, depth);
    Regroup4(e, Pretty(rest, depth, Outside));
    Regroup4(e, Strip(rest, Outside));
  }

  lemma QuotedIs(s: Bytes, opts: Options)
    ensures Quoted(s, opts) == [0x22] + EncodeFrom(s, 0, opts.ascii) + [0x22]
  {
    hide EncodeFrom;
  }

  lemma Regroup4(e: Bytes, r: Bytes)
    ensures [0x22] + (e + ([0x22] + r)) == [0x22] + e + [0x22] + r
  {
  }

  lemma QuoteStep(t: Bytes, depth: nat)
    ensures Pretty([0x22] + t, depth, Outside) == [0x22] + Pretty(t, depth, Inside)
    ensures Strip([0x22] + t, Outside) == [0x22] + Strip(t, Inside)
  {
    assert ([0x22] + t)[1..] == t;
  }

  lemma UnquoteStep(t: Bytes, depth: nat)
    ensures Pretty([0x22] + t, depth, Inside) == [0x22] + Pretty(t, depth, Outside)
    ensures Strip([0x22] + t, Inside) == [0x22] + Strip(t, Outside)
  {
    assert ([0x22] + t)[1..] == t;
  }

  // ---- the structural bytes

  lemma OpenStep(c: byte, t: Bytes, depth: nat)
    requires Opens(c)
    ensures t != [] && !Closes(t[0]) ==>
              Pretty([c] + t, depth, Outside) == [c] + Line(depth + 1) + Pretty(t, depth + 1, Outside)
    ensures Strip([c] + t, Outside) == [c] + Strip(t, Outside)
  {
    assert ([c] + t)[1..] == t;
  }

  lemma EmptyStep(c: byte, e: byte, t: Bytes, depth: nat)
    requires Opens(c) && Closes(e)
    ensures Pretty([c] + ([e] + t), depth, Outside) == [c, e] + Pretty(t, depth, Outside)
  {
    assert ([c] + ([e] + t))[1..] == [e] + t && ([e] + t)[1..] == t;
  }

  lemma CloseStep(c: byte, t: Bytes, depth: nat)
    requires Closes(c) && depth > 0
    ensures Pretty([c] + t, depth, Outside) == Line(depth - 1) + [c] + Pretty(t, depth - 1, Outside)
    ensures Strip([c] + t, Outside) == [c] + Strip(t, Outside)
  {
    assert ([c] + t)[1..] == t;
  }

  lemma CommaStep(t: Bytes, depth: nat)
    ensures Pretty([0x2C] + t, depth, Outside) == [0x2C] + Line(depth) + Pretty(t, depth, Outside)
    ensures Strip([0x2C] + t, Outside) == [0x2C] + Strip(t, Outside)
  {
    assert ([0x2C] + t)[1..] == t;
  }

  lemma ColonStep(t: Bytes, depth: nat)
    ensures Pretty([0x3A] + t, depth, Outside) == [0x3A, 0x20] + Pretty(t, depth, Outside)
    ensures Strip([0x3A] + t, Outside) == [0x3A] + Strip(t, Outside)
    ensures Strip([0x3A, 0x20] + t, Outside) == [0x3A] + Strip(t, Outside)
  {
    assert ([0x3A] + t)[1..] == t;
    assert ([0x3A, 0x20] + t)[1..] == [0x20] + t && ([0x20] + t)[1..] == t;
    assert Strip([0x20] + t, Outside) == [] + Strip(t, Outside);
  }

  lemma {:induction false} SpacesStripped(n: nat, t: Bytes)
    ensures Strip(seq<byte>(n, _ => 0x20) + t, Outside) == Strip(t, Outside)
  {
    var s := seq<byte>(n, _ => 0x20);
    if n == 0 {
      assert s + t == t;
    } else {
      SpacesStripped(n - 1, t);
      assert (s + t)[1..] == seq<byte>(n - 1, _ => 0x20) + t;
    }
  }

  lemma LineStripped(depth: nat, t: Bytes)
    ensures Strip(Line(depth) + t, Outside) == Strip(t, Outside)
  {
    SpacesStripped(2 * depth, t);
    assert (Line(depth) + t)[1..] == seq<byte>(2 * depth, _ => 0x20) + t;
  }

  // ---- pieces of text

  /**
   * In front of anything, the piece x, which begins with d open brackets and ends with e of them, is laid out as y,
   * and it is what both of them are without white space.
   */
  ghost predicate Lays(x: Bytes, y: Bytes, d: nat, e: nat) {
    forall rest: Bytes {:trigger LaysBefore(x, y, d, e, rest)} :: LaysBefore(x, y, d, e, rest)
  }

  ghost predicate LaysBefore(x: Bytes, y: Bytes, d: nat, e: nat, rest: Bytes) {
    && Pretty(x + rest, d, Outside) == y + Pretty(rest, e, Outside)
    && Strip(x + rest, Outside) == x + Strip(rest, Outside)
    && Strip(y + rest, Outside) == x + Strip(rest, Outside)
  }

  lemma LaysThen(x: Bytes, y: Bytes, d: nat, e: nat, x1: Bytes, y1: Bytes, f: nat)
    requires Lays(x, y, d, e) && Lays(x1, y1, e, f)
    ensures Lays(x + x1, y + y1, d, f)
  {
    forall rest: Bytes ensures LaysBefore(x + x1, y + y1, d, f, rest) {
      hide Pretty, Strip;
      assert LaysBefore(x, y, d, e, x1 + rest) && LaysBefore(x, y, d, e, y1 + rest);
      assert LaysBefore(x1, y1, e, f, rest);
      Regroup(x, x1, rest);
      Regroup(y, y1, rest);
      Regroup(y, y1, Pretty(rest, f, Outside));
      Regroup(x, x1, Strip(rest, Outside));
    }
  }

  lemma LaysPlain(x: Bytes, d: nat)
    requires AllPlain(x)
    ensures Lays(x, x, d, d)
  {
    forall rest: Bytes ensures LaysBefore(x, x, d, d, rest) {
      hide Pretty, Strip, AllPlain;
      PlainKept(x, rest, d);
    }
  }

  lemma LaysQuoted(s: Bytes, ascii: bool, d: nat)
    ensures Lays(Quoted(s, Options(false, ascii)), Quoted(s, Options(true, ascii)), d, d)
  {
    var x := Quoted(s, Options(false, ascii));
    assert x == Quoted(s, Options(true, ascii));
    forall rest: Bytes ensures LaysBefore(x, x, d, d, rest) {
      hide Pretty, Strip, Quoted;
      QuotedKept(s, Options(false, ascii), rest, d);
    }
  }

  lemma LaysComma(d: nat)
    ensures Lays([0x2C], [0x2C] + Line(d), d, d)
  {
    forall rest: Bytes ensures LaysBefore([0x2C], [0x2C] + Line(d), d, d, rest) {
      hide Pretty, Strip, Line;
      CommaStep(rest, d);
      CommaStep(Line(d) + rest, d);
      LineStripped(d, rest);
      Regroup([0x2C], Line(d), rest);
    }
  }

  lemma LaysColon(d: nat)
    ensures Lays([0x3A], [0x3A, 0x20], d, d)
  {
    forall rest: Bytes ensures LaysBefore([0x3A], [0x3A, 0x20], d, d, rest) {
      hide Pretty, Strip;
      ColonStep(rest, d);
    }
  }

  lemma LaysClose(c: byte, d: nat)
    requires Closes(c) && d > 0
    ensures Lays([c], Line(d - 1) + [c], d, d - 1)
  {
    var y, e := Line(d - 1) + [c], d - 1;
    forall rest: Bytes ensures LaysBefore([c], y, d, e, rest) {
      hide Pretty, Strip, Line;
      CloseStep(c, rest, d);
      LineStripped(d - 1, [c] + rest);
      Regroup(Line(d - 1), [c], rest);
    }
  }

  /** An opening bracket in front of something. */
  lemma LaysOpen(c: byte, x: Bytes, y: Bytes, d: nat, e: nat)
    requires Opens(c) && x != [] && !Closes(x[0]) && Lays(x, y, d + 1, e)
    ensures Lays([c] + x, [c] + Line(d + 1) + y, d, e)
  {
    var laid := [c] + Line(d + 1) + y;
    forall rest: Bytes ensures LaysBefore([c] + x, laid, d, e, rest) {
      hide Pretty, Strip, Line;
      assert LaysBefore(x, y, d + 1, e, rest);
      assert (x + rest)[0] == x[0];
      OpenStep(c, x + rest, d);
      Regroup([c], x, rest);
      Regroup([c], x, Strip(rest, Outside));
      OpenStep(c, Line(d + 1) + (y + rest), d);
      LineStripped(d + 1, y + rest);
      assert [c] + Line(d + 1) + y + rest == [c] + (Line(d + 1) + (y + rest));
      Regroup([c] + Line(d + 1), y, Pretty(rest, e, Outside));
    }
  }

  lemma LaysEmpty(c: byte, e: byte, d: nat)
    requires Opens(c) && Closes(e)
    ensures Lays([c, e], [c, e], d, d)
  {
    forall rest: Bytes ensures LaysBefore([c, e], [c, e], d, d, rest) {
      hide Pretty, Strip;
      assert [c, e] + rest == [c] + ([e] + rest);
      EmptyStep(c, e, rest, d);
      OpenStep(c, [e] + rest, d);
      CloseStep(e, rest, 1);
      Regroup([c], [e], Strip(rest, Outside));
    }
  }

  // ---- values

  /** Nothing undefined is reachable, and the number texts have none of the characters that structure a text. */
  ghost predicate Printable(v: Value)
    decreases v
  {
    match v
    case Undefined => false
    case Number(l) => l != [] && AllPlain(l)
    case Array(xs) => forall i :: 0 <= i < |xs| ==> Printable(xs[i])
    case Object(m) => forall k :: k in m ==> Printable(m[k])
    case _ => true
  }

  function Compact(ascii: bool): Options {
    Options(false, ascii)
  }

  function Spread(ascii: bool): Options {
    Options(true, ascii)
  }

  lemma FirstByte(v: Value, d: nat, ascii: bool)
    requires Printable(v)
    ensures Print(v, d, Compact(ascii)) != [] && !Closes(Print(v, d, Compact(ascii))[0])
  {
    hide Printable, EncodeFrom;
    FirstOfNumber(v);
  }

  lemma FirstOfNumber(v: Value)
    requires Printable(v)
    ensures !v.Undefined? && (v.Number? ==> v.lexeme != [] && !Closes(v.lexeme[0]))
  {
  }

  lemma LineIs(d: nat, ascii: bool)
    ensures Break(d, Spread(ascii)) == Line(d) && Break(d, Compact(ascii)) == []
  {
  }

  lemma ElementsEnd(v: Value, d: nat, ascii: bool)
    requires v.Array? && v.elements != [] && d > 0
    ensures PrintElements(v, |v.elements|, d, Compact(ascii)) == [0x5D]
    ensures PrintElements(v, |v.elements|, d, Spread(ascii)) == Line(d - 1) + [0x5D]
  {
    LineIs(d - 1, ascii);
    hide Break, Line;
  }

  lemma ElementsNext(v: Value, i: nat, d: nat, ascii: bool)
    requires v.Array? && i < |v.elements| && d > 0
    ensures var comma := if i == 0 then [] else [0x2C];
      && PrintElements(v, i, d, Compact(ascii))
         == comma + Print(v.elements[i], d, Compact(ascii)) + PrintElements(v, i + 1, d, Compact(ascii))
      && PrintElements(v, i, d, Spread(ascii))
         == comma + Line(d) + Print(v.elements[i], d, Spread(ascii)) + PrintElements(v, i + 1, d, Spread(ascii))
  {
    LineIs(d, ascii);
    hide Break, Line, Print;
  }

  lemma MembersEnd(v: Value, keys: seq<Bytes>, d: nat, ascii: bool)
    requires v.Object? && keys != [] && d > 0 && forall k :: k in keys ==> k in v.members
    ensures PrintMembers(v, keys, |keys|, d, Compact(ascii)) == [0x7D]
    ensures PrintMembers(v, keys, |keys|, d, Spread(ascii)) == Line(d - 1) + [0x7D]
  {
    LineIs(d - 1, ascii);
    hide Break, Line;
  }

  /** A member's key, colon and value. */
  ghost function Member(key: Bytes, value: Value, d: nat, opts: Options): Bytes {
    Quoted(key, opts) + (if opts.pretty then [0x3A, 0x20] else [0x3A]) + Print(value, d, opts)
  }

  lemma MembersNext(v: Value, keys: seq<Bytes>, i: nat, d: nat, ascii: bool)
    requires v.Object? && i < |keys| && d > 0 && forall k :: k in keys ==> k in v.members
    ensures var comma := if i == 0 then [] else [0x2C];
      && PrintMembers(v, keys, i, d, Compact(ascii))
         == comma + Member(keys[i], v.members[keys[i]], d, Compact(ascii))
            + PrintMembers(v, keys, i + 1, d, Compact(ascii))
      && PrintMembers(v, keys, i, d, Spread(ascii))
         == comma + Line(d) + Member(keys[i], v.members[keys[i]], d, Spread(ascii))
            + PrintMembers(v, keys, i + 1, d, Spread(ascii))
  {
    LineIs(d, ascii);
    hide Break, Line, Print, Quoted;
  }

  lemma WordsPlain()
    ensures AllPlain(NULL_TEXT) && AllPlain(TRUE_TEXT) && AllPlain(FALSE_TEXT)
  {
  }

  lemma ScalarLaid(v: Value, d: nat, ascii: bool)
    requires Printable(v) && !v.Array? && !v.Object?
    ensures Lays(Print(v, d, Compact(ascii)), Print(v, d, Spread(ascii)), d, d)
  {
    hide Lays, Quoted, AllPlain;
    WordsPlain();
    match v {
      case String(s) => LaysQuoted(s, ascii, d);
      case Number(l) => LaysPlain(l, d);
      case Bool(b) => LaysPlain(if b then TRUE_TEXT else FALSE_TEXT, d);
      case Null => LaysPlain(NULL_TEXT, d);
    }
  }

  lemma ElementOf(v: Value, i: nat)
    requires Printable(v) && v.Array? && i < |v.elements|
    ensures Printable(v.elements[i])
  {
  }

  lemma MemberOf(v: Value, k: Bytes)
    requires Printable(v) && v.Object? && k in v.members
    ensures Printable(v.members[k])
  {
  }

  lemma PrintArray(v: Value, d: nat, opts: Options)
    requires v.Array?
    ensures Print(v, d, opts) == [0x5B] + PrintElements(v, 0, d + 1, opts)
    ensures v.elements == [] ==> PrintElements(v, 0, d + 1, opts) == [0x5D]
  {
  }

  lemma PrintObject(v: Value, d: nat, opts: Options)
    requires v.Object?
    ensures Print(v, d, opts) == [0x7B] + PrintMembers(v, SortedKeys(v.members.Keys), 0, d + 1, opts)
    ensures SortedKeys(v.members.Keys) == [] ==> PrintMembers(v, [], 0, d + 1, opts) == [0x7D]
  {
    hide SortedKeys;
  }

  /** The text in pretty mode is the compact text, laid out. */
  lemma {:induction false} ValueLaid(v: Value, d: nat, ascii: bool)
    requires Printable(v)
    ensures Lays(Print(v, d, Compact(ascii)), Print(v, d, Spread(ascii)), d, d)
    decreases v, 2, 0
  {
    hide *;
    if v.Array? {
      ArrayLaid(v, d, ascii);
    } else if v.Object? {
      ObjectLaid(v, d, ascii);
    } else {
      ScalarLaid(v, d, ascii);
    }
  }

  lemma {:induction false} ArrayLaid(v: Value, d: nat, ascii: bool)
    requires Printable(v) && v.Array?
    ensures Lays(Print(v, d, Compact(ascii)), Print(v, d, Spread(ascii)), d, d)
    decreases v, 1, 0
  {
    hide *;
    PrintArray(v, d, Compact(ascii));
    PrintArray(v, d, Spread(ascii));
    Brackets();
    if v.elements == [] {
      LaysEmpty(0x5B, 0x5D, d);
      assert [0x5B] + [0x5D] == [0x5B, 0x5D];
    } else {
      ElementsNext(v, 0, d + 1, ascii);
      ElementOf(v, 0);
      ValueLaid(v.elements[0], d + 1, ascii);
      FirstByte(v.elements[0], d + 1, ascii);
      ElementsLaid(v, 1, d + 1, ascii);
      FirstLaid(0x5B, Print(v.elements[0], d + 1, Compact(ascii)), Print(v.elements[0], d + 1, Spread(ascii)),
                PrintElements(v, 1, d + 1, Compact(ascii)), PrintElements(v, 1, d + 1, Spread(ascii)), d);
    }
  }

  lemma Brackets()
    ensures Opens(0x5B) && Opens(0x7B) && Closes(0x5D) && Closes(0x7D) && !Closes(0x22)
  {
  }

  /** A container with a first thing and more behind it. */
  lemma FirstLaid(c: byte, x: Bytes, y: Bytes, x1: Bytes, y1: Bytes, d: nat)
    requires Opens(c) && x != [] && !Closes(x[0]) && Lays(x, y, d + 1, d + 1) && Lays(x1, y1, d + 1, d)
    ensures Lays([c] + ([] + x + x1), [c] + ([] + Line(d + 1) + y + y1), d, d)
  {
    hide *;
    LaysThen(x, y, d + 1, d + 1, x1, y1, d);
    LaysOpen(c, x + x1, y + y1, d, d);
    assert [c] + ([] + x + x1) == [c] + (x + x1);
    assert [c] + ([] + Line(d + 1) + y + y1) == [c] + Line(d + 1) + (y + y1);
  }

  /** A comma, the next thing, and more behind it. */
  lemma NextLaid(x: Bytes, y: Bytes, x1: Bytes, y1: Bytes, d: nat)
    requires d > 0 && Lays(x, y, d, d) && Lays(x1, y1, d, d - 1)
    ensures Lays([0x2C] + x + x1, [0x2C] + Line(d) + y + y1, d, d - 1)
  {
    hide *;
    LaysComma(d);
    LaysThen([0x2C], [0x2C] + Line(d), d, d, x, y, d);
    LaysThen([0x2C] + x, [0x2C] + Line(d) + y, d, d, x1, y1, d - 1);
  }

  lemma {:induction false} ElementsLaid(v: Value, i: nat, d: nat, ascii: bool)
    requires Printable(v) && v.Array? && 0 < i <= |v.elements| && d > 0
    ensures Lays(PrintElements(v, i, d, Compact(ascii)), PrintElements(v, i, d, Spread(ascii)), d, d - 1)
    decreases v, 0, |v.elements| - i
  {
    hide *;
    Brackets();
    if i == |v.elements| {
      ElementsEnd(v, d, ascii);
      LaysClose(0x5D, d);
    } else {
      ElementsNext(v, i, d, ascii);
      ElementOf(v, i);
      ValueLaid(v.elements[i], d, ascii);
      ElementsLaid(v, i + 1, d, ascii);
      NextLaid(Print(v.elements[i], d, Compact(ascii)), Print(v.elements[i], d, Spread(ascii)),
               PrintElements(v, i + 1, d, Compact(ascii)), PrintElements(v, i + 1, d, Spread(ascii)), d);
    }
  }

  lemma {:induction false} ObjectLaid(v: Value, d: nat, ascii: bool)
    requires Printable(v) && v.Object?
    ensures Lays(Print(v, d, Compact(ascii)), Print(v, d, Spread(ascii)), d, d)
    decreases v, 1, 0
  {
    hide *;
    PrintObject(v, d, Compact(ascii));
    PrintObject(v, d, Spread(ascii));
    Brackets();
    var keys := SortedKeys(v.members.Keys);
    KeysAreMembers(v);
    if keys == [] {
      LaysEmpty(0x7B, 0x7D, d);
      assert [0x7B] + [0x7D] == [0x7B, 0x7D];
    } else {
      MembersNext(v, keys, 0, d + 1, ascii);
      MemberOf(v, keys[0]);
      ValueLaid(v.members[keys[0]], d + 1, ascii);
      MemberLaid(keys[0], v.members[keys[0]], d + 1, ascii);
      MembersLaid(v, keys, 1, d + 1, ascii);
      FirstLaid(0x7B, Member(keys[0], v.members[keys[0]], d + 1, Compact(ascii)),
                Member(keys[0], v.members[keys[0]], d + 1, Spread(ascii)),
                PrintMembers(v, keys, 1, d + 1, Compact(ascii)), PrintMembers(v, keys, 1, d + 1, Spread(ascii)), d);
    }
  }

  lemma KeysAreMembers(v: Value)
    requires v.Object?
    ensures forall k :: k in SortedKeys(v.members.Keys) ==> k in v.members
  {
  }

  lemma MemberLaid(key: Bytes, value: Value, d: nat, ascii: bool)
    requires Lays(Print(value, d, Compact(ascii)), Print(value, d, Spread(ascii)), d, d)
    ensures Lays(Member(key, value, d, Compact(ascii)), Member(key, value, d, Spread(ascii)), d, d)
    ensures Member(key, value, d, Compact(ascii)) != [] && !Closes(Member(key, value, d, Compact(ascii))[0])
  {
    hide Lays, Print, EncodeFrom;
    LaysQuoted(key, ascii, d);
    LaysColon(d);
    LaysThen(Quoted(key, Compact(ascii)), Quoted(key, Spread(ascii)), d, d, [0x3A], [0x3A, 0x20], d);
    LaysThen(Quoted(key, Compact(ascii)) + [0x3A], Quoted(key, Spread(ascii)) + [0x3A, 0x20], d, d,
             Print(value, d, Compact(ascii)), Print(value, d, Spread(ascii)), d);
  }

  lemma {:induction false} MembersLaid(v: Value, keys: seq<Bytes>, i: nat, d: nat, ascii: bool)
    requires Printable(v) && v.Object? && 0 < i <= |keys| && d > 0 && forall k :: k in keys ==> k in v.members
    ensures Lays(PrintMembers(v, keys, i, d, Compact(ascii)), PrintMembers(v, keys, i, d, Spread(ascii)), d, d - 1)
    decreases v, 0, |keys| - i
  {
    hide *;
    Brackets();
    if i == |keys| {
      MembersEnd(v, keys, d, ascii);
      LaysClose(0x7D, d);
    } else {
      MembersNext(v, keys, i, d, ascii);
      MemberOf(v, keys[i]);
      ValueLaid(v.members[keys[i]], d, ascii);
      MemberLaid(keys[i], v.members[keys[i]], d, ascii);
      MembersLaid(v, keys, i + 1, d, ascii);
      NextLaid(Member(keys[i], v.members[keys[i]], d, Compact(ascii)),
               Member(keys[i], v.members[keys[i]], d, Spread(ascii)),
               PrintMembers(v, keys, i + 1, d, Compact(ascii)), PrintMembers(v, keys, i + 1, d, Spread(ascii)), d);
    }
  }

  /**
   * Compact text has no white space outside strings. Pretty text is the compact text laid out, and without its white
   * space it is the compact text again.
   */
  lemma Layout(v: Value, ascii: bool)
    requires Printable(v)
    ensures var compact, pretty := Print(v, 0, Options(false, ascii)), Print(v, 0, Options(true, ascii));
      && Strip(compact, Outside) == compact
      && pretty == Pretty(compact, 0, Outside)
      && Strip(pretty, Outside) == compact
  {
    var compact, pretty := Print(v, 0, Options(false, ascii)), Print(v, 0, Options(true, ascii));
    hide Print;
    ValueLaid(v, 0, ascii);
    assert LaysBefore(compact, pretty, 0, 0, []);
    assert compact + [] == compact && pretty + [] == pretty;
  }
}
