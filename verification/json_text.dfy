/** JSON texts as sections 2 to 5 of RFC 8259 derive them, and which of them the parser takes. */
module JsonText {
  import opened Utf8
  import opened Hex
  import opened JsonString
  import opened JsonValue
  import opened JsonGrammar
  import L = JsonLiteral
  import N = JsonNumber

  /**
   * Derivations of a value. The white space that the grammar allows around brackets, commas and colons stands in
   * front of and behind the things between them.
   */
  datatype Tree =
    | Word(w: Bytes)
    | Num(l: Bytes)
    | Str(us: seq<L.Unit>)
    | EmptyArray(ws: Bytes)
    | FullArray(items: Items)
    | EmptyObject(ws: Bytes)
    | FullObject(members: Members)

  datatype Items =
    | LastItem(before: Bytes, tree: Tree, after: Bytes)
    | Item(before: Bytes, tree: Tree, after: Bytes, more: Items)

  datatype Members =
    | LastMember(before: Bytes, key: seq<L.Unit>, gap: Bytes, lead: Bytes, tree: Tree, after: Bytes)
    | Member(before: Bytes, key: seq<L.Unit>, gap: Bytes, lead: Bytes, tree: Tree, after: Bytes, more: Members)

  function StringText(us: seq<L.Unit>): Bytes {
    [0x22] + L.Texts(us) + [0x22]
  }

  function TreeText(d: Tree): Bytes {
    match d
    case Word(w) => w
    case Num(l) => l
    case Str(us) => StringText(us)
    case EmptyArray(ws) => [0x5B] + ws + [0x5D]
    case FullArray(xs) => [0x5B] + ItemsText(xs)
    case EmptyObject(ws) => [0x7B] + ws + [0x7D]
    case FullObject(ms) => [0x7B] + MembersText(ms)
  }

  /** The items of an array, and the bracket behind them. */
  function ItemsText(xs: Items): Bytes {
    xs.before + (TreeText(xs.tree) + (xs.after + (if xs.LastItem? then [0x5D] else [0x2C] + ItemsText(xs.more))))
  }

  /** The members of an object, and the brace behind them. */
  function MembersText(ms: Members): Bytes {
    ms.before + (StringText(ms.key) + (ms.gap + ([0x3A] + (ms.lead + (TreeText(ms.tree) +
      (ms.after + (if ms.LastMember? then [0x7D] else [0x2C] + MembersText(ms.more))))))))
  }

  predicate Space(c: byte) {
    c == 0x20 || c == 0x09 || c == 0x0A || c == 0x0D
  }

  predicate Blank(s: Bytes) {
    forall i :: 0 <= i < |s| ==> Space(s[i])
  }

  /** A derivation of the standard. */
  ghost predicate Grammatical(d: Tree) {
    match d
    case Word(w) =>
      || w == [0x6E, 0x75, 0x6C, 0x6C] || w == [0x74, 0x72, 0x75, 0x65] || w == [0x66, 0x61, 0x6C, 0x73, 0x65]
    case Num(l) => N.Number(l, false)
    case Str(us) => L.AllLegal(us)
    case EmptyArray(ws) => Blank(ws)
    case FullArray(xs) => GrammaticalItems(xs)
    case EmptyObject(ws) => Blank(ws)
    case FullObject(ms) => GrammaticalMembers(ms)
  }

  ghost predicate GrammaticalItems(xs: Items) {
    Blank(xs.before) && Grammatical(xs.tree) && Blank(xs.after) && (xs.Item? ==> GrammaticalItems(xs.more))
  }

  ghost predicate GrammaticalMembers(ms: Members) {
    && Blank(ms.before) && L.AllLegal(ms.key) && Blank(ms.gap) && Blank(ms.lead) && Grammatical(ms.tree)
    && Blank(ms.after) && (ms.Member? ==> GrammaticalMembers(ms.more))
  }

  /**
   * The code takes its tokens: numbers have no leading zero in the exponent and are in range, and the halves of
   * surrogate pairs stand together.
   */
  ghost predicate Taken(d: Tree, fits: Bytes -> bool) {
    match d
    case Num(l) => N.Number(l, true) && fits(l)
    case Str(us) => L.Paired(us)
    case FullArray(xs) => TakenItems(xs, fits)
    case FullObject(ms) => TakenMembers(ms, fits)
    case _ => true
  }

  ghost predicate TakenItems(xs: Items, fits: Bytes -> bool) {
    Taken(xs.tree, fits) && (xs.Item? ==> TakenItems(xs.more, fits))
  }

  ghost predicate TakenMembers(ms: Members, fits: Bytes -> bool) {
    L.Paired(ms.key) && Taken(ms.tree, fits) && (ms.Member? ==> TakenMembers(ms.more, fits))
  }

  /** strtold goes on behind a lone zero, into a hexadecimal number. */
  predicate HexAhead(l: Bytes, t: Bytes, end: nat) {
    && (l == [0x30] || l == [0x2D, 0x30])
    && (Read(t, end) == 0x78 || Read(t, end) == 0x58)
    && (Nibble(Read(t, end + 1)) < 16 || (Read(t, end + 1) == 0x2E && Nibble(Read(t, end + 2)) < 16))
  }

  /** If the value is a number, it ends there. */
  ghost predicate Closed(d: Tree, t: Bytes, end: nat) {
    d.Num? ==> N.Ends(d.l, Read(t, end)) && !HexAhead(d.l, t, end)
  }

  /** What a derivation means. */
  ghost function ValueOf(d: Tree): Value
    requires Grammatical(d)
    decreases d
  {
    match d
    case Word(w) => if w == [0x6E, 0x75, 0x6C, 0x6C] then Null else Bool(w == [0x74, 0x72, 0x75, 0x65])
    case Num(l) => Number(l)
    case Str(us) => String(L.Meaning(us, false))
    case EmptyArray(_) => Array([])
    case FullArray(xs) => Array(ItemValues(xs))
    case EmptyObject(_) => Object(map[])
    case FullObject(ms) => Object(MemberValues(map[], ms))
  }

  ghost function ItemValues(xs: Items): seq<Value>
    requires GrammaticalItems(xs)
    decreases xs
  {
    [ValueOf(xs.tree)] + (if xs.Item? then ItemValues(xs.more) else [])
  }

  /** The last member of a key counts. */
  ghost function MemberValues(m: map<Bytes, Value>, ms: Members): map<Bytes, Value>
    requires GrammaticalMembers(ms)
    decreases ms
  {
    var n := m[L.Meaning(ms.key, false) := ValueOf(ms.tree)];
    if ms.Member? then MemberValues(n, ms.more) else n
  }

  // ---- pieces of text

  lemma SplitAt(t: Bytes, p: nat, a: Bytes, b: Bytes)
    requires EscapeAt(t, p, a + b)
    ensures EscapeAt(t, p, a) && EscapeAt(t, p + |a|, b)
  {
    hide EscapeAt;
    SplitEscape(t, p, a, b);
  }

  lemma JoinAt(t: Bytes, p: nat, a: Bytes, b: Bytes)
    requires EscapeAt(t, p, a) && EscapeAt(t, p + |a|, b)
    ensures EscapeAt(t, p, a + b)
  {
    assert t[p..p + |a| + |b|] == t[p..p + |a|] + t[p + |a|..p + |a| + |b|];
  }

  lemma FirstAt(t: Bytes, p: nat, a: Bytes)
    requires EscapeAt(t, p, a) && a != []
    ensures Read(t, p) == a[0] && p < |t|
  {
    ReadAt(t, p, a, 0);
  }

  lemma OneAt(t: Bytes, p: nat)
    requires Read(t, p) != 0
    ensures EscapeAt(t, p, [Read(t, p)])
  {
    assert t[p..p + 1] == [t[p]];
  }

  lemma SpaceIs(c: byte)
    ensures IsSpace(c) <==> Space(c)
  {
  }

  /** White space is skipped up to the next byte that is none. */
  lemma {:induction false} BlankSkipped(t: Bytes, p: nat, s: Bytes)
    requires EscapeAt(t, p, s) && Blank(s) && !Space(Read(t, p + |s|))
    ensures Ws(t, p) == p + |s|
    decreases |s|
  {
    SpaceIs(Read(t, p));
    if s != [] {
      FirstAt(t, p, s);
      assert s == [s[0]] + s[1..];
      SplitAt(t, p, [s[0]], s[1..]);
      BlankSkipped(t, p + 1, s[1..]);
    }
  }

  /** White space in front of something else. */
  lemma BlankThen(t: Bytes, p: nat, s: Bytes, rest: Bytes)
    requires EscapeAt(t, p, s + rest) && Blank(s) && rest != [] && !Space(rest[0])
    ensures Ws(t, p) == p + |s| && EscapeAt(t, p + |s|, rest) && Read(t, p + |s|) == rest[0]
  {
    hide *;
    SplitAt(t, p, s, rest);
    FirstAt(t, p + |s|, rest);
    BlankSkipped(t, p, s);
  }

  /** A colon between white space. */
  lemma ColonAt(t: Bytes, p: nat, gap: Bytes, lead: Bytes, rest: Bytes)
    requires EscapeAt(t, p, gap + ([0x3A] + (lead + rest))) && Blank(gap) && Blank(lead)
    requires rest != [] && !Space(rest[0])
    ensures var c := p + |gap|;
      && Ws(t, p) == c && Read(t, c) == 0x3A
      && Ws(t, c + 1) == c + 1 + |lead| && EscapeAt(t, c + 1 + |lead|, rest)
  {
    hide *;
    NoSpace();
    BlankThen(t, p, gap, [0x3A] + (lead + rest));
    SplitAt(t, p + |gap|, [0x3A], lead + rest);
    BlankThen(t, p + |gap| + 1, lead, rest);
  }

  /** A value, white space, and the byte c in front of the rest. */
  lemma ValueAt(t: Bytes, p: nat, text: Bytes, after: Bytes, c: byte, rest: Bytes)
    requires EscapeAt(t, p, text + (after + ([c] + rest))) && Blank(after) && !Space(c)
    ensures var e := p + |text|;
      var r := e + |after|;
      && EscapeAt(t, p, text) && Ws(t, e) == r && Read(t, r) == c && EscapeAt(t, r + 1, rest)
      && (Space(Read(t, e)) || Read(t, e) == c)
  {
    hide *;
    SplitAt(t, p, text, after + ([c] + rest));
    BlankThen(t, p + |text|, after, [c] + rest);
    SplitAt(t, p + |text| + |after|, [c], rest);
    SplitAt(t, p + |text|, after, [c] + rest);
    AfterTree(t, p + |text|, after, c);
  }

  lemma {:induction false} SkippedBlank(t: Bytes, p: nat)
    requires p <= |t|
    ensures p <= Ws(t, p) <= |t| && Blank(t[p..Ws(t, p)]) && EscapeAt(t, p, t[p..Ws(t, p)])
    ensures !Space(Read(t, Ws(t, p)))
    decreases Remaining(t, p)
  {
    SpaceIs(Read(t, p));
    if IsSpace(Read(t, p)) {
      SkippedBlank(t, p + 1);
      assert t[p..Ws(t, p)] == [t[p]] + t[p + 1..Ws(t, p)];
    }
  }

  // ---- numbers and words

  /** A number is parsed exactly where a number of the narrowed grammar ends, and is in range. */
  lemma NumberTaken(t: Bytes, p: nat, end: nat, fits: Bytes -> bool)
    requires p < end <= |t|
    ensures ParseNumber(t, p, fits) == Done(Number(t[p..end]), end)
      <==>
      N.Number(t[p..end], true) && fits(t[p..end]) && N.Ends(t[p..end], Read(t, end)) && !HexAhead(t[p..end], t, end)
  {
    var l := t[p..end];
    HexIs(t, p, end);
    hide HexFollows, HexAhead, N.Ends, N.Number, NumberEnd;
    if N.Number(l, true) && N.Ends(l, Read(t, end)) {
      N.ScannedAt(t, p, end);
    }
    if ParseNumber(t, p, fits).Done? {
      N.DecodedIsNumber(t, p, fits);
      N.EndsThere(t, p);
    }
  }

  lemma HexIs(t: Bytes, p: nat, end: nat)
    requires p < end <= |t|
    ensures HexFollows(t, p, end) <==> HexAhead(t[p..end], t, end)
  {
    var l := t[p..end];
    NibbleIs(Read(t, end + 1));
    NibbleIs(Read(t, end + 2));
    assert l[0] == t[p] && l[|l| - 1] == t[end - 1];
    hide IsHex, Nibble;
  }

  lemma NumberStarts(l: Bytes)
    requires N.Number(l, false)
    ensures l != [] && (l[0] == 0x2D || 0x30 <= l[0] <= 0x39)
  {
    var f: nat, e: nat :| N.Parts(l, f, e, false);
    var i := if Read(l, 0) == MINUS then 1 else 0;
    assert l[i..f][0] == l[i];
  }

  lemma NarrowIsNumber(l: Bytes)
    requires N.Number(l, true)
    ensures N.Number(l, false)
  {
    var f: nat, e: nat :| N.Parts(l, f, e, true);
    assert N.Parts(l, f, e, false);
  }

  /** In front of white space, a comma or a closing bracket every number ends. */
  lemma EndsInside(d: Tree, t: Bytes, end: nat)
    requires Space(Read(t, end)) || Read(t, end) == 0x2C || Read(t, end) == 0x5D || Read(t, end) == 0x7D
    ensures Closed(d, t, end)
  {
  }

  /** The first byte tells what kind of value stands there. */
  lemma TreeStarts(d: Tree)
    requires Grammatical(d)
    ensures TreeText(d) != []
    ensures var c := TreeText(d)[0];
      && !Space(c) && c != 0x5D && c != 0x7D
      && (d.Word? <==> c == 0x6E || c == 0x74 || c == 0x66)
      && (d.Num? <==> c == 0x2D || 0x30 <= c <= 0x39)
      && (d.Str? <==> c == 0x22)
      && (d.EmptyArray? || d.FullArray? <==> c == 0x5B)
  {
    hide L.Texts, ItemsText, MembersText;
    if d.Num? {
      NumberStarts(d.l);
    }
  }

  // ---- from a derivation to the parse

  lemma WordParsed(t: Bytes, p: nat, w: Bytes, fits: Bytes -> bool)
    requires Grammatical(Word(w)) && EscapeAt(t, p, w)
    ensures ParseValue(t, p, fits) == Done(ValueOf(Word(w)), p + |w|)
  {
    FirstAt(t, p, w);
    if w[0] == 0x66 {
      assert t[p..p + 4] != TRUE_TEXT by {
        assert t[p..p + 4][0] == t[p];
      }
    }
  }

  lemma StringParsed(t: Bytes, p: nat, us: seq<L.Unit>)
    requires L.AllLegal(us) && L.Paired(us) && EscapeAt(t, p, StringText(us))
    ensures ParseString(t, p) == Done(String(L.Meaning(us, false)), p + |StringText(us)|) && Read(t, p) == QUOTE
  {
    hide L.Texts, L.Paired, L.AllLegal, L.Meaning;
    Regroup([0x22], L.Texts(us), [0x22]);
    SplitAt(t, p, [0x22], L.Texts(us) + [0x22]);
    FirstAt(t, p, [0x22]);
    L.LiteralParsed(t, p, us);
  }

  lemma ScalarParsed(t: Bytes, p: nat, d: Tree, fits: Bytes -> bool)
    requires (d.Word? || d.Num? || d.Str?) && Grammatical(d) && Taken(d, fits) && EscapeAt(t, p, TreeText(d))
    requires Closed(d, t, p + |TreeText(d)|)
    ensures ParseValue(t, p, fits) == Done(ValueOf(d), p + |TreeText(d)|)
  {
    if d.Word? {
      WordParsed(t, p, d.w, fits);
    } else if d.Num? {
      NumberParsed(t, p, d.l, fits);
    } else {
      StringParsed(t, p, d.us);
      hide ParseString, StringText, EscapeAt, L.Paired, L.AllLegal;
    }
  }

  lemma NumberParsed(t: Bytes, p: nat, l: Bytes, fits: Bytes -> bool)
    requires N.Number(l, true) && fits(l) && EscapeAt(t, p, l) && Closed(Num(l), t, p + |l|)
    ensures ParseValue(t, p, fits) == Done(Number(l), p + |l|)
  {
    hide ParseNumber, N.Number, N.Ends, HexAhead;
    NarrowIsNumber(l);
    NumberStarts(l);
    FirstAt(t, p, l);
    assert t[p..p + |l|] == l;
    NumberTaken(t, p, p + |l|, fits);
  }

  lemma EmptyArrayParsed(t: Bytes, p: nat, ws: Bytes, fits: Bytes -> bool)
    requires Blank(ws) && EscapeAt(t, p, [0x5B] + ws + [0x5D])
    ensures ParseValue(t, p, fits) == Done(Array([]), p + |ws| + 2)
  {
    EmptyParts(t, p, 0x5B, ws, 0x5D);
  }

  lemma EmptyObjectParsed(t: Bytes, p: nat, ws: Bytes, fits: Bytes -> bool)
    requires Blank(ws) && EscapeAt(t, p, [0x7B] + ws + [0x7D])
    ensures ParseValue(t, p, fits) == Done(Object(map[]), p + |ws| + 2)
  {
    EmptyParts(t, p, 0x7B, ws, 0x7D);
  }

  lemma EmptyParts(t: Bytes, p: nat, c: byte, ws: Bytes, e: byte)
    requires Blank(ws) && EscapeAt(t, p, [c] + ws + [e]) && !Space(e)
    ensures Read(t, p) == c && Ws(t, p + 1) == p + 1 + |ws| && Read(t, p + 1 + |ws|) == e
  {
    hide EscapeAt, Blank, Space;
    Regroup([c], ws, [e]);
    SplitAt(t, p, [c], ws + [e]);
    SplitAt(t, p + 1, ws, [e]);
    FirstAt(t, p, [c]);
    FirstAt(t, p + 1 + |ws|, [e]);
    BlankSkipped(t, p + 1, ws);
  }

  /** Where a derivation stands, the parser takes it. */
  lemma {:induction false} TreeParsed(t: Bytes, p: nat, d: Tree, fits: Bytes -> bool)
    requires Grammatical(d) && Taken(d, fits) && EscapeAt(t, p, TreeText(d)) && Closed(d, t, p + |TreeText(d)|)
    ensures ParseValue(t, p, fits) == Done(ValueOf(d), p + |TreeText(d)|)
    decreases d
  {
    hide *;
    match d {
      case EmptyArray(ws) => EmptyTree(d); EmptyArrayParsed(t, p, ws, fits);
      case EmptyObject(ws) => EmptyTree(d); EmptyObjectParsed(t, p, ws, fits);
      case FullArray(xs) =>
        ArrayText(xs, fits);
        SplitAt(t, p, [0x5B], ItemsText(xs));
        FirstAt(t, p, [0x5B]);
        ItemsParsed(t, p + 1, xs, [], fits);
        ArrayFrom(t, p, xs, fits);
      case FullObject(ms) =>
        ObjectText(ms, fits);
        SplitAt(t, p, [0x7B], MembersText(ms));
        FirstAt(t, p, [0x7B]);
        MembersParsed(t, p + 1, ms, map[], fits);
        ObjectFrom(t, p, ms, fits, ParseMembers(t, Ws(t, p + 1), map[], fits));
      case _ => ScalarParsed(t, p, d, fits);
    }
  }

  lemma EmptyTree(d: Tree)
    requires (d.EmptyArray? || d.EmptyObject?) && Grammatical(d)
    ensures Blank(d.ws) && |TreeText(d)| == |d.ws| + 2
    ensures ValueOf(d) == if d.EmptyArray? then Array([]) else Object(map[])
    ensures TreeText(d) == if d.EmptyArray? then [0x5B] + d.ws + [0x5D] else [0x7B] + d.ws + [0x7D]
  {
    hide Blank;
  }

  lemma ArrayText(xs: Items, fits: Bytes -> bool)
    requires Grammatical(FullArray(xs)) && Taken(FullArray(xs), fits)
    ensures GrammaticalItems(xs) && TakenItems(xs, fits) && TreeText(FullArray(xs)) == [0x5B] + ItemsText(xs)
  {
    hide ItemsText, GrammaticalItems, TakenItems;
  }

  lemma ObjectText(ms: Members, fits: Bytes -> bool)
    requires Grammatical(FullObject(ms)) && Taken(FullObject(ms), fits)
    ensures GrammaticalMembers(ms) && TakenMembers(ms, fits) && TreeText(FullObject(ms)) == [0x7B] + MembersText(ms)
  {
    hide MembersText, GrammaticalMembers, TakenMembers;
  }

  lemma ArrayFrom(t: Bytes, p: nat, xs: Items, fits: Bytes -> bool)
    requires Read(t, p) == 0x5B && GrammaticalItems(xs) && !Space(Read(t, Ws(t, p + 1)))
      && Read(t, Ws(t, p + 1)) != 0x5D
    requires ParseElements(t, Ws(t, p + 1), [], fits) == Done(Array([] + ItemValues(xs)), p + 1 + |ItemsText(xs)|)
    ensures ParseValue(t, p, fits) == Done(ValueOf(FullArray(xs)), p + |TreeText(FullArray(xs))|)
  {
    hide ParseElements, ItemsText, ItemValues, GrammaticalItems;
    assert [] + ItemValues(xs) == ItemValues(xs);
  }

  lemma ObjectFrom(t: Bytes, p: nat, ms: Members, fits: Bytes -> bool, r: Parse)
    requires Read(t, p) == 0x7B && GrammaticalMembers(ms) && Read(t, Ws(t, p + 1)) == 0x22
    requires ParseMembers(t, Ws(t, p + 1), map[], fits) == r
    requires r == Done(Object(MemberValues(map[], ms)), p + 1 + |MembersText(ms)|)
    ensures ParseValue(t, p, fits) == Done(ValueOf(FullObject(ms)), p + |TreeText(FullObject(ms))|)
  {
    hide ParseMembers, MembersText, MemberValues, GrammaticalMembers;
  }

  /** The text behind the comma that follows an item. */
  function MoreItems(xs: Items): Bytes {
    if xs.LastItem? then [] else ItemsText(xs.more)
  }

  function ItemMark(xs: Items): byte {
    if xs.LastItem? then 0x5D else 0x2C
  }

  /** The parts of an item: where its value begins and ends, and where the comma or bracket behind it stands. */
  lemma ItemParts(t: Bytes, p: nat, xs: Items)
    requires GrammaticalItems(xs) && EscapeAt(t, p, ItemsText(xs))
    ensures var q := p + |xs.before|;
      var e := q + |TreeText(xs.tree)|;
      var r := e + |xs.after|;
      && Ws(t, p) == q && EscapeAt(t, q, TreeText(xs.tree)) && Closed(xs.tree, t, e)
      && Ws(t, e) == r && Read(t, r) == ItemMark(xs)
      && Read(t, q) != 0x5D && !Space(Read(t, q))
      && EscapeAt(t, r + 1, MoreItems(xs)) && p + |ItemsText(xs)| == r + 1 + |MoreItems(xs)|
  {
    hide *;
    var q := p + |xs.before|;
    var tail := xs.after + ([ItemMark(xs)] + MoreItems(xs));
    ItemsTextIs(xs);
    ItemIs(xs);
    TreeStarts(xs.tree);
    BlankThen(t, p, xs.before, TreeText(xs.tree) + tail);
    ItemMarkIs(xs);
    ValueAt(t, q, TreeText(xs.tree), xs.after, ItemMark(xs), MoreItems(xs));
    EndsInside(xs.tree, t, q + |TreeText(xs.tree)|);
  }

  lemma ItemMarkIs(xs: Items)
    ensures ItemMark(xs) == (if xs.LastItem? then 0x5D else 0x2C) && !Space(ItemMark(xs))
    ensures MoreItems(xs) == if xs.LastItem? then [] else ItemsText(xs.more)
  {
    hide ItemsText;
  }

  lemma NoSpace()
    ensures !Space(0x5D) && !Space(0x7D) && !Space(0x2C) && !Space(0x3A) && !Space(0x22)
  {
  }

  lemma ItemsTextIs(xs: Items)
    ensures ItemsText(xs) == xs.before + (TreeText(xs.tree) + (xs.after + ([ItemMark(xs)] + MoreItems(xs))))
  {
    hide TreeText;
    assert xs.LastItem? ==> [ItemMark(xs)] + MoreItems(xs) == [0x5D];
  }

  lemma ItemIs(xs: Items)
    requires GrammaticalItems(xs)
    ensures Blank(xs.before) && Grammatical(xs.tree) && Blank(xs.after) && (xs.Item? ==> GrammaticalItems(xs.more))
  {
    hide Blank, Grammatical;
  }

  /** Behind a value stands white space, or what follows it. */
  lemma AfterTree(t: Bytes, e: nat, after: Bytes, c: byte)
    requires EscapeAt(t, e, after) && Blank(after) && Read(t, e + |after|) == c
    ensures Space(Read(t, e)) || Read(t, e) == c
  {
    hide Space;
    if after != [] {
      FirstAt(t, e, after);
    }
  }

  lemma {:induction false} ItemsParsed(t: Bytes, p: nat, xs: Items, acc: seq<Value>, fits: Bytes -> bool)
    requires GrammaticalItems(xs) && TakenItems(xs, fits) && EscapeAt(t, p, ItemsText(xs))
    ensures ParseElements(t, Ws(t, p), acc, fits) == Done(Array(acc + ItemValues(xs)), p + |ItemsText(xs)|)
    ensures !Space(Read(t, Ws(t, p))) && Read(t, Ws(t, p)) != 0x5D
    decreases xs
  {
    hide *;
    ItemParts(t, p, xs);
    ItemIs(xs);
    ItemMarkIs(xs);
    ItemTaken(xs, fits);
    var q := p + |xs.before|;
    var e := q + |TreeText(xs.tree)|;
    var r := e + |xs.after|;
    TreeParsed(t, q, xs.tree, fits);
    if xs.Item? {
      ItemsParsed(t, r + 1, xs.more, acc + [ValueOf(xs.tree)], fits);
    }
    ItemStep(t, q, xs, acc, fits, e, r);
  }

  lemma ItemTaken(xs: Items, fits: Bytes -> bool)
    requires TakenItems(xs, fits)
    ensures Taken(xs.tree, fits) && (xs.Item? ==> TakenItems(xs.more, fits))
  {
    hide Taken;
  }

  lemma ItemStep(t: Bytes, q: nat, xs: Items, acc: seq<Value>, fits: Bytes -> bool, e: nat, r: nat)
    requires GrammaticalItems(xs) && ParseValue(t, q, fits) == Done(ValueOf(xs.tree), e) && Ws(t, e) == r
    requires Read(t, r) == (if xs.LastItem? then 0x5D else 0x2C)
    ensures xs.LastItem? ==> ParseElements(t, q, acc, fits) == Done(Array(acc + ItemValues(xs)), r + 1)
    ensures xs.Item? ==> GrammaticalItems(xs.more)
    ensures xs.Item? && ParseElements(t, Ws(t, r + 1), acc + [ValueOf(xs.tree)], fits).Done? ==>
              ParseElements(t, q, acc, fits) == ParseElements(t, Ws(t, r + 1), acc + [ValueOf(xs.tree)], fits)
    ensures xs.Item? ==> acc + ItemValues(xs) == acc + [ValueOf(xs.tree)] + ItemValues(xs.more)
  {
    hide *;
    ItemIs(xs);
    ItemValuesIs(xs);
    ElementsGo(t, q, acc, fits, ValueOf(xs.tree), e);
    ArrayGoes(t, e, acc + [ValueOf(xs.tree)], fits);
    if xs.Item? {
      Together(acc, [ValueOf(xs.tree)], ItemValues(xs.more));
    }
  }

  lemma Together(a: seq<Value>, b: seq<Value>, c: seq<Value>)
    ensures a + b + c == a + (b + c)
  {
  }

  lemma ElementsGo(t: Bytes, q: nat, acc: seq<Value>, fits: Bytes -> bool, v: Value, e: nat)
    requires ParseValue(t, q, fits) == Done(v, e)
    ensures ParseElements(t, q, acc, fits) == RestOfArray(t, e, acc + [v], fits)
  {
    hide ParseValue, RestOfArray;
  }

  lemma ArrayGoes(t: Bytes, e: nat, acc: seq<Value>, fits: Bytes -> bool)
    ensures Read(t, Ws(t, e)) == 0x5D ==> RestOfArray(t, e, acc, fits) == Done(Array(acc), Ws(t, e) + 1)
    ensures Read(t, Ws(t, e)) == 0x2C ==>
              RestOfArray(t, e, acc, fits) == ParseElements(t, Ws(t, Ws(t, e) + 1), acc, fits)
  {
    hide ParseElements, Ws;
  }

  lemma ItemValuesIs(xs: Items)
    requires GrammaticalItems(xs)
    ensures xs.LastItem? ==> ItemValues(xs) == [ValueOf(xs.tree)]
    ensures xs.Item? ==> GrammaticalItems(xs.more) && ItemValues(xs) == [ValueOf(xs.tree)] + ItemValues(xs.more)
  {
    hide Grammatical, ValueOf, Blank;
  }

  // ---- members

  lemma MemberIs(ms: Members)
    requires GrammaticalMembers(ms)
    ensures Blank(ms.before) && L.AllLegal(ms.key) && Blank(ms.gap) && Blank(ms.lead) && Grammatical(ms.tree)
    ensures Blank(ms.after) && (ms.Member? ==> GrammaticalMembers(ms.more))
  {
    hide Blank, Grammatical, L.AllLegal;
  }

  lemma MemberTaken(ms: Members, fits: Bytes -> bool)
    requires TakenMembers(ms, fits)
    ensures L.Paired(ms.key) && Taken(ms.tree, fits) && (ms.Member? ==> TakenMembers(ms.more, fits))
  {
    hide Taken, L.Paired;
  }

  /** What stands behind a member's key. */
  function BehindKey(ms: Members): Bytes {
    ms.gap + ([0x3A] + BehindColon(ms))
  }

  function BehindColon(ms: Members): Bytes {
    ms.lead + (TreeText(ms.tree) + BehindTree(ms))
  }

  function BehindTree(ms: Members): Bytes {
    ms.after + ([MemberMark(ms)] + MoreMembers(ms))
  }

  function MoreMembers(ms: Members): Bytes {
    if ms.LastMember? then [] else MembersText(ms.more)
  }

  function MemberMark(ms: Members): byte {
    if ms.LastMember? then 0x7D else 0x2C
  }

  lemma MemberMarkIs(ms: Members)
    ensures MemberMark(ms) == (if ms.LastMember? then 0x7D else 0x2C) && !Space(MemberMark(ms))
    ensures MoreMembers(ms) == if ms.LastMember? then [] else MembersText(ms.more)
    ensures BehindTree(ms) == ms.after + ([MemberMark(ms)] + MoreMembers(ms))
    ensures BehindKey(ms) == ms.gap + ([0x3A] + (ms.lead + (TreeText(ms.tree) + BehindTree(ms))))
  {
    hide MembersText, TreeText;
  }

  lemma MembersTextIs(ms: Members)
    ensures MembersText(ms) == ms.before + (StringText(ms.key) + BehindKey(ms))
  {
    hide StringText, TreeText;
    assert ms.LastMember? ==> [MemberMark(ms)] + MoreMembers(ms) == [0x7D];
  }

  lemma StringStarts(us: seq<L.Unit>)
    ensures StringText(us) != [] && StringText(us)[0] == 0x22
  {
    hide L.Texts;
  }

  /** The key of a member. */
  lemma KeyParts(t: Bytes, p: nat, ms: Members)
    requires GrammaticalMembers(ms) && EscapeAt(t, p, MembersText(ms))
    ensures var q := p + |ms.before|;
      var k := q + |StringText(ms.key)|;
      && Ws(t, p) == q && Read(t, q) == 0x22 && EscapeAt(t, q, StringText(ms.key))
      && EscapeAt(t, k, BehindKey(ms)) && p + |MembersText(ms)| == k + |BehindKey(ms)|
  {
    hide *;
    MemberIs(ms);
    MembersTextIs(ms);
    NoSpace();
    StringStarts(ms.key);
    BlankThen(t, p, ms.before, StringText(ms.key) + BehindKey(ms));
    SplitAt(t, p + |ms.before|, StringText(ms.key), BehindKey(ms));
  }

  /** Its colon and its value, and the comma or brace behind it. */
  lemma MemberParts(t: Bytes, k: nat, ms: Members)
    requires GrammaticalMembers(ms) && EscapeAt(t, k, BehindKey(ms))
    ensures var c := k + |ms.gap|;
      var v := c + 1 + |ms.lead|;
      var e := v + |TreeText(ms.tree)|;
      var r := e + |ms.after|;
      && Ws(t, k) == c && Read(t, c) == 0x3A && Ws(t, c + 1) == v
      && EscapeAt(t, v, TreeText(ms.tree)) && Closed(ms.tree, t, e)
      && Ws(t, e) == r && Read(t, r) == MemberMark(ms)
      && EscapeAt(t, r + 1, MoreMembers(ms)) && k + |BehindKey(ms)| == r + 1 + |MoreMembers(ms)|
  {
    hide *;
    var v := k + |ms.gap| + 1 + |ms.lead|;
    MemberIs(ms);
    MemberMarkIs(ms);
    TreeStarts(ms.tree);
    ColonAt(t, k, ms.gap, ms.lead, TreeText(ms.tree) + BehindTree(ms));
    ValueAt(t, v, TreeText(ms.tree), ms.after, MemberMark(ms), MoreMembers(ms));
    EndsInside(ms.tree, t, v + |TreeText(ms.tree)|);
  }

  lemma {:induction false} MembersParsed(t: Bytes, p: nat, ms: Members, acc: map<Bytes, Value>, fits: Bytes -> bool)
    requires GrammaticalMembers(ms) && TakenMembers(ms, fits) && EscapeAt(t, p, MembersText(ms))
    ensures ParseMembers(t, Ws(t, p), acc, fits) == Done(Object(MemberValues(acc, ms)), p + |MembersText(ms)|)
    ensures Read(t, Ws(t, p)) == 0x22
    decreases ms
  {
    hide *;
    KeyParts(t, p, ms);
    MemberIs(ms);
    MemberTaken(ms, fits);
    var q := p + |ms.before|;
    var k := q + |StringText(ms.key)|;
    StringParsed(t, q, ms.key);
    MemberParts(t, k, ms);
    MemberMarkIs(ms);
    var v := k + |ms.gap| + 1 + |ms.lead|;
    var e := v + |TreeText(ms.tree)|;
    TreeParsed(t, v, ms.tree, fits);
    var n := acc[L.Meaning(ms.key, false) := ValueOf(ms.tree)];
    if ms.Member? {
      MembersParsed(t, e + |ms.after| + 1, ms.more, n, fits);
    }
    MemberStep(t, q, k, v, e, ms, acc, fits);
  }

  lemma MemberStep(t: Bytes, q: nat, k: nat, v: nat, e: nat, ms: Members, acc: map<Bytes, Value>, fits: Bytes -> bool)
    requires GrammaticalMembers(ms) && Read(t, q) == 0x22
    requires ParseString(t, q) == Done(String(L.Meaning(ms.key, false)), k)
    requires Read(t, Ws(t, k)) == 0x3A && Ws(t, Ws(t, k) + 1) == v
    requires ParseValue(t, v, fits) == Done(ValueOf(ms.tree), e)
    requires Read(t, Ws(t, e)) == (if ms.LastMember? then 0x7D else 0x2C)
    ensures var n := acc[L.Meaning(ms.key, false) := ValueOf(ms.tree)];
      if ms.LastMember? then ParseMembers(t, q, acc, fits) == Done(Object(MemberValues(acc, ms)), Ws(t, e) + 1)
      else
        && GrammaticalMembers(ms.more) && MemberValues(acc, ms) == MemberValues(n, ms.more)
        && ParseMembers(t, q, acc, fits) == ParseMembers(t, Ws(t, Ws(t, e) + 1), n, fits)
  {
    hide *;
    MemberIs(ms);
    MemberValuesIs(acc, ms);
    MembersGo(t, q, acc, fits, L.Meaning(ms.key, false), k);
    MemberGoes(t, k, acc, L.Meaning(ms.key, false), fits, ValueOf(ms.tree), e);
    ObjectGoes(t, e, acc[L.Meaning(ms.key, false) := ValueOf(ms.tree)], fits);
  }

  lemma MembersGo(t: Bytes, q: nat, acc: map<Bytes, Value>, fits: Bytes -> bool, key: Bytes, k: nat)
    requires Read(t, q) == 0x22 && ParseString(t, q) == Done(String(key), k)
    ensures ParseMembers(t, q, acc, fits) == RestOfMember(t, k, acc, key, fits)
  {
    hide ParseString, RestOfMember;
  }

  lemma MemberGoes(t: Bytes, k: nat, acc: map<Bytes, Value>, key: Bytes, fits: Bytes -> bool, v: Value, e: nat)
    requires Read(t, Ws(t, k)) == 0x3A && ParseValue(t, Ws(t, Ws(t, k) + 1), fits) == Done(v, e)
    ensures RestOfMember(t, k, acc, key, fits) == RestOfObject(t, e, acc[key := v], fits)
  {
    hide ParseValue, RestOfObject, Ws;
  }

  lemma ObjectGoes(t: Bytes, e: nat, acc: map<Bytes, Value>, fits: Bytes -> bool)
    ensures Read(t, Ws(t, e)) == 0x7D ==> RestOfObject(t, e, acc, fits) == Done(Object(acc), Ws(t, e) + 1)
    ensures Read(t, Ws(t, e)) == 0x2C ==>
              RestOfObject(t, e, acc, fits) == ParseMembers(t, Ws(t, Ws(t, e) + 1), acc, fits)
  {
    hide ParseMembers, Ws;
  }

  lemma MemberValuesIs(acc: map<Bytes, Value>, ms: Members)
    requires GrammaticalMembers(ms)
    ensures var n := acc[L.Meaning(ms.key, false) := ValueOf(ms.tree)];
      if ms.LastMember? then MemberValues(acc, ms) == n
      else GrammaticalMembers(ms.more) && MemberValues(acc, ms) == MemberValues(n, ms.more)
  {
    hide Grammatical, ValueOf, Blank, L.AllLegal, L.Meaning;
  }

  // ---- from the parse to a derivation

  /** A derivation that the code takes stands at p, and has this value and end. */
  ghost predicate Found(t: Bytes, p: nat, d: Tree, fits: Bytes -> bool, r: Parse) {
    && Grammatical(d) && Taken(d, fits) && EscapeAt(t, p, TreeText(d)) && Closed(d, t, p + |TreeText(d)|)
    && r == Done(ValueOf(d), p + |TreeText(d)|)
  }

  lemma WordFound(t: Bytes, p: nat, fits: Bytes -> bool) returns (d: Tree)
    requires ParseValue(t, p, fits).Done? && (Read(t, p) == 0x6E || Read(t, p) == 0x74 || Read(t, p) == 0x66)
    ensures Found(t, p, d, fits, ParseValue(t, p, fits))
  {
    d := Word(if Read(t, p) == 0x6E then NULL_TEXT else if Read(t, p) == 0x74 then TRUE_TEXT else FALSE_TEXT);
    if Read(t, p) == 0x74 && !WordAt(t, p, TRUE_TEXT) {
      ReadAt(t, p, FALSE_TEXT, 0);
    }
    if Read(t, p) == 0x66 && WordAt(t, p, TRUE_TEXT) {
      ReadAt(t, p, TRUE_TEXT, 0);
    }
  }

  lemma NumberFound(t: Bytes, p: nat, fits: Bytes -> bool) returns (d: Tree)
    requires ParseNumber(t, p, fits).Done?
    ensures Found(t, p, d, fits, ParseNumber(t, p, fits))
  {
    hide N.Number, N.Ends, HexAhead;
    var end := ParseNumber(t, p, fits).end;
    N.DecodedIsNumber(t, p, fits);
    hide ParseNumber;
    NumberTaken(t, p, end, fits);
    NarrowIsNumber(t[p..end]);
    d := Num(t[p..end]);
  }

  lemma StringFound(t: Bytes, p: nat) returns (us: seq<L.Unit>)
    requires WellFormed(t) && Read(t, p) == 0x22 && ParseString(t, p).Done?
    ensures L.AllLegal(us) && L.Paired(us) && EscapeAt(t, p, StringText(us))
    ensures ParseString(t, p) == Done(String(L.Meaning(us, false)), p + |StringText(us)|)
  {
    hide WellFormed, L.Texts, L.AllLegal, L.Paired, L.Meaning, ParseString, EscapeAt, L.BodyAt;
    L.StringGrammar(t, p);
    us :| L.LiteralAt(t, p, us) && L.Paired(us);
    L.LiteralParsed(t, p, us);
    LiteralText(t, p, us);
  }

  lemma LiteralText(t: Bytes, p: nat, us: seq<L.Unit>)
    requires L.LiteralAt(t, p, us)
    ensures EscapeAt(t, p, StringText(us))
  {
    hide L.Texts, L.AllLegal, EscapeAt;
    OneAt(t, p);
    JoinAt(t, p, [0x22], L.Texts(us) + [0x22]);
    Regroup([0x22], L.Texts(us), [0x22]);
  }

  lemma ScalarFound(t: Bytes, p: nat, fits: Bytes -> bool) returns (d: Tree)
    requires WellFormed(t) && ParseValue(t, p, fits).Done? && Read(t, p) != LBRACKET && Read(t, p) != LBRACE
    ensures Found(t, p, d, fits, ParseValue(t, p, fits))
  {
    ScalarKinds(t, p, fits);
    hide *;
    var c := Read(t, p);
    if c == 0x6E || c == 0x74 || c == 0x66 {
      d := WordFound(t, p, fits);
    } else if c == 0x22 {
      var us := StringFound(t, p);
      d := Str(us);
      StringIsFound(t, p, us, fits);
    } else {
      d := NumberFound(t, p, fits);
    }
  }

  lemma ScalarKinds(t: Bytes, p: nat, fits: Bytes -> bool)
    requires ParseValue(t, p, fits).Done? && Read(t, p) != LBRACKET && Read(t, p) != LBRACE
    ensures var c := Read(t, p);
      if c == 0x6E || c == 0x74 || c == 0x66 then true
      else if c == 0x22 then ParseValue(t, p, fits) == ParseString(t, p)
      else ParseValue(t, p, fits) == ParseNumber(t, p, fits)
  {
    hide ParseString, ParseNumber, ParseWord;
  }

  lemma StringIsFound(t: Bytes, p: nat, us: seq<L.Unit>, fits: Bytes -> bool)
    requires L.AllLegal(us) && L.Paired(us) && EscapeAt(t, p, StringText(us))
    ensures Found(t, p, Str(us), fits, Done(String(L.Meaning(us, false)), p + |StringText(us)|))
  {
    hide StringText, L.AllLegal, L.Paired, EscapeAt, L.Meaning;
  }

  // ---- arrays

  /** Items that the code takes stand at p, and add these values. */
  ghost predicate FoundItems(t: Bytes, p: nat, xs: Items, acc: seq<Value>, fits: Bytes -> bool, r: Parse) {
    && GrammaticalItems(xs) && TakenItems(xs, fits) && EscapeAt(t, p, ItemsText(xs))
    && r == Done(Array(acc + ItemValues(xs)), p + |ItemsText(xs)|)
  }

  lemma MovedFront(t: Bytes, p: nat, xs: Items, acc: seq<Value>, fits: Bytes -> bool, r: Parse, ws: Bytes)
    requires xs.before == [] && Blank(ws) && EscapeAt(t, p, ws) && FoundItems(t, p + |ws|, xs, acc, fits, r)
    ensures FoundItems(t, p, xs.(before := ws), acc, fits, r)
  {
    var ys := xs.(before := ws);
    hide *;
    FrontParts(xs, ws, fits);
    FoundItemsParts(t, p + |ws|, xs, acc, fits, r);
    JoinAt(t, p, ws, ItemsText(xs));
    FoundItemsAgain(t, p, ys, acc, fits, r);
  }

  lemma FrontParts(xs: Items, ws: Bytes, fits: Bytes -> bool)
    requires xs.before == [] && Blank(ws) && GrammaticalItems(xs)
    ensures var ys := xs.(before := ws);
      && GrammaticalItems(ys) && ItemValues(ys) == ItemValues(xs) && ItemsText(ys) == ws + ItemsText(xs)
      && (TakenItems(xs, fits) <==> TakenItems(ys, fits))
  {
    hide Blank, Grammatical, ValueOf, TreeText, Taken;
    var rest := TreeText(xs.tree) + (xs.after + (if xs.LastItem? then [0x5D] else [0x2C] + ItemsText(xs.more)));
    assert [] + rest == rest;
  }

  lemma FoundItemsParts(t: Bytes, p: nat, xs: Items, acc: seq<Value>, fits: Bytes -> bool, r: Parse)
    requires FoundItems(t, p, xs, acc, fits, r)
    ensures GrammaticalItems(xs) && TakenItems(xs, fits) && EscapeAt(t, p, ItemsText(xs))
    ensures r == Done(Array(acc + ItemValues(xs)), p + |ItemsText(xs)|)
  {
    hide GrammaticalItems, TakenItems, ItemsText, ItemValues, EscapeAt;
  }

  lemma FoundItemsAgain(t: Bytes, p: nat, xs: Items, acc: seq<Value>, fits: Bytes -> bool, r: Parse)
    requires GrammaticalItems(xs) && TakenItems(xs, fits) && EscapeAt(t, p, ItemsText(xs))
    requires r == Done(Array(acc + ItemValues(xs)), p + |ItemsText(xs)|)
    ensures FoundItems(t, p, xs, acc, fits, r)
  {
    hide GrammaticalItems, TakenItems, ItemsText, ItemValues, EscapeAt;
  }

  /** A value, white space, and the mark behind it. */
  lemma ItemFound(t: Bytes, p: nat, d: Tree, after: Bytes, more: Items, last: bool, acc: seq<Value>,
                  fits: Bytes -> bool, r: Parse) returns (xs: Items)
    requires Grammatical(d) && Found(t, p, d, fits, Done(ValueOf(d), p + |TreeText(d)|)) && Blank(after)
    requires var e := p + |TreeText(d)|;
      && EscapeAt(t, e, after) && Read(t, e + |after|) == (if last then 0x5D else 0x2C)
      && (last ==> r == Done(Array(acc + [ValueOf(d)]), e + |after| + 1))
      && (!last ==> FoundItems(t, e + |after| + 1, more, acc + [ValueOf(d)], fits, r))
    ensures xs.before == [] && FoundItems(t, p, xs, acc, fits, r)
  {
    xs := if last then LastItem([], d, after) else Item([], d, after, more);
    hide *;
    if !last {
      FoundItemsParts(t, p + |TreeText(d)| + |after| + 1, more, acc + [ValueOf(d)], fits, r);
    }
    FoundParts(t, p, d, fits);
    MadeItem(xs, fits);
    ItemMarkIs(xs);
    ItemsTextIs(xs);
    OneAt(t, p + |TreeText(d)| + |after|);
    EmptyAt(t, p + |TreeText(d)| + |after| + 1);
    JoinAt(t, p + |TreeText(d)| + |after|, [ItemMark(xs)], MoreItems(xs));
    JoinAt(t, p + |TreeText(d)|, after, [ItemMark(xs)] + MoreItems(xs));
    JoinAt(t, p, TreeText(d), after + ([ItemMark(xs)] + MoreItems(xs)));
    NoFront(TreeText(d) + (after + ([ItemMark(xs)] + MoreItems(xs))));
    ItemValuesIs(xs);
    ValuesRegroup(acc, ValueOf(d), if last then [] else ItemValues(more));
    FoundItemsAgain(t, p, xs, acc, fits, r);
  }

  lemma NoFront(s: Bytes)
    ensures [] + s == s
  {
  }

  lemma ValuesRegroup(acc: seq<Value>, v: Value, more: seq<Value>)
    ensures acc + [v] + more == acc + ([v] + more) && [v] + [] == [v]
  {
  }

  lemma EmptyAt(t: Bytes, p: nat)
    ensures p <= |t| ==> EscapeAt(t, p, [])
  {
  }

  lemma FoundParts(t: Bytes, p: nat, d: Tree, fits: Bytes -> bool)
    requires Grammatical(d) && Found(t, p, d, fits, Done(ValueOf(d), p + |TreeText(d)|))
    ensures Taken(d, fits) && EscapeAt(t, p, TreeText(d))
  {
    hide Taken, EscapeAt, TreeText, Closed;
  }

  lemma MadeItem(xs: Items, fits: Bytes -> bool)
    requires xs.before == [] && Grammatical(xs.tree) && Taken(xs.tree, fits) && Blank(xs.after)
    requires xs.Item? ==> GrammaticalItems(xs.more) && TakenItems(xs.more, fits)
    ensures GrammaticalItems(xs) && TakenItems(xs, fits)
  {
    hide Grammatical, Taken;
  }

  /** What the parser makes of an array behind its first value. */
  lemma ElementsSteps(t: Bytes, p: nat, acc: seq<Value>, fits: Bytes -> bool)
    requires ParseElements(t, p, acc, fits).Done?
    ensures var r := ParseElements(t, p, acc, fits);
      var v := ParseValue(t, p, fits);
      && v.Done? && p < v.end <= |t| && v.end <= Ws(t, v.end) < |t|
      && (|| (Read(t, Ws(t, v.end)) == 0x5D && r == Done(Array(acc + [v.value]), Ws(t, v.end) + 1))
          || (&& Read(t, Ws(t, v.end)) == 0x2C
              && r == ParseElements(t, Ws(t, Ws(t, v.end) + 1), acc + [v.value], fits)))
  {
    hide ParseValue;
  }

  lemma ArrayStarts(t: Bytes, p: nat, fits: Bytes -> bool)
    requires Read(t, p) == 0x5B && ParseValue(t, p, fits).Done?
    ensures p < |t|
    ensures var q := Ws(t, p + 1);
      if Read(t, q) == 0x5D then ParseValue(t, p, fits) == Done(Array([]), q + 1)
      else ParseValue(t, p, fits) == ParseElements(t, q, [], fits)
  {
    hide ParseElements;
  }

  lemma {:induction false} TreeFound(t: Bytes, p: nat, fits: Bytes -> bool) returns (d: Tree)
    requires WellFormed(t) && ParseValue(t, p, fits).Done?
    ensures Found(t, p, d, fits, ParseValue(t, p, fits))
    decreases Remaining(t, p), 2
  {
    hide *;
    if Read(t, p) == 0x5B {
      ArrayStarts(t, p, fits);
      var q := Ws(t, p + 1);
      SkippedBlank(t, p + 1);
      if Read(t, q) == 0x5D {
        d := EmptyArray(t[p + 1..q]);
        EmptyFound(t, p, q, d, fits);
      } else {
        Shorter(t, p, q);
        var xs := ItemsFound(t, q, [], fits);
        MovedFront(t, p + 1, xs, [], fits, ParseValue(t, p, fits), t[p + 1..q]);
        d := FullArray(xs.(before := t[p + 1..q]));
        ArrayFound(t, p, xs.(before := t[p + 1..q]), fits, ParseValue(t, p, fits));
      }
    } else if Read(t, p) == 0x7B {
      d := ObjectFound(t, p, fits);
    } else {
      Structural(t, p);
      d := ScalarFound(t, p, fits);
    }
  }

  lemma Structural(t: Bytes, p: nat)
    ensures LBRACKET == 0x5B && LBRACE == 0x7B
  {
  }

  lemma Shorter(t: Bytes, p: nat, q: nat)
    requires p < q && p < |t|
    ensures Remaining(t, q) < Remaining(t, p)
  {
  }

  lemma EmptyFound(t: Bytes, p: nat, q: nat, d: Tree, fits: Bytes -> bool)
    requires p < |t| && p + 1 <= q <= |t| && Blank(t[p + 1..q])
    requires (d == EmptyArray(t[p + 1..q]) && Read(t, p) == 0x5B && Read(t, q) == 0x5D)
          || (d == EmptyObject(t[p + 1..q]) && Read(t, p) == 0x7B && Read(t, q) == 0x7D)
    ensures Found(t, p, d, fits, Done(if d.EmptyArray? then Array([]) else Object(map[]), q + 1))
  {
    hide Blank;
    assert t[p..q + 1] == [t[p]] + t[p + 1..q] + [t[q]];
  }

  lemma ArrayFound(t: Bytes, p: nat, xs: Items, fits: Bytes -> bool, r: Parse)
    requires Read(t, p) == 0x5B && FoundItems(t, p + 1, xs, [], fits, r)
    ensures Found(t, p, FullArray(xs), fits, r)
  {
    hide EscapeAt, ItemsText, GrammaticalItems, TakenItems, ItemValues;
    OneAt(t, p);
    JoinAt(t, p, [0x5B], ItemsText(xs));
    assert [] + ItemValues(xs) == ItemValues(xs);
  }

  lemma FoundValue(t: Bytes, p: nat, d: Tree, fits: Bytes -> bool, r: Parse)
    requires Found(t, p, d, fits, r)
    ensures Grammatical(d) && r == Done(ValueOf(d), p + |TreeText(d)|)
  {
    hide Taken, EscapeAt, TreeText, Closed;
  }

  lemma {:induction false} ItemsFound(t: Bytes, p: nat, acc: seq<Value>, fits: Bytes -> bool) returns (xs: Items)
    requires WellFormed(t) && ParseElements(t, p, acc, fits).Done?
    ensures xs.before == [] && FoundItems(t, p, xs, acc, fits, ParseElements(t, p, acc, fits))
    decreases Remaining(t, p), 3
  {
    hide *;
    var r := ParseElements(t, p, acc, fits);
    ElementsSteps(t, p, acc, fits);
    var v := ParseValue(t, p, fits);
    var d := TreeFound(t, p, fits);
    FoundValue(t, p, d, fits, v);
    var q := Ws(t, v.end);
    SkippedBlank(t, v.end);
    if Read(t, q) == 0x5D {
      xs := ItemFound(t, p, d, t[v.end..q], LastItem([], d, []), true, acc, fits, r);
    } else {
      var w := Ws(t, q + 1);
      SkippedBlank(t, q + 1);
      Shorter(t, p, w);
      var ys := ItemsFound(t, w, acc + [v.value], fits);
      MovedFront(t, q + 1, ys, acc + [v.value], fits, r, t[q + 1..w]);
      xs := ItemFound(t, p, d, t[v.end..q], ys.(before := t[q + 1..w]), false, acc, fits, r);
    }
  }

  // ---- objects

  ghost predicate FoundMembers(t: Bytes, p: nat, ms: Members, acc: map<Bytes, Value>, fits: Bytes -> bool, r: Parse) {
    && GrammaticalMembers(ms) && TakenMembers(ms, fits) && EscapeAt(t, p, MembersText(ms))
    && r == Done(Object(MemberValues(acc, ms)), p + |MembersText(ms)|)
  }

  lemma FoundMembersParts(t: Bytes, p: nat, ms: Members, acc: map<Bytes, Value>, fits: Bytes -> bool, r: Parse)
    requires FoundMembers(t, p, ms, acc, fits, r)
    ensures GrammaticalMembers(ms) && TakenMembers(ms, fits) && EscapeAt(t, p, MembersText(ms))
    ensures r == Done(Object(MemberValues(acc, ms)), p + |MembersText(ms)|)
  {
    hide GrammaticalMembers, TakenMembers, MembersText, MemberValues, EscapeAt;
  }

  lemma FoundMembersAgain(t: Bytes, p: nat, ms: Members, acc: map<Bytes, Value>, fits: Bytes -> bool, r: Parse)
    requires GrammaticalMembers(ms) && TakenMembers(ms, fits) && EscapeAt(t, p, MembersText(ms))
    requires r == Done(Object(MemberValues(acc, ms)), p + |MembersText(ms)|)
    ensures FoundMembers(t, p, ms, acc, fits, r)
  {
    hide GrammaticalMembers, TakenMembers, MembersText, MemberValues, EscapeAt;
  }

  lemma MovedMember(t: Bytes, p: nat, ms: Members, acc: map<Bytes, Value>, fits: Bytes -> bool, r: Parse, ws: Bytes)
    requires ms.before == [] && Blank(ws) && EscapeAt(t, p, ws) && FoundMembers(t, p + |ws|, ms, acc, fits, r)
    ensures FoundMembers(t, p, ms.(before := ws), acc, fits, r)
  {
    var ns := ms.(before := ws);
    hide *;
    FoundMembersParts(t, p + |ws|, ms, acc, fits, r);
    MemberFront(ms, ws, acc, fits);
    JoinAt(t, p, ws, MembersText(ms));
    FoundMembersAgain(t, p, ns, acc, fits, r);
  }

  lemma MemberFront(ms: Members, ws: Bytes, acc: map<Bytes, Value>, fits: Bytes -> bool)
    requires ms.before == [] && Blank(ws) && GrammaticalMembers(ms)
    ensures var ns := ms.(before := ws);
      && GrammaticalMembers(ns) && MemberValues(acc, ns) == MemberValues(acc, ms)
      && MembersText(ns) == ws + MembersText(ms) && (TakenMembers(ms, fits) <==> TakenMembers(ns, fits))
  {
    hide Blank, Grammatical, ValueOf, TreeText, StringText, Taken, L.AllLegal, L.Paired, L.Meaning;
    MembersTextIs(ms);
    MembersTextIs(ms.(before := ws));
    assert BehindKey(ms) == BehindKey(ms.(before := ws));
    NoFront(StringText(ms.key) + BehindKey(ms));
  }

  lemma MembersSteps(t: Bytes, p: nat, acc: map<Bytes, Value>, fits: Bytes -> bool)
    requires ParseMembers(t, p, acc, fits).Done?
    ensures Read(t, p) == 0x22
    ensures var r := ParseMembers(t, p, acc, fits);
      var k := ParseString(t, p);
      && k.Done? && k.value.String? && p < k.end <= |t|
      && k.end <= Ws(t, k.end) < |t| && Read(t, Ws(t, k.end)) == 0x3A
      && MemberSteps(t, Ws(t, Ws(t, k.end) + 1), acc, k.value.s, fits, r)
  {
    hide ParseValue, ParseString, RestOfMember, MemberSteps;
    var k := ParseString(t, p);
    assert ParseMembers(t, p, acc, fits) == RestOfMember(t, k.end, acc, k.value.s, fits);
    RestSteps(t, k.end, acc, k.value.s, fits);
  }

  lemma RestSteps(t: Bytes, p: nat, acc: map<Bytes, Value>, key: Bytes, fits: Bytes -> bool)
    requires RestOfMember(t, p, acc, key, fits).Done?
    ensures p <= Ws(t, p) < |t| && Read(t, Ws(t, p)) == 0x3A
    ensures MemberSteps(t, Ws(t, Ws(t, p) + 1), acc, key, fits, RestOfMember(t, p, acc, key, fits))
  {
    hide ParseValue;
    var v := ParseValue(t, Ws(t, Ws(t, p) + 1), fits);
    assert RestOfMember(t, p, acc, key, fits) == RestOfObject(t, v.end, acc[key := v.value], fits);
  }

  /** What the parser makes of a member's value, and of what follows it. */
  ghost predicate MemberSteps(t: Bytes, p: nat, acc: map<Bytes, Value>, key: Bytes, fits: Bytes -> bool, r: Parse) {
    var v := ParseValue(t, p, fits);
    && v.Done? && p < v.end <= |t| && v.end <= Ws(t, v.end) < |t|
    && (|| (Read(t, Ws(t, v.end)) == 0x7D && r == Done(Object(acc[key := v.value]), Ws(t, v.end) + 1))
        || (Read(t, Ws(t, v.end)) == 0x2C && r == ParseMembers(t, Ws(t, Ws(t, v.end) + 1), acc[key := v.value], fits)))
  }

  lemma ObjectStarts(t: Bytes, p: nat, fits: Bytes -> bool)
    requires Read(t, p) == 0x7B && ParseValue(t, p, fits).Done?
    ensures p < |t|
    ensures var q := Ws(t, p + 1);
      if Read(t, q) == 0x7D then ParseValue(t, p, fits) == Done(Object(map[]), q + 1)
      else ParseValue(t, p, fits) == ParseMembers(t, q, map[], fits)
  {
    hide ParseMembers;
  }

  lemma {:induction false} ObjectFound(t: Bytes, p: nat, fits: Bytes -> bool) returns (d: Tree)
    requires WellFormed(t) && Read(t, p) == 0x7B && ParseValue(t, p, fits).Done?
    ensures Found(t, p, d, fits, ParseValue(t, p, fits))
    decreases Remaining(t, p), 1
  {
    hide *;
    ObjectStarts(t, p, fits);
    var q := Ws(t, p + 1);
    SkippedBlank(t, p + 1);
    if Read(t, q) == 0x7D {
      d := EmptyObject(t[p + 1..q]);
      EmptyFound(t, p, q, d, fits);
    } else {
      Shorter(t, p, q);
      var ms := MembersFound(t, q, map[], fits);
      MovedMember(t, p + 1, ms, map[], fits, ParseValue(t, p, fits), t[p + 1..q]);
      d := FullObject(ms.(before := t[p + 1..q]));
      ObjectIsFound(t, p, ms.(before := t[p + 1..q]), fits, ParseValue(t, p, fits));
    }
  }

  lemma ObjectIsFound(t: Bytes, p: nat, ms: Members, fits: Bytes -> bool, r: Parse)
    requires Read(t, p) == 0x7B && FoundMembers(t, p + 1, ms, map[], fits, r)
    ensures Found(t, p, FullObject(ms), fits, r)
  {
    hide EscapeAt, MembersText, GrammaticalMembers, TakenMembers, MemberValues;
    OneAt(t, p);
    JoinAt(t, p, [0x7B], MembersText(ms));
  }

  lemma {:induction false} MembersFound(t: Bytes, p: nat, acc: map<Bytes, Value>, fits: Bytes -> bool)
    returns (ms: Members)
    requires WellFormed(t) && ParseMembers(t, p, acc, fits).Done?
    ensures ms.before == [] && FoundMembers(t, p, ms, acc, fits, ParseMembers(t, p, acc, fits))
    decreases Remaining(t, p), 3
  {
    hide *;
    var r := ParseMembers(t, p, acc, fits);
    MembersSteps(t, p, acc, fits);
    var k := ParseString(t, p);
    var key := StringFound(t, p);
    var c := Ws(t, k.end);
    SkippedBlank(t, k.end);
    var w := Ws(t, c + 1);
    SkippedBlank(t, c + 1);
    var v := ParseValue(t, w, fits);
    MemberStepsParts(t, w, acc, k.value.s, fits, r);
    Shorter(t, p, w);
    var d := TreeFound(t, w, fits);
    FoundValue(t, w, d, fits, v);
    var q := Ws(t, v.end);
    SkippedBlank(t, v.end);
    var n := acc[k.value.s := v.value];
    if Read(t, q) == 0x7D {
      ms := LastMember([], key, t[k.end..c], t[c + 1..w], d, t[v.end..q]);
      MemberFound(t, p, ms, acc, fits, r);
    } else {
      var u := Ws(t, q + 1);
      SkippedBlank(t, q + 1);
      Shorter(t, p, u);
      var ns := MembersFound(t, u, n, fits);
      MovedMember(t, q + 1, ns, n, fits, r, t[q + 1..u]);
      ms := Member([], key, t[k.end..c], t[c + 1..w], d, t[v.end..q], ns.(before := t[q + 1..u]));
      MemberFound(t, p, ms, acc, fits, r);
    }
  }

  lemma MemberStepsParts(t: Bytes, p: nat, acc: map<Bytes, Value>, key: Bytes, fits: Bytes -> bool, r: Parse)
    requires MemberSteps(t, p, acc, key, fits, r)
    ensures var v := ParseValue(t, p, fits);
      && v.Done? && p < v.end <= |t| && v.end <= Ws(t, v.end) < |t|
      && (|| (Read(t, Ws(t, v.end)) == 0x7D && r == Done(Object(acc[key := v.value]), Ws(t, v.end) + 1))
          || (Read(t, Ws(t, v.end)) == 0x2C
              && r == ParseMembers(t, Ws(t, Ws(t, v.end) + 1), acc[key := v.value], fits)))
  {
    hide ParseValue, ParseMembers, Ws;
  }

  /** The pieces of a member, put together. */
  lemma MemberFound(t: Bytes, p: nat, ms: Members, acc: map<Bytes, Value>, fits: Bytes -> bool, r: Parse)
    requires ms.before == [] && L.AllLegal(ms.key) && L.Paired(ms.key) && EscapeAt(t, p, StringText(ms.key))
    requires Blank(ms.gap) && Blank(ms.lead) && Blank(ms.after) && Grammatical(ms.tree)
    requires var c := p + |StringText(ms.key)| + |ms.gap|;
      var w := c + 1 + |ms.lead|;
      var e := w + |TreeText(ms.tree)|;
      var q := e + |ms.after|;
      var n := acc[L.Meaning(ms.key, false) := ValueOf(ms.tree)];
      && EscapeAt(t, p + |StringText(ms.key)|, ms.gap) && Read(t, c) == 0x3A && EscapeAt(t, c + 1, ms.lead)
      && Found(t, w, ms.tree, fits, Done(ValueOf(ms.tree), e))
      && EscapeAt(t, e, ms.after) && Read(t, q) == (if ms.LastMember? then 0x7D else 0x2C)
      && (ms.LastMember? ==> r == Done(Object(n), q + 1))
      && (ms.Member? ==> FoundMembers(t, q + 1, ms.more, n, fits, r))
    ensures FoundMembers(t, p, ms, acc, fits, r)
  {
    hide *;
    var c := p + |StringText(ms.key)| + |ms.gap|;
    var w := c + 1 + |ms.lead|;
    var e := w + |TreeText(ms.tree)|;
    var q := e + |ms.after|;
    var n := acc[L.Meaning(ms.key, false) := ValueOf(ms.tree)];
    if ms.Member? {
      FoundMembersParts(t, q + 1, ms.more, n, fits, r);
    }
    FoundParts(t, w, ms.tree, fits);
    MadeMember(ms, fits);
    MemberMarkIs(ms);
    MembersTextIs(ms);
    EmptyAt(t, q + 1);
    OneAt(t, q);
    OneAt(t, c);
    MemberJoined(t, p, StringText(ms.key), ms.gap, ms.lead, TreeText(ms.tree), ms.after, MemberMark(ms),
                 MoreMembers(ms));
    NoFront(StringText(ms.key) + BehindKey(ms));
    MemberValuesIs(acc, ms);
    FoundMembersAgain(t, p, ms, acc, fits, r);
  }

  lemma MemberJoined(t: Bytes, p: nat, key: Bytes, gap: Bytes, lead: Bytes, text: Bytes, after: Bytes, mark: byte,
                     more: Bytes)
    requires EscapeAt(t, p, key) && EscapeAt(t, p + |key|, gap)
    requires var c := p + |key| + |gap|;
      var w := c + 1 + |lead|;
      var e := w + |text|;
      && EscapeAt(t, c, [0x3A]) && EscapeAt(t, c + 1, lead) && EscapeAt(t, w, text) && EscapeAt(t, e, after)
      && EscapeAt(t, e + |after|, [mark]) && EscapeAt(t, e + |after| + 1, more)
    ensures EscapeAt(t, p, key + (gap + ([0x3A] + (lead + (text + (after + ([mark] + more)))))))
  {
    hide *;
    var c := p + |key| + |gap|;
    var w := c + 1 + |lead|;
    var e := w + |text|;
    JoinAt(t, e + |after|, [mark], more);
    JoinAt(t, e, after, [mark] + more);
    JoinAt(t, w, text, after + ([mark] + more));
    JoinAt(t, c + 1, lead, text + (after + ([mark] + more)));
    JoinAt(t, c, [0x3A], lead + (text + (after + ([mark] + more))));
    JoinAt(t, p + |key|, gap, [0x3A] + (lead + (text + (after + ([mark] + more)))));
    JoinAt(t, p, key, gap + ([0x3A] + (lead + (text + (after + ([mark] + more))))));
  }

  lemma MadeMember(ms: Members, fits: Bytes -> bool)
    requires ms.before == [] && L.AllLegal(ms.key) && L.Paired(ms.key) && Blank(ms.gap) && Blank(ms.lead)
    requires Grammatical(ms.tree) && Taken(ms.tree, fits) && Blank(ms.after)
    requires ms.Member? ==> GrammaticalMembers(ms.more) && TakenMembers(ms.more, fits)
    ensures GrammaticalMembers(ms) && TakenMembers(ms, fits)
  {
    hide Grammatical, Taken, L.AllLegal, L.Paired;
  }

  // ---- JSON texts

  /** JSON-text = ws value ws: it stands at p and ends at end, and no white space follows it. */
  ghost predicate StandsAt(t: Bytes, p: nat, before: Bytes, d: Tree, after: Bytes, end: nat) {
    && Blank(before) && Grammatical(d) && Blank(after)
    && EscapeAt(t, p, before + (TreeText(d) + after)) && end == p + |before| + |TreeText(d)| + |after|
    && !Space(Read(t, end))
  }

  /**
   * In UTF-8 text the parser takes exactly the JSON texts of RFC 8259 whose tokens the code takes, and, if the value
   * is a number, where that number ends. It yields what the derivation means, and the end of the text.
   */
  lemma TextGrammar(t: Bytes, p: nat, fits: Bytes -> bool, v: Value, end: nat)
    requires WellFormed(t) && p <= |t|
    ensures ParseText(t, p, fits) == Done(v, end)
      <==> exists before, d, after ::
             && StandsAt(t, p, before, d, after, end) && Taken(d, fits)
             && Closed(d, t, p + |before| + |TreeText(d)|) && v == ValueOf(d)
  {
    StandsGrammatical(t, p, end);
    hide *;
    if before, d, after :|
      && StandsAt(t, p, before, d, after, end) && Taken(d, fits)
      && Closed(d, t, p + |before| + |TreeText(d)|) && v == ValueOf(d)
    {
      TextParsed(t, p, before, d, after, end, fits);
    }
    if ParseText(t, p, fits) == Done(v, end) {
      var before, d, after := TextFound(t, p, fits, v, end);
    }
  }

  lemma StandsGrammatical(t: Bytes, p: nat, end: nat)
    ensures forall before, d, after :: StandsAt(t, p, before, d, after, end) ==> Grammatical(d)
  {
    hide Blank, Grammatical, TreeText;
  }

  lemma TextParsed(t: Bytes, p: nat, before: Bytes, d: Tree, after: Bytes, end: nat, fits: Bytes -> bool)
    requires StandsAt(t, p, before, d, after, end) && Taken(d, fits) && Closed(d, t, p + |before| + |TreeText(d)|)
    ensures Grammatical(d) && ParseText(t, p, fits) == Done(ValueOf(d), end)
  {
    hide Blank, Grammatical, Taken, Closed, EscapeAt, TreeText, Space, ParseValue, Ws, ValueOf;
    TreeStarts(d);
    BlankThen(t, p, before, TreeText(d) + after);
    SplitAt(t, p + |before|, TreeText(d), after);
    TreeParsed(t, p + |before|, d, fits);
    BlankSkipped(t, p + |before| + |TreeText(d)|, after);
  }

  lemma TextFound(t: Bytes, p: nat, fits: Bytes -> bool, v: Value, end: nat)
    returns (before: Bytes, d: Tree, after: Bytes)
    requires WellFormed(t) && p <= |t| && ParseText(t, p, fits) == Done(v, end)
    ensures StandsAt(t, p, before, d, after, end) && Taken(d, fits)
    ensures Closed(d, t, p + |before| + |TreeText(d)|) && v == ValueOf(d)
  {
    hide Blank, Grammatical, Taken, Closed, EscapeAt, TreeText, Space, ParseValue, Ws, ValueOf, WellFormed;
    var q := Ws(t, p);
    SkippedBlank(t, p);
    d := TreeFound(t, q, fits);
    var e := ParseValue(t, q, fits).end;
    SkippedBlank(t, e);
    before, after := t[p..q], t[e..Ws(t, e)];
    JoinAt(t, q, TreeText(d), after);
    JoinAt(t, p, before, TreeText(d) + after);
  }
}
