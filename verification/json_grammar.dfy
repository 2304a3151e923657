/**
 * A recursive-descent parser for JSON texts. It is the grammar of RFC 8259 except for its tokens: exponents have no
 * leading zero, a number that strtold reads on or finds out of range is refused, and strings are those that
 * string.c decodes. JsonNumber compares numbers with section 6, JsonLiteral strings with section 7.
 */
module JsonGrammar {
  import opened Common
  import opened Utf8
  import opened Hex
  import opened JsonString
  import opened JsonValue

  /** A parse that failed, or a value and the position after it. */
  datatype Parse = Fail | Done(value: Value, end: nat)

  /** The first position from p on that holds no white space. */
  function Ws(t: Bytes, p: nat): (q: nat)
    ensures p <= q && !IsSpace(Read(t, q))
    ensures q == p || (p < |t| && q <= |t|)
    decreases Remaining(t, p)
  {
    if IsSpace(Read(t, p)) then Ws(t, p + 1) else p
  }

  /** strncmp(from, word, |word|) == 0 */
  predicate WordAt(t: Bytes, p: nat, word: Bytes) {
    EscapeAt(t, p, word)
  }

  // ---- numbers

  function DigitsEnd(t: Bytes, p: nat): (q: nat)
    ensures p <= q && !IsDigit(Read(t, q))
    ensures forall i :: p <= i < q ==> IsDigit(Read(t, i))
    ensures q == p || q <= |t|
    ensures IsDigit(Read(t, p)) ==> p < q
    decreases Remaining(t, p)
  {
    if IsDigit(Read(t, p)) then DigitsEnd(t, p + 1) else p
  }

  function IntEnd(t: Bytes, p: nat): Option<nat> {
    if (Read(t, p) == ZERO && IsDigit(Read(t, p + 1))) || !IsDigit(Read(t, p)) then None else Some(DigitsEnd(t, p))
  }

  function FracEnd(t: Bytes, p: nat): Option<nat> {
    if Read(t, p) != DOT then Some(p)
    else if IsDigit(Read(t, p + 1)) then Some(DigitsEnd(t, p + 1)) else None
  }

  function ExpEnd(t: Bytes, p: nat): Option<nat> {
    if Read(t, p) != 0x65 && Read(t, p) != 0x45 then Some(p)
    else
      var q := if Read(t, p + 1) == MINUS || Read(t, p + 1) == PLUS then p + 2 else p + 1;
      IntEnd(t, q)
  }

  /** The end of the longest number at p. */
  function NumberEnd(t: Bytes, p: nat): (r: Option<nat>)
    ensures r.Some? ==> p < r.value <= |t|
  {
    match IntEnd(t, if Read(t, p) == MINUS then p + 1 else p)
    case None => None
    case Some(i) =>
      match FracEnd(t, i)
      case None => None
      case Some(f) => ExpEnd(t, f)
  }

  /** A lexeme that is one number from end to end. */
  predicate IsNumber(l: Bytes) {
    NumberEnd(l, 0) == Some(|l|)
  }

  /** strtold goes on past a zero that starts a hexadecimal number. */
  predicate HexFollows(t: Bytes, p: nat, end: nat) {
    && end == p + (if Read(t, p) == MINUS then 2 else 1) && Read(t, end - 1) == ZERO
    && (Read(t, end) == 0x78 || Read(t, end) == 0x58)
    && (IsHex(Read(t, end + 1)) || (Read(t, end + 1) == DOT && IsHex(Read(t, end + 2))))
  }

  function HexDigitsEnd(t: Bytes, p: nat): (q: nat)
    ensures p <= q
    decreases Remaining(t, p)
  {
    if IsHex(Read(t, p)) then HexDigitsEnd(t, p + 1) else p
  }

  /** Where strtold stops in a hexadecimal number whose x is at p. */
  function HexEnd(t: Bytes, p: nat): (q: nat)
    ensures p < q
  {
    var i := HexDigitsEnd(t, p + 1);
    var j := if Read(t, i) == DOT then HexDigitsEnd(t, i + 1) else i;
    if Read(t, j) == 0x70 || Read(t, j) == 0x50 then
      var k := if Read(t, j + 1) == PLUS || Read(t, j + 1) == MINUS then j + 2 else j + 1;
      if IsDigit(Read(t, k)) then DigitsEnd(t, k) else j
    else j
  }

  // ---- values; fits tells the lexemes that strtold converts without a range error

  function ParseWord(t: Bytes, p: nat, word: Bytes, value: Value): Parse {
    if WordAt(t, p, word) then Done(value, p + |word|) else Fail
  }

  function ParseNumber(t: Bytes, p: nat, fits: Bytes -> bool): (r: Parse)
    ensures r.Done? ==> p < r.end <= |t| && r.value.Number?
  {
    match NumberEnd(t, p)
    case None => Fail
    case Some(end) => if HexFollows(t, p, end) || !fits(t[p..end]) then Fail else Done(Number(t[p..end]), end)
  }

  function ParseString(t: Bytes, p: nat): (r: Parse)
    ensures r.Done? ==> p < r.end <= |t| && r.value.String?
  {
    var body := DecodeFrom(t, p + 1);
    if Read(t, body.end) == QUOTE then Done(String(body.bytes), body.end + 1) else Fail
  }

  function ParseScalar(t: Bytes, p: nat, fits: Bytes -> bool): (r: Parse)
    ensures r.Done? ==> p < r.end <= |t| && !r.value.Undefined? && !r.value.Array? && !r.value.Object?
    ensures r.Done? && r.value.String? ==> Read(t, p) == QUOTE
  {
    var c := Read(t, p);
    if c == 0x6E then ParseWord(t, p, NULL_TEXT, Null)
    else if c == 0x74 || c == 0x66 then
      if WordAt(t, p, TRUE_TEXT) then Done(Bool(true), p + 4) else ParseWord(t, p, FALSE_TEXT, Bool(false))
    else if IsDigit(c) || c == MINUS then ParseNumber(t, p, fits)
    else if c == QUOTE then ParseString(t, p)
    else Fail
  }

  function ParseValue(t: Bytes, p: nat, fits: Bytes -> bool): (r: Parse)
    ensures r.Done? ==> p < r.end <= |t| && !r.value.Undefined?
    ensures r.Done? ==> (r.value.String? <==> Read(t, p) == QUOTE)
    decreases Remaining(t, p), 2
  {
    if Read(t, p) == LBRACKET then
      var q := Ws(t, p + 1);
      if Read(t, q) == RBRACKET then Done(Array([]), q + 1) else ParseElements(t, q, [], fits)
    else if Read(t, p) == LBRACE then
      var q := Ws(t, p + 1);
      if Read(t, q) == RBRACE then Done(Object(map[]), q + 1) else ParseMembers(t, q, map[], fits)
    else ParseScalar(t, p, fits)
  }

  /** A value at p, then the rest of the array after the elements so far. */
  function ParseElements(t: Bytes, p: nat, elements: seq<Value>, fits: Bytes -> bool): (r: Parse)
    ensures r.Done? ==> p < r.end <= |t| && r.value.Array?
    decreases Remaining(t, p), 3
  {
    match ParseValue(t, p, fits)
    case Fail => Fail
    case Done(v, end) => RestOfArray(t, end, elements + [v], fits)
  }

  /** A comma and more elements, or the closing bracket. */
  function RestOfArray(t: Bytes, p: nat, elements: seq<Value>, fits: Bytes -> bool): (r: Parse)
    ensures r.Done? ==> p < r.end <= |t| && r.value.Array?
    decreases Remaining(t, p), 4
  {
    var q := Ws(t, p);
    if Read(t, q) == COMMA then ParseElements(t, Ws(t, q + 1), elements, fits)
    else if Read(t, q) == RBRACKET then Done(Array(elements), q + 1)
    else Fail
  }

  /** A key string at p, its value, and the rest of the object; the last value of a key wins. */
  function ParseMembers(t: Bytes, p: nat, members: map<Bytes, Value>, fits: Bytes -> bool): (r: Parse)
    ensures r.Done? ==> p < r.end <= |t| && r.value.Object?
    decreases Remaining(t, p), 3
  {
    if Read(t, p) != QUOTE then Fail
    else
      match ParseString(t, p)
      case Fail => Fail
      case Done(key, end) => RestOfMember(t, end, members, key.s, fits)
  }

  /** The colon and value of a member, and the rest of the object. */
  function RestOfMember(t: Bytes, p: nat, members: map<Bytes, Value>, key: Bytes, fits: Bytes -> bool): (r: Parse)
    ensures r.Done? ==> p < r.end <= |t| && r.value.Object?
    decreases Remaining(t, p), 4
  {
    var q := Ws(t, p);
    if Read(t, q) != COLON then Fail
    else
      match ParseValue(t, Ws(t, q + 1), fits)
      case Fail => Fail
      case Done(v, end) => RestOfObject(t, end, members[key := v], fits)
  }

  function RestOfObject(t: Bytes, p: nat, members: map<Bytes, Value>, fits: Bytes -> bool): (r: Parse)
    ensures r.Done? ==> p < r.end <= |t| && r.value.Object?
    decreases Remaining(t, p), 4
  {
    var q := Ws(t, p);
    if Read(t, q) == COMMA then ParseMembers(t, Ws(t, q + 1), members, fits)
    else if Read(t, q) == RBRACE then Done(Object(members), q + 1)
    else Fail
  }

  /** A JSON text: one value between white space. */
  function ParseText(t: Bytes, p: nat, fits: Bytes -> bool): Parse {
    match ParseValue(t, Ws(t, p), fits)
    case Fail => Fail
    case Done(v, end) => Done(v, Ws(t, end))
  }
}
