/** Decimal numbers and the response writer of http.c. */
module HttpResponse {
  import opened Common
  import opened HttpMessage
  import opened Utf8
  import opened Words

  const UINT32 := 0x1_0000_0000

  // ---- decimal numbers

  function Pow10(k: nat): (p: nat)
    ensures p >= 1
  {
    if k == 0 then 1 else 10 * Pow10(k - 1)
  }

  function Digit(d: nat): byte
    requires d < 10
  {
    0x30 + d
  }

  /** The decimal form of n, without leading zeros. */
  function Decimal(n: nat): (s: Bytes)
    ensures s != []
  {
    if n < 10 then [Digit(n)] else Decimal(n / 10) + [Digit(n % 10)]
  }

  predicate IsDecimal(s: Bytes) {
    forall i :: 0 <= i < |s| ==> 0x30 <= s[i] < 0x3A
  }

  /** strtoull in base 10. */
  function ParseDecimal(s: Bytes): nat
    requires IsDecimal(s)
  {
    if s == [] then 0 else 10 * ParseDecimal(s[..|s| - 1]) + (s[|s| - 1] - 0x30)
  }

  lemma {:induction false} DecimalParses(n: nat)
    ensures IsDecimal(Decimal(n)) && ParseDecimal(Decimal(n)) == n
  {
    if n >= 10 {
      DecimalParses(n / 10);
      assert Decimal(n)[..|Decimal(n)| - 1] == Decimal(n / 10);
    } else {
      assert Decimal(n)[..0] == [];
    }
  }

  lemma {:induction false} DecimalLength(n: nat, k: nat)
    requires k > 0 && n < Pow10(k) && (k > 1 ==> Pow10(k - 1) <= n)
    ensures |Decimal(n)| == k
  {
    if k > 1 {
      assert n / 10 < Pow10(k - 1);
      DecimalLength(n / 10, k - 1);
    }
  }

  /** The entry of the table of powers of ten; the first entry is 0. */
  function PowTable(t: nat): nat
    requires t < 10
  {
    if t == 0 then 0 else Pow10(t)
  }

  /** http_u32_len: the bit length, scaled by 1233 / 4096, is off by at most one, which the table corrects. */
  method U32Len(n: nat) returns (len: nat)
    requires n < UINT32
    ensures len == |Decimal(n)| && len <= 10
  {
    var t := Bits(Or(n, 1)) * 1233 / 4096;
    ScaledBits(n);
    len := if n < PowTable(t) then t else t + 1;
    PowersOfTen();
    DecimalLength(n, len);
  }

  lemma PowersOfTen()
    ensures Pow10(0) == 1 && Pow10(1) == 10 && Pow10(2) == 100 && Pow10(3) == 1000 && Pow10(4) == 10000
    ensures Pow10(5) == 100000 && Pow10(6) == 1000000 && Pow10(7) == 10000000 && Pow10(8) == 100000000
    ensures Pow10(9) == 1000000000 && Pow10(10) == 10000000000
  {
    assert Pow10(2) == 100;
    assert Pow10(4) == 100 * Pow10(2);
    assert Pow10(6) == 100 * Pow10(4);
    assert Pow10(8) == 100 * Pow10(6);
  }

  lemma PowersOfTwo()
    ensures Pow2(3) == 8 && Pow2(6) == 64 && Pow2(9) == 512 && Pow2(13) == 8192 && Pow2(16) == 65536
    ensures Pow2(19) == 524288 && Pow2(23) == 8388608 && Pow2(26) == 67108864 && Pow2(29) == 536870912
      && Pow2(32) == UINT32
  {
    Eightfold(3);
    Eightfold(6);
    Eightfold(10);
    Eightfold(13);
    Eightfold(16);
    Eightfold(20);
    Eightfold(23);
    Eightfold(26);
    Eightfold(29);
  }

  lemma Eightfold(k: nat)
    ensures Pow2(k + 1) == 2 * Pow2(k) && Pow2(k + 3) == 8 * Pow2(k)
  {
    assert Pow2(k + 2) == 4 * Pow2(k);
  }

  /** The scaled bit length is the number of digits, or one less. */
  lemma ScaledBits(n: nat)
    requires n < UINT32
    ensures var t := Bits(Or(n, 1)) * 1233 / 4096;
      t < 10 && n < Pow10(t + 1) && (t > 0 ==> Pow10(t - 1) <= n)
  {
    hide Pow2, Pow10, Or, Bits, Topped;
    var m := Or(n, 1);
    OrCommutes(n, 1);
    OrOne(n);
    var b := Bits(m);
    PowersOfTwo();
    PowersOfTen();
    BitsBound(m, 32);
    if b <= 3 {
      Pow2Mono(b, 3);
    } else if b <= 6 {
      Pow2Mono(b, 6); Pow2Mono(3, b - 1);
    } else if b <= 9 {
      Pow2Mono(b, 9); Pow2Mono(6, b - 1);
    } else if b <= 13 {
      Pow2Mono(b, 13); Pow2Mono(9, b - 1);
    } else if b <= 16 {
      Pow2Mono(b, 16); Pow2Mono(13, b - 1);
    } else if b <= 19 {
      Pow2Mono(b, 19); Pow2Mono(16, b - 1);
    } else if b <= 23 {
      Pow2Mono(b, 23); Pow2Mono(19, b - 1);
    } else if b <= 26 {
      Pow2Mono(b, 26); Pow2Mono(23, b - 1);
    } else if b <= 29 {
      Pow2Mono(b, 29); Pow2Mono(26, b - 1);
    } else {
      Pow2Mono(29, b - 1);
    }
  }

  /** The table of two-digit numbers "00" to "99". */
  function PairTable(i: nat): byte
    requires i < 200
  {
    if i % 2 == 0 then Digit(i / 20) else Digit(i / 2 % 10)
  }

  /** http_u32_sprint: writes the number backwards, two digits a turn, so that it ends in front of end. */
  method U32Sprint(n0: nat, text: array<byte>, end: nat)
    requires n0 < UINT32 && |Decimal(n0)| <= end <= text.Length
    modifies text
    ensures text[end - |Decimal(n0)|..end] == Decimal(n0)
    ensures text[..end - |Decimal(n0)|] == old(text[..end - |Decimal(n0)|]) && text[end..] == old(text[end..])
  {
    hide Decimal, PairTable;
    var n, p := n0, end;
    assert text[end..end] == [];
    while n >= 100
      invariant p <= end && |Decimal(n)| <= p && Decimal(n0) == Decimal(n) + text[p..end]
      invariant text[..p] == old(text[..p]) && text[end..] == old(text[end..])
    {
      TwoDigits(n);
      ghost var done := text[p..end];
      p := PutPair(text, p, n % 100 * 2, end);
      Regroup(Decimal(n / 100), [PairTable(n % 100 * 2), PairTable(n % 100 * 2 + 1)], done);
      n := n / 100;
    }
    if n < 10 {
      OneDigit(n);
      p := p - 1;
      text[p] := n + 0x30;
    } else {
      OneOrTwo(n);
      p := PutPair(text, p, n * 2, end);
    }
    assert text[p..end] == Decimal(n0);
  }

  /** *--string = digits[i + 1]; *--string = digits[i]; */
  method PutPair(text: array<byte>, p0: nat, i: nat, ghost end: nat) returns (p: nat)
    requires 2 <= p0 <= end <= text.Length && i + 1 < 200
    modifies text
    ensures p == p0 - 2
    ensures text[p..end] == [PairTable(i), PairTable(i + 1)] + old(text[p0..end])
    ensures text[..p] == old(text[..p]) && text[end..] == old(text[end..])
  {
    p := p0 - 1;
    text[p] := PairTable(i + 1);
    p := p - 1;
    text[p] := PairTable(i);
  }

  lemma OneDigit(n: nat)
    requires n < 10
    ensures Decimal(n) == [Digit(n)]
  {
  }

  lemma TwoDigits(n: nat)
    requires n >= 100
    ensures Decimal(n) == Decimal(n / 100) + [PairTable(n % 100 * 2), PairTable(n % 100 * 2 + 1)]
  {
    assert n / 10 / 10 == n / 100;
    assert n / 10 % 10 == n % 100 * 2 / 20 && n % 10 == n % 100 % 10;
  }

  lemma OneOrTwo(n: nat)
    requires 10 <= n < 100
    ensures Decimal(n) == [PairTable(n * 2), PairTable(n * 2 + 1)]
  {
  }

  // ---- the response writer


  /** The bytes of an ASCII literal. */
  function Ascii(s: string): (b: Bytes)
    requires forall i :: 0 <= i < |s| ==> s[i] as int < 128
    ensures |b| == |s| && forall i :: 0 <= i < |s| ==> b[i] == s[i] as int
  {
    seq<byte>(|s|, i requires 0 <= i < |s| => s[i] as int)
  }

  function FieldText(f: Field): Bytes {
    f.name + [COLON, SPACE] + f.value + [CR, LF]
  }

  function FieldsText(fs: seq<Field>): Bytes {
    if fs == [] then [] else FieldsText(fs[..|fs| - 1]) + FieldText(fs[|fs| - 1])
  }

  /** The fields every response starts with; the body size goes through a 32-bit parameter. */
  function StandardFields(date: Bytes, mime: Bytes, body: Bytes): seq<Field> {
    [Field(Ascii("Server"), Ascii("*")), Field(Ascii("Date"), date), Field(Ascii("Content-Type"), mime),
     Field(Ascii("Content-Length"), Decimal(|body| % UINT32))]
  }

  function Response(status: Bytes, date: Bytes, mime: Bytes, body: Bytes, fields: seq<Field>): Bytes {
    Ascii("HTTP/1.1 ") + status + [CR, LF] + FieldsText(StandardFields(date, mime, body) + fields) + [CR, LF] + body
  }

  /** The length that a response announces is that of its body exactly for bodies below 4 GiB. */
  lemma ContentLengthHonest(body: Bytes)
    ensures var v := Decimal(|body| % UINT32); IsDecimal(v) && (ParseDecimal(v) == |body| <==> |body| < UINT32)
  {
    DecimalParses(|body| % UINT32);
  }

  // ---- a response as its reader sees it

  /** A field that is clean is read back, and the reading goes on behind it. */
  lemma FieldRead(f: Field, rest: Bytes)
    requires Clean(f)
    ensures Fields(FieldText(f) + rest) == ([f] + Fields(rest).0, Fields(rest).1)
  {
    var l := f.name + [COLON, SPACE] + f.value;
    hide Fields, Line, Behind;
    LineOfField(f);
    assert FieldText(f) + rest == l + [CR, LF] + rest;
    LineIs(l, rest);
    assert FieldOf(l) == f;
    assert (l + [CR, LF] + rest)[..|l|] == l;
    hide OneLine, FieldOf;
    FieldsStep(l + [CR, LF] + rest);
  }

  lemma FieldsStep(s: Bytes)
    requires Line(s) != 0
    ensures Fields(s) == ([FieldOf(s[..Line(s)])] + Fields(Behind(s)).0, Fields(Behind(s)).1)
  {
    hide FieldOf;
  }

  lemma LineOfField(f: Field)
    requires Clean(f)
    ensures var l := f.name + [COLON, SPACE] + f.value; OneLine(l) && FieldOf(l) == f
  {
    var l := f.name + [COLON, SPACE] + f.value;
    assert l == f.name + [0x3A] + ([SPACE] + f.value);
    ColonIs(f.name, [SPACE] + f.value);
    assert l[..|f.name|] == f.name && l[|f.name| + 2..] == f.value;
    forall i | 0 < i < |l| && l[i - 1] == 0x0D ensures l[i] != 0x0A {
      if i > |f.name| + 2 {
        assert l[i] == f.value[i - |f.name| - 2] && l[i - 1] == f.value[i - |f.name| - 3];
      } else if i < |f.name| {
        assert l[i] == f.name[i] && l[i - 1] == f.name[i - 1];
      }
    }
  }

  lemma {:induction false} FieldsRead(fs: seq<Field>, rest: Bytes)
    requires forall k :: 0 <= k < |fs| ==> Clean(fs[k])
    ensures Fields(FieldsText(fs) + rest) == (fs + Fields(rest).0, Fields(rest).1)
  {
    hide Clean, FieldText, Fields;
    if fs == [] {
      assert FieldsText(fs) + rest == rest && fs + Fields(rest).0 == Fields(rest).0;
    } else {
      var n := |fs| - 1;
      Regroup(FieldsText(fs[..n]), FieldText(fs[n]), rest);
      FieldsRead(fs[..n], FieldText(fs[n]) + rest);
      FieldRead(fs[n], rest);
      var later := Fields(rest).0;
      assert fs[..n] + ([fs[n]] + later) == fs + later;
    }
  }

  lemma EmptyLine(body: Bytes)
    ensures Fields([CR, LF] + body) == ([], body)
  {
    LineIs([], body);
    assert [] + [0x0D, 0x0A] + body == [CR, LF] + body;
  }

  lemma StandardNames()
    ensures Name(Ascii("Server")) && Name(Ascii("Date")) && Name(Ascii("Content-Type")) && Name(Ascii("Content-Length"))
    ensures OneLine(Ascii("*"))
  {
  }

  lemma DecimalLine(n: nat)
    ensures OneLine(Decimal(n))
  {
    DecimalParses(n);
    hide Decimal;
  }

  lemma StandardClean(date: Bytes, mime: Bytes, body: Bytes)
    requires OneLine(date) && OneLine(mime)
    ensures forall k :: 0 <= k < 4 ==> Clean(StandardFields(date, mime, body)[k])
  {
    StandardNames();
    DecimalLine(|body| % UINT32);
    hide Decimal, Ascii, Name, OneLine;
  }

  lemma StatusLine(status: Bytes)
    ensures OneLine(Ascii("HTTP/1.1 ") + status) <==> OneLine(status)
  {
    var a := Ascii("HTTP/1.1 ");
    assert |a| == 9 && a[8] == 0x20;
    if OneLine(a + status) {
      PartOfLine(a + status, 9, |a + status|);
      assert (a + status)[9..|a + status|] == status;
    } else {
      var i :| 0 < i < |a + status| && (a + status)[i - 1] == 0x0D && (a + status)[i] == 0x0A;
      assert i >= 9;
      assert status[i - 9] == (a + status)[i] && (i > 9 ==> status[i - 10] == (a + status)[i - 1]);
    }
  }

  predicate AllClean(status: Bytes, date: Bytes, mime: Bytes, fields: seq<Field>) {
    OneLine(status) && OneLine(date) && OneLine(mime) && forall k :: 0 <= k < |fields| ==> Clean(fields[k])
  }

  /** The value of a header line announces the length of a body. */
  predicate Announces(v: Option<Bytes>, body: Bytes) {
    v.Some? && IsDecimal(v.value) && ParseDecimal(v.value) == |body|
  }

  /** The start line and the fields that every response has. */
  predicate Heads(m: Message, status: Bytes, date: Bytes, mime: Bytes, body: Bytes) {
    && m.start == Ascii("HTTP/1.1 ") + status
    && Lookup(m.fields, Ascii("Server")) == Some([0x2A])
    && Lookup(m.fields, Ascii("Date")) == Some(date)
    && Lookup(m.fields, Ascii("Content-Type")) == Some(mime)
    && (Announces(Lookup(m.fields, Ascii("Content-Length")), body) <==> |body| < 0x1_0000_0000)
  }

  /** The fields of the caller follow, and the body stands behind the first empty line. */
  predicate Follows(m: Message, body: Bytes, fields: seq<Field>) {
    |m.fields| >= 4 && m.fields[4..] == fields && m.body == body
  }

  lemma StandardLookups(date: Bytes, mime: Bytes, body: Bytes, more: seq<Field>)
    ensures var fs := StandardFields(date, mime, body) + more;
      && Lookup(fs, Ascii("Server")) == Some([0x2A]) && Lookup(fs, Ascii("Date")) == Some(date)
      && Lookup(fs, Ascii("Content-Type")) == Some(mime)
      && Lookup(fs, Ascii("Content-Length")) == Some(Decimal(|body| % UINT32))
  {
    hide *;
    NamesDiffer();
    StandardParts(date, mime, body);
    var standard := StandardFields(date, mime, body);
    FourLookups(standard[0], standard[1], standard[2], standard[3], standard + more);
  }

  lemma StandardParts(date: Bytes, mime: Bytes, body: Bytes)
    ensures var fs := StandardFields(date, mime, body);
      && |fs| == 4 && fs[0] == Field(Ascii("Server"), [0x2A]) && fs[1] == Field(Ascii("Date"), date)
      && fs[2] == Field(Ascii("Content-Type"), mime)
      && fs[3] == Field(Ascii("Content-Length"), Decimal(|body| % UINT32))
  {
    assert Ascii("*") == [0x2A];
    hide Ascii, Decimal;
  }

  lemma FourLookups(a: Field, b: Field, c: Field, d: Field, fs: seq<Field>)
    requires |fs| >= 4 && fs[0] == a && fs[1] == b && fs[2] == c && fs[3] == d
    requires EqualCase(a.name, a.name) && EqualCase(b.name, b.name) && EqualCase(c.name, c.name)
    requires EqualCase(d.name, d.name)
    requires !EqualCase(a.name, b.name) && !EqualCase(a.name, c.name) && !EqualCase(b.name, c.name)
    requires !EqualCase(a.name, d.name) && !EqualCase(b.name, d.name) && !EqualCase(c.name, d.name)
    ensures Lookup(fs, a.name) == Some(a.value) && Lookup(fs, b.name) == Some(b.value)
    ensures Lookup(fs, c.name) == Some(c.value) && Lookup(fs, d.name) == Some(d.value)
  {
    hide *;
    LookupAt(fs, a.name, 0);
    LookupAt(fs, b.name, 1);
    LookupAt(fs, c.name, 2);
    LookupAt(fs, d.name, 3);
  }

  lemma {:induction false} LookupAt(fs: seq<Field>, name: Bytes, k: nat)
    requires k < |fs| && EqualCase(fs[k].name, name) && forall j :: 0 <= j < k ==> !EqualCase(fs[j].name, name)
    ensures Lookup(fs, name) == Some(fs[k].value)
  {
    hide EqualCase;
    if k > 0 {
      LookupAt(fs[1..], name, k - 1);
    }
  }

  lemma NamesDiffer()
    ensures var a, b, c, d := Ascii("Server"), Ascii("Date"), Ascii("Content-Type"), Ascii("Content-Length");
      && EqualCase(a, a) && EqualCase(b, b) && EqualCase(c, c) && EqualCase(d, d)
      && !EqualCase(a, b) && !EqualCase(a, c) && !EqualCase(b, c)
      && !EqualCase(a, d) && !EqualCase(b, d) && !EqualCase(c, d)
  {
  }

  /** The reading of a response whose own lines are clean, whatever the caller's fields are. */
  lemma ResponseParsed(status: Bytes, date: Bytes, mime: Bytes, body: Bytes, fields: seq<Field>)
    requires OneLine(status) && OneLine(date) && OneLine(mime)
    ensures var m, later := Parse(Response(status, date, mime, body, fields)),
      Fields(FieldsText(fields) + [CR, LF] + body);
      m == Message(Ascii("HTTP/1.1 ") + status, StandardFields(date, mime, body) + later.0, later.1)
  {
    hide *;
    var start, standard := Ascii("HTTP/1.1 ") + status, StandardFields(date, mime, body);
    var rest := FieldsText(fields) + [CR, LF] + body;
    StatusLine(status);
    StandardParts(date, mime, body);
    StandardClean(date, mime, body);
    ResponseSplit(status, date, mime, body, fields);
    LineIs(start, FieldsText(standard) + rest);
    ParseOf(start, FieldsText(standard) + rest);
    FieldsRead(standard, rest);
  }

  lemma ResponseSplit(status: Bytes, date: Bytes, mime: Bytes, body: Bytes, fields: seq<Field>)
    ensures Response(status, date, mime, body, fields)
         == Ascii("HTTP/1.1 ") + status + [0x0D, 0x0A]
            + (FieldsText(StandardFields(date, mime, body)) + (FieldsText(fields) + [CR, LF] + body))
  {
    hide Ascii, FieldsText, StandardFields;
    FieldsAppend(StandardFields(date, mime, body), fields);
  }

  lemma ParseOf(start: Bytes, rest: Bytes)
    requires Line(start + [0x0D, 0x0A] + rest) == |start| && Behind(start + [0x0D, 0x0A] + rest) == rest
    ensures Parse(start + [0x0D, 0x0A] + rest) == Message(start, Fields(rest).0, Fields(rest).1)
  {
    hide Line, Behind, Fields;
    assert (start + [0x0D, 0x0A] + rest)[..|start|] == start;
  }

  /**
   * A response whose status, date and type have no line break is read back with its start line and fields. The
   * caller's fields and the body are read back too exactly if these fields have no line breaks, and no colon in
   * their names.
   */
  lemma ResponseReads(status: Bytes, date: Bytes, mime: Bytes, body: Bytes, fields: seq<Field>)
    ensures var m := Parse(Response(status, date, mime, body, fields));
      && (OneLine(status) && OneLine(date) && OneLine(mime) ==> Heads(m, status, date, mime, body))
      && (Heads(m, status, date, mime, body) && Follows(m, body, fields) <==> AllClean(status, date, mime, fields))
  {
    hide *;
    if OneLine(status) && OneLine(date) && OneLine(mime) {
      ResponseParsed(status, date, mime, body, fields);
      HeadsOf(status, date, mime, body, Fields(FieldsText(fields) + [CR, LF] + body).0,
              Fields(FieldsText(fields) + [CR, LF] + body).1);
      if AllClean(status, date, mime, fields) {
        CleanFollows(status, date, mime, body, fields);
      }
    }
    var m := Parse(Response(status, date, mime, body, fields));
    if Heads(m, status, date, mime, body) && Follows(m, body, fields) {
      ReadIsClean(Response(status, date, mime, body, fields), status, date, mime, body, fields);
    }
    CleanLines(status, date, mime, fields);
  }

  lemma CleanLines(status: Bytes, date: Bytes, mime: Bytes, fields: seq<Field>)
    ensures AllClean(status, date, mime, fields) ==> OneLine(status) && OneLine(date) && OneLine(mime)
  {
  }

  lemma HeadsOf(status: Bytes, date: Bytes, mime: Bytes, body: Bytes, more: seq<Field>, b: Bytes)
    ensures Heads(Message(Ascii("HTTP/1.1 ") + status, StandardFields(date, mime, body) + more, b), status, date, mime,
      body)
  {
    hide Ascii, StandardFields, Decimal, IsDecimal, ParseDecimal, Lookup;
    StandardLookups(date, mime, body, more);
    ContentLengthHonest(body);
  }

  lemma CleanFollows(status: Bytes, date: Bytes, mime: Bytes, body: Bytes, fields: seq<Field>)
    requires AllClean(status, date, mime, fields)
    ensures Follows(Parse(Response(status, date, mime, body, fields)), body, fields)
  {
    assert |StandardFields(date, mime, body)| == 4;
    hide Ascii, StandardFields, Fields, Response, FieldsText, Parse, OneLine, Clean;
    ResponseParsed(status, date, mime, body, fields);
    Regroup(FieldsText(fields), [CR, LF], body);
    FieldsRead(fields, [CR, LF] + body);
    EmptyLine(body);
  }

  lemma ReadIsClean(s: Bytes, status: Bytes, date: Bytes, mime: Bytes, body: Bytes, fields: seq<Field>)
    requires Heads(Parse(s), status, date, mime, body) && Follows(Parse(s), body, fields)
    ensures AllClean(status, date, mime, fields)
  {
    hide Ascii, Fields, Line, Behind, OneLine, Clean, Lookup, Announces;
    var fs := Parse(s).fields;
    FieldsClean(Behind(s));
    LineIsOne(s);
    StatusLine(status);
    LookedUp(fs, Ascii("Date"));
    LookedUp(fs, Ascii("Content-Type"));
    ValueClean(fs, date);
    ValueClean(fs, mime);
    assert forall k :: 0 <= k < |fields| ==> fields[k] == fs[k + 4];
  }

  lemma ValueClean(fs: seq<Field>, v: Bytes)
    requires (forall k :: 0 <= k < |fs| ==> Clean(fs[k])) && exists k :: 0 <= k < |fs| && fs[k].value == v
    ensures OneLine(v)
  {
    hide OneLine, Name;
  }

  /** http_push_data, given what has been written so far. */
  method Push(out: array<byte>, p: nat, data: Bytes) returns (q: nat)
    requires p + |data| <= out.Length
    modifies out
    ensures q == p + |data| && out[..q] == old(out[..p]) + data
  {
    ghost var sofar := out[..p];
    for i := 0 to |data|
      invariant out[..p + i] == sofar + data[..i]
    {
      out[p + i] := data[i];
      assert out[..p + i + 1] == out[..p + i] + [data[i]];
      assert data[..i + 1] == data[..i] + [data[i]];
    }
    q := p + |data|;
    assert data[..|data|] == data;
  }

  method PushField(out: array<byte>, p: nat, f: Field) returns (q: nat)
    requires p + |f.name| + |f.value| + 4 <= out.Length
    modifies out
    ensures q == p + |FieldText(f)| && out[..q] == old(out[..p]) + FieldText(f)
  {
    ghost var sofar := out[..p];
    q := Push(out, p, f.name);
    q := Push(out, q, [COLON]);
    q := Push(out, q, [SPACE]);
    q := Push(out, q, f.value);
    q := Push(out, q, [CR]);
    q := Push(out, q, [LF]);
    assert out[..q] == sofar + FieldText(f);
  }

  /** The size a field adds. */
  function FieldsSize(fs: seq<Field>): nat {
    if fs == [] then 0 else FieldsSize(fs[..|fs| - 1]) + |fs[|fs| - 1].name| + 2 + |fs[|fs| - 1].value| + 2
  }

  lemma {:induction false} FieldsSizeIs(fs: seq<Field>)
    ensures FieldsSize(fs) == |FieldsText(fs)|
  {
    if fs != [] {
      FieldsSizeIs(fs[..|fs| - 1]);
    }
  }

  lemma {:induction false} FieldsAppend(a: seq<Field>, b: seq<Field>)
    ensures FieldsText(a + b) == FieldsText(a) + FieldsText(b)
  {
    if b == [] {
      assert a + b == a;
    } else {
      assert (a + b)[..|a + b| - 1] == a + b[..|b| - 1];
      FieldsAppend(a, b[..|b| - 1]);
      Regroup(FieldsText(a), FieldsText(b[..|b| - 1]), FieldText(b[|b| - 1]));
    }
  }

  lemma {:induction false} FieldsPrefix(fs: seq<Field>, i: nat)
    requires i < |fs|
    ensures FieldsText(fs[..i + 1]) == FieldsText(fs[..i]) + FieldText(fs[i])
    ensures FieldsSize(fs[..i + 1]) == FieldsSize(fs[..i]) + |fs[i].name| + 2 + |fs[i].value| + 2
  {
    assert fs[..i + 1][..i] == fs[..i];
  }

  method PushFields(out: array<byte>, p: nat, fs: seq<Field>) returns (q: nat)
    requires p + FieldsSize(fs) <= out.Length
    modifies out
    ensures q == p + FieldsSize(fs) && out[..q] == old(out[..p]) + FieldsText(fs)
  {
    ghost var sofar := out[..p];
    q := p;
    assert fs[..0] == [] && sofar + FieldsText([]) == sofar;
    hide FieldText, FieldsText;
    for i := 0 to |fs|
      invariant q == p + FieldsSize(fs[..i]) <= out.Length && out[..q] == sofar + FieldsText(fs[..i])
    {
      FieldsPrefix(fs, i);
      FieldsSizeMono(fs, i + 1);
      FieldsSizeIs(fs[..i]);
      FieldsSizeIs(fs[..i + 1]);
      Regroup(sofar, FieldsText(fs[..i]), FieldText(fs[i]));
      q := PushField(out, q, fs[i]);
    }
    assert fs[..|fs|] == fs;
  }

  lemma {:induction false} FieldsSizeMono(fs: seq<Field>, i: nat)
    requires i <= |fs|
    ensures FieldsSize(fs[..i]) <= FieldsSize(fs)
    decreases |fs| - i
  {
    if i < |fs| {
      FieldsPrefix(fs, i);
      FieldsSizeMono(fs, i + 1);
    } else {
      assert fs[..i] == fs;
    }
  }

  /** The decimal text of the body size, through a 16-byte scratch array. */
  method LengthText(n: nat) returns (text: Bytes)
    requires n < UINT32
    ensures text == Decimal(n)
  {
    var storage := new byte[16](_ => 0);
    var len := U32Len(n);
    U32Sprint(n, storage, len);
    text := storage[..len];
    assert storage[0..len] == storage[..len];
  }

  method PushStatus(out: array<byte>, status: Bytes) returns (p: nat)
    requires 9 + |status| + 2 <= out.Length
    modifies out
    ensures p == 9 + |status| + 2 && out[..p] == Ascii("HTTP/1.1 ") + status + [CR, LF]
  {
    assert |Ascii("HTTP/1.1 ")| == 9;
    hide Ascii;
    p := Push(out, 0, Ascii("HTTP/1.1 "));
    assert out[..p] == Ascii("HTTP/1.1 ");
    p := Push(out, p, status);
    p := Push(out, p, [CR, LF]);
  }

  /** http_write_response: the size is computed up front, and the pushes fill exactly the allocated bytes. */
  method WriteResponse(status: Bytes, date: Bytes, mime: Bytes, body: Bytes, fields: seq<Field>)
    returns (out: array<byte>)
    requires |date| == 29
    ensures fresh(out) && out[..] == Response(status, date, mime, body, fields)
    ensures OneLine(status) && OneLine(date) && OneLine(mime) ==> Heads(Parse(out[..]), status, date, mime, body)
    ensures Heads(Parse(out[..]), status, date, mime, body) && Follows(Parse(out[..]), body, fields)
      <==> AllClean(status, date, mime, fields)
  {
    var length := LengthText(|body| % UINT32);
    var size := 9 + |status| + 2 + 11 + 37 + 16 + |mime| + 18 + |length| + 2 + |body|;
    size := size + FieldsSize(fields);
    out := new byte[size](_ => 0);
    var standard := StandardFields(date, mime, body);
    StandardSize(date, mime, body);
    hide FieldText, FieldsText, StandardFields, FieldsSize, Decimal, Ascii, Parse, Heads, Follows, AllClean, OneLine;
    ResponseReads(status, date, mime, body, fields);
    var p := PushStatus(out, status);
    ghost var head := out[..p];
    p := PushFields(out, p, standard);
    p := PushFields(out, p, fields);
    FieldsAppend(standard, fields);
    Regroup(head, FieldsText(standard), FieldsText(fields));
    p := Push(out, p, [CR, LF]);
    p := Push(out, p, body);
    assert p == out.Length && out[..p] == out[..];
  }

  /** The constants 11, 37, 16 and 18 are the sizes of the standard fields around their variable parts. */
  lemma StandardSize(date: Bytes, mime: Bytes, body: Bytes)
    requires |date| == 29
    ensures FieldsSize(StandardFields(date, mime, body)) == 11 + 37 + 16 + |mime| + 18 + |Decimal(|body| % UINT32)|
  {
    var fs := StandardFields(date, mime, body);
    FieldsPrefix(fs, 0);
    FieldsPrefix(fs, 1);
    FieldsPrefix(fs, 2);
    FieldsPrefix(fs, 3);
    assert fs[..4] == fs && fs[..0] == [];
  }
}
