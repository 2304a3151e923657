/** HTTP messages as their reader sees them: a start line, header lines up to the first empty one, and a body. */
module HttpMessage {
  import opened Common
  import opened Utf8

  datatype Field = Field(name: Bytes, value: Bytes)

  datatype Message = Message(start: Bytes, fields: seq<Field>, body: Bytes)

  /** The position of the first line break (0D 0A), or the end. */
  function Line(s: Bytes): (n: nat)
    ensures n <= |s|
  {
    if s == [] || (|s| > 1 && s[0] == 0x0D && s[1] == 0x0A) then 0 else 1 + Line(s[1..])
  }

  /** What lies behind the line break. */
  function Behind(s: Bytes): (r: Bytes)
    ensures s != [] ==> |r| < |s|
  {
    if |s| - Line(s) < 2 then [] else s[Line(s) + 2..]
  }

  /** The position of the first colon, or the end. */
  function Colon(l: Bytes): (n: nat)
    ensures n <= |l|
  {
    if l == [] || l[0] == 0x3A then 0 else 1 + Colon(l[1..])
  }

  /** A header line: a name, a colon and a space, and a value. */
  function FieldOf(l: Bytes): Field {
    var c := Colon(l);
    if c == |l| then Field(l, [])
    else if c + 1 < |l| && l[c + 1] == 0x20 then Field(l[..c], l[c + 2..])
    else Field(l[..c], l[c + 1..])
  }

  /** The header lines and the body behind the first empty line. */
  function Fields(s: Bytes): (seq<Field>, Bytes)
    decreases |s|
  {
    if Line(s) == 0 then ([], Behind(s))
    else
      var (fs, body) := Fields(Behind(s));
      ([FieldOf(s[..Line(s)])] + fs, body)
  }

  function Parse(s: Bytes): Message {
    var (fs, body) := Fields(Behind(s));
    Message(s[..Line(s)], fs, body)
  }

  /** toupper */
  function Upper(c: byte): byte {
    if 0x61 <= c <= 0x7A then c - 0x20 else c
  }

  predicate EqualCase(a: Bytes, b: Bytes) {
    |a| == |b| && forall i :: 0 <= i < |a| ==> Upper(a[i]) == Upper(b[i])
  }

  /** http_field_lookup: the value of the first field of that name, in any case. */
  function Lookup(fs: seq<Field>, name: Bytes): Option<Bytes> {
    if fs == [] then None else if EqualCase(fs[0].name, name) then Some(fs[0].value) else Lookup(fs[1..], name)
  }

  // ---- which pieces of a line survive

  /** No line break inside. */
  predicate OneLine(s: Bytes) {
    forall i :: 0 < i < |s| && s[i - 1] == 0x0D ==> s[i] != 0x0A
  }

  predicate Name(s: Bytes) {
    OneLine(s) && forall i :: 0 <= i < |s| ==> s[i] != 0x3A
  }

  predicate Clean(f: Field) {
    Name(f.name) && OneLine(f.value)
  }

  lemma {:induction false} LineIs(l: Bytes, rest: Bytes)
    requires OneLine(l)
    ensures Line(l + [0x0D, 0x0A] + rest) == |l| && Behind(l + [0x0D, 0x0A] + rest) == rest
  {
    var s := l + [0x0D, 0x0A] + rest;
    if l != [] {
      assert s[1..] == l[1..] + [0x0D, 0x0A] + rest;
      assert OneLine(l[1..]) by {
        assert forall i :: 0 < i < |l[1..]| ==> l[1..][i - 1] == l[i];
      }
      LineIs(l[1..], rest);
      assert l == [0x0D] ==> s[1] == 0x0D;
    }
    assert s[|l| + 2..] == rest;
  }

  lemma {:induction false} LineIsOne(s: Bytes)
    ensures OneLine(s[..Line(s)])
  {
    var l := s[..Line(s)];
    if l != [] {
      LineIsOne(s[1..]);
      assert l[1..] == s[1..][..Line(s[1..])];
      forall i | 0 < i < |l| && l[i - 1] == 0x0D ensures l[i] != 0x0A {
        if i > 1 {
          assert l[1..][i - 2] == l[i - 1] && l[1..][i - 1] == l[i];
        }
      }
    }
  }

  lemma {:induction false} ColonIs(name: Bytes, rest: Bytes)
    requires forall i :: 0 <= i < |name| ==> name[i] != 0x3A
    ensures Colon(name + [0x3A] + rest) == |name|
  {
    if name != [] {
      assert (name + [0x3A] + rest)[1..] == name[1..] + [0x3A] + rest;
      ColonIs(name[1..], rest);
    }
  }

  lemma {:induction false} ColonIsFirst(l: Bytes)
    ensures forall i :: 0 <= i < Colon(l) ==> l[i] != 0x3A
  {
    if l != [] && l[0] != 0x3A {
      ColonIsFirst(l[1..]);
      assert forall i :: 0 < i < Colon(l) ==> l[i] == l[1..][i - 1];
    }
  }

  lemma PartOfLine(s: Bytes, a: nat, b: nat)
    requires OneLine(s) && a <= b <= |s|
    ensures OneLine(s[a..b])
  {
    forall i | 0 < i < b - a && s[a..b][i - 1] == 0x0D ensures s[a..b][i] != 0x0A {
      assert s[a + i - 1] == 0x0D;
    }
  }

  lemma FieldOfClean(l: Bytes)
    requires OneLine(l)
    ensures Clean(FieldOf(l))
  {
    var c := Colon(l);
    ColonIsFirst(l);
    PartOfLine(l, 0, c);
    assert l[..|l|] == l;
    if c < |l| {
      PartOfLine(l, c + 1, |l|);
      if c + 1 < |l| {
        PartOfLine(l, c + 2, |l|);
      }
    }
  }

  /** Whatever the message, what is read as a field has no line break, and no colon in its name. */
  lemma {:induction false} FieldsClean(s: Bytes)
    ensures forall k :: 0 <= k < |Fields(s).0| ==> Clean(Fields(s).0[k])
    decreases |s|
  {
    hide Clean, FieldOf;
    if Line(s) != 0 {
      LineIsOne(s);
      FieldOfClean(s[..Line(s)]);
      FieldsClean(Behind(s));
    }
  }

  lemma {:induction false} LookedUp(fs: seq<Field>, name: Bytes)
    ensures Lookup(fs, name).Some? ==> exists k :: 0 <= k < |fs| && fs[k].value == Lookup(fs, name).value
  {
    if fs != [] && !EqualCase(fs[0].name, name) {
      LookedUp(fs[1..], name);
      if Lookup(fs, name).Some? {
        var k :| 0 <= k < |fs| - 1 && fs[1..][k].value == Lookup(fs, name).value;
        assert fs[k + 1].value == Lookup(fs, name).value;
      }
    }
  }
}
