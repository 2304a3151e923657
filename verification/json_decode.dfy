/** The stack machine of decode.c refines the recursive-descent parser. */
module JsonDecode {
  import opened Common
  import opened Utf8
  import opened JsonString
  import opened JsonValue
  import opened JsonGrammar

  datatype State =
    | ValueStart | ValueEnd
    | NullWord | BoolWord | NumberText | StringText
    | ArrayFirst | ArrayRest | ArrayEmpty | ArrayEnd
    | ObjectFirst | ObjectMap | ObjectRest | ObjectEmpty | ObjectEnd
    | Reduce | Accept | Reject

  // ---- what the rest of the run comes to

  /** What is parsed after a value has been completed in front of p, given the open containers. */
  function Finish(t: Bytes, stack: seq<Value>, v: Value, p: nat, fits: Bytes -> bool): Parse
    decreases Remaining(t, p), |stack|
  {
    if stack == [] then Done(v, Ws(t, p))
    else
      var top, rest := stack[|stack| - 1], stack[..|stack| - 1];
      match top
      case Array(xs) => Close(t, rest, p, RestOfArray(t, p, xs + [v], fits), fits)
      case Object(m) => if v.String? then Close(t, rest, p, RestOfMember(t, p, m, v.s, fits), fits) else Fail
      case String(k) =>
        if rest != [] && rest[|rest| - 1].Object? then
          Close(t, rest[..|rest| - 1], p, RestOfObject(t, p, rest[|rest| - 1].members[k := v], fits), fits)
        else Fail
      case _ => Fail
  }

  /** Carries on with the container that r completes. */
  function Close(t: Bytes, stack: seq<Value>, p: nat, r: Parse, fits: Bytes -> bool): Parse
    requires r.Done? ==> p < r.end <= |t|
    decreases Remaining(t, p), |stack|, 0
  {
    match r
    case Fail => Fail
    case Done(v, end) => Finish(t, stack, v, end, fits)
  }

  /** What is parsed from a position where a value, or the end of a still empty container, is expected. */
  function Start(t: Bytes, stack: seq<Value>, p: nat, fits: Bytes -> bool): Parse {
    if Read(t, p) == RBRACKET || Read(t, p) == RBRACE then
      var empty := if Read(t, p) == RBRACKET then Array([]) else Object(map[]);
      if stack != [] && stack[|stack| - 1] == empty then Finish(t, stack[..|stack| - 1], empty, p + 1, fits) else Fail
    else Close(t, stack, p, ParseValue(t, p, fits), fits)
  }

  function Top(stack: seq<Value>): Value
    requires stack != []
  {
    stack[|stack| - 1]
  }

  function Pop(stack: seq<Value>): seq<Value>
    requires stack != []
  {
    stack[..|stack| - 1]
  }

  /** Containers on the stack, and key strings that sit directly on an object. */
  predicate StackOk(stack: seq<Value>) {
    stack == [] ||
    (&& StackOk(Pop(stack))
     && (Top(stack).Array? || Top(stack).Object?
         || (Top(stack).String? && Pop(stack) != [] && Top(Pop(stack)).Object?)))
  }

  /** What each state knows about stack and text. */
  predicate StateOk(t: Bytes, state: State, stack: seq<Value>, value: Value, p: nat) {
    match state
    case ValueStart => true
    case ValueEnd => true
    case NullWord => Read(t, p) == 0x6E
    case BoolWord => Read(t, p) == 0x74 || Read(t, p) == 0x66
    case NumberText => IsDigit(Read(t, p)) || Read(t, p) == MINUS
    case StringText => Read(t, p) == QUOTE
    case ArrayFirst => Read(t, p) == LBRACKET
    case ArrayRest => stack != [] && Top(stack).Array? && Top(stack).elements != []
    case ArrayEmpty => Read(t, p) == RBRACKET
    case ArrayEnd => stack != [] && Top(stack).Array? && Read(t, p) == RBRACKET
    case ObjectFirst => Read(t, p) == LBRACE
    case ObjectMap => |stack| >= 2 && Top(stack).String? && Top(Pop(stack)).Object?
    case ObjectRest => stack != [] && Top(stack).Object? && Top(stack).members != map[]
    case ObjectEmpty => Read(t, p) == RBRACE
    case ObjectEnd => stack != [] && Top(stack).Object? && Read(t, p) == RBRACE
    case Reduce => stack != [] && !value.Undefined?
    case Accept => stack == [] && !value.Undefined?
    case Reject => true
  }

  /** What the machine will return, state by state. */
  function Outcome(t: Bytes, state: State, stack: seq<Value>, value: Value, p: nat, fits: Bytes -> bool): Parse
    requires StackOk(stack) && StateOk(t, state, stack, value, p)
  {
    match state
    case ValueEnd => if value.Undefined? then Fail else Finish(t, stack, value, p, fits)
    case ArrayRest => Close(t, Pop(stack), p, RestOfArray(t, p, Top(stack).elements, fits), fits)
    case ArrayEnd => Finish(t, Pop(stack), Top(stack), p + 1, fits)
    case ObjectMap =>
      Close(t, Pop(Pop(stack)), p, RestOfMember(t, p, Top(Pop(stack)).members, Top(stack).s, fits), fits)
    case ObjectRest => Close(t, Pop(stack), p, RestOfObject(t, p, Top(stack).members, fits), fits)
    case ObjectEnd => Finish(t, Pop(stack), Top(stack), p + 1, fits)
    case Reduce => Finish(t, stack, value, p, fits)
    case Accept => Done(value, Ws(t, p))
    case Reject => Fail
    case _ => Start(t, stack, Ws(t, p), fits)
  }

  /** Orders the states between two bytes of input. */
  function Rank(state: State, value: Value): nat {
    match state
    case Accept => 0
    case Reject => 0
    case ArrayEmpty => 3
    case ObjectEmpty => 3
    case ObjectMap => 4
    case ArrayRest => 4
    case ObjectRest => 4
    case Reduce => 5
    case ValueEnd => if value.Undefined? then 1 else 6
    case ValueStart => 7
    case _ => 2
  }

  lemma WsTwice(t: Bytes, p: nat)
    ensures Ws(t, Ws(t, p)) == Ws(t, p)
    ensures Remaining(t, Ws(t, p)) <= Remaining(t, p)
  {
  }

  /** Skipping white space in front of a step changes nothing. */
  lemma SkipWs(t: Bytes, state: State, stack: seq<Value>, value: Value, p: nat, fits: Bytes -> bool)
    requires StackOk(stack) && StateOk(t, state, stack, value, p)
    ensures StateOk(t, state, stack, value, Ws(t, p))
    ensures Outcome(t, state, stack, value, Ws(t, p), fits) == Outcome(t, state, stack, value, p, fits)
    ensures Remaining(t, Ws(t, p)) <= Remaining(t, p)
  {
    WsTwice(t, p);
    hide ParseValue, ParseElements, ParseMembers;
    match state {
      case ValueEnd => SkipFinish(t, stack, value, p, fits);
      case Reduce => SkipFinish(t, stack, value, p, fits);
      case ArrayRest => SkipClose(t, Pop(stack), p, RestOfArray(t, p, Top(stack).elements, fits), fits);
      case ObjectMap =>
        SkipClose(t, Pop(Pop(stack)), p, RestOfMember(t, p, Top(Pop(stack)).members, Top(stack).s, fits), fits);
      case ObjectRest => SkipClose(t, Pop(stack), p, RestOfObject(t, p, Top(stack).members, fits), fits);
      case _ =>
    }
  }

  lemma SkipClose(t: Bytes, stack: seq<Value>, p: nat, r: Parse, fits: Bytes -> bool)
    requires r.Done? ==> Ws(t, p) < r.end <= |t|
    ensures Close(t, stack, Ws(t, p), r, fits) == Close(t, stack, p, r, fits)
  {
  }

  lemma SkipFinish(t: Bytes, stack: seq<Value>, v: Value, p: nat, fits: Bytes -> bool)
    ensures Finish(t, stack, v, Ws(t, p), fits) == Finish(t, stack, v, p, fits)
  {
    WsTwice(t, p);
    if stack != [] {
      var q, rest := Ws(t, p), Pop(stack);
      match Top(stack) {
        case Array(xs) => SkipClose(t, rest, p, RestOfArray(t, q, xs + [v], fits), fits);
        case Object(m) =>
          if v.String? {
            SkipClose(t, rest, p, RestOfMember(t, q, m, v.s, fits), fits);
          }
        case String(k) =>
          if rest != [] && Top(rest).Object? {
            SkipClose(t, Pop(rest), p, RestOfObject(t, q, Top(rest).members[k := v], fits), fits);
          }
        case _ =>
      }
    }
  }

  // ---- the steps that open and close containers

  /** Where an element or member is due, a closing bracket or brace is no value. */
  lemma NoValue(t: Bytes, p: nat, fits: Bytes -> bool)
    requires Read(t, p) == RBRACKET || Read(t, p) == RBRACE
    ensures ParseValue(t, p, fits) == Fail
  {
  }

  lemma OpenArray(t: Bytes, stack: seq<Value>, p: nat, fits: Bytes -> bool)
    requires Read(t, p) == LBRACKET
    ensures Start(t, stack + [Array([])], Ws(t, p + 1), fits) == Start(t, stack, p, fits)
  {
    var inner, q := stack + [Array([])], Ws(t, p + 1);
    assert Pop(inner) == stack && Top(inner) == Array([]);
    if Read(t, q) == RBRACE {
      NoValue(t, q, fits);
      assert ParseElements(t, q, [], fits) == Fail;
    } else if Read(t, q) != RBRACKET {
      ElementDue(t, inner, q, fits);
    }
  }

  /** An element is parsed into the array on top. */
  lemma ElementDue(t: Bytes, stack: seq<Value>, q: nat, fits: Bytes -> bool)
    requires stack != [] && Top(stack).Array?
    ensures Close(t, stack, q, ParseValue(t, q, fits), fits)
         == Close(t, Pop(stack), q, ParseElements(t, q, Top(stack).elements, fits), fits)
  {
    var xs := Top(stack).elements;
    match ParseValue(t, q, fits) {
      case Fail =>
      case Done(v, end) =>
        assert ParseElements(t, q, xs, fits) == RestOfArray(t, end, xs + [v], fits);
        assert Finish(t, stack, v, end, fits) == Close(t, Pop(stack), end, RestOfArray(t, end, xs + [v], fits), fits);
    }
  }

  /** A member is parsed into the object on top, key first. */
  lemma MemberDue(t: Bytes, stack: seq<Value>, q: nat, fits: Bytes -> bool)
    requires stack != [] && Top(stack).Object?
    ensures Close(t, stack, q, ParseValue(t, q, fits), fits)
         == Close(t, Pop(stack), q, ParseMembers(t, q, Top(stack).members, fits), fits)
  {
    var m := Top(stack).members;
    match ParseValue(t, q, fits) {
      case Fail =>
      case Done(v, end) =>
        if v.String? {
          assert ParseMembers(t, q, m, fits) == RestOfMember(t, end, m, v.s, fits);
          assert Finish(t, stack, v, end, fits) == Close(t, Pop(stack), end, RestOfMember(t, end, m, v.s, fits), fits);
        }
    }
  }

  lemma OpenObject(t: Bytes, stack: seq<Value>, p: nat, fits: Bytes -> bool)
    requires Read(t, p) == LBRACE
    ensures Start(t, stack + [Object(map[])], Ws(t, p + 1), fits) == Start(t, stack, p, fits)
  {
    var inner, q := stack + [Object(map[])], Ws(t, p + 1);
    assert Pop(inner) == stack && Top(inner) == Object(map[]);
    if Read(t, q) == RBRACKET {
      assert ParseMembers(t, q, map[], fits) == Fail;
    } else if Read(t, q) != RBRACE {
      MemberDue(t, inner, q, fits);
    }
  }

  lemma NextElement(t: Bytes, stack: seq<Value>, p: nat, fits: Bytes -> bool)
    requires stack != [] && Top(stack).Array? && Top(stack).elements != [] && Read(t, p) == COMMA
    ensures Start(t, stack, Ws(t, p + 1), fits)
         == Close(t, Pop(stack), p, RestOfArray(t, p, Top(stack).elements, fits), fits)
  {
    var q := Ws(t, p + 1);
    ElementDue(t, stack, q, fits);
    if Read(t, q) == RBRACKET || Read(t, q) == RBRACE {
      NoValue(t, q, fits);
    }
  }

  lemma NextMember(t: Bytes, stack: seq<Value>, p: nat, fits: Bytes -> bool)
    requires stack != [] && Top(stack).Object? && Top(stack).members != map[] && Read(t, p) == COMMA
    ensures Start(t, stack, Ws(t, p + 1), fits)
         == Close(t, Pop(stack), p, RestOfObject(t, p, Top(stack).members, fits), fits)
  {
    var q := Ws(t, p + 1);
    MemberDue(t, stack, q, fits);
    if Read(t, q) == RBRACKET || Read(t, q) == RBRACE {
      NoValue(t, q, fits);
    }
  }

  lemma MemberValue(t: Bytes, stack: seq<Value>, p: nat, fits: Bytes -> bool)
    requires |stack| >= 2 && Top(stack).String? && Top(Pop(stack)).Object? && Read(t, p) == COLON
    ensures Start(t, stack, Ws(t, p + 1), fits)
         == Close(t, Pop(Pop(stack)), p, RestOfMember(t, p, Top(Pop(stack)).members, Top(stack).s, fits), fits)
  {
    var q, m, k := Ws(t, p + 1), Top(Pop(stack)).members, Top(stack).s;
    if Read(t, q) == RBRACKET || Read(t, q) == RBRACE {
      NoValue(t, q, fits);
    } else {
      match ParseValue(t, q, fits) {
        case Fail =>
        case Done(v, end) =>
          assert RestOfMember(t, p, m, k, fits) == RestOfObject(t, end, m[k := v], fits);
          assert Finish(t, stack, v, end, fits)
              == Close(t, Pop(Pop(stack)), end, RestOfObject(t, end, m[k := v], fits), fits);
      }
    }
  }

  // ---- every step keeps the outcome

  ghost predicate Inv(t: Bytes, state: State, stack: seq<Value>, value: Value, p: nat, fits: Bytes -> bool,
                      result: Parse) {
    && StackOk(stack) && StateOk(t, state, stack, value, p)
    && Outcome(t, state, stack, value, p, fits) == result
  }

  lemma AtStart(t: Bytes, from: nat, fits: Bytes -> bool)
    ensures Inv(t, ValueStart, [], Undefined, from, fits, ParseText(t, from, fits))
  {
    var q := Ws(t, from);
    WsTwice(t, from);
    if Read(t, q) == RBRACKET || Read(t, q) == RBRACE {
      NoValue(t, q, fits);
    } else {
      match ParseValue(t, q, fits) {
        case Fail =>
        case Done(v, end) => assert Finish(t, [], v, end, fits) == Done(v, Ws(t, end));
      }
    }
  }

  lemma StackPush(stack: seq<Value>, v: Value)
    requires StackOk(stack) && (v.Array? || v.Object? || (v.String? && stack != [] && Top(stack).Object?))
    ensures StackOk(stack + [v]) && Top(stack + [v]) == v && Pop(stack + [v]) == stack
  {
    assert Pop(stack + [v]) == stack;
  }

  lemma StackPop(stack: seq<Value>)
    requires StackOk(stack) && stack != []
    ensures StackOk(Pop(stack))
  {
  }

  lemma AfterWs(t: Bytes, state: State, stack: seq<Value>, value: Value, p: nat, fits: Bytes -> bool, r: Parse)
    requires Inv(t, state, stack, value, p, fits, r)
    ensures Inv(t, state, stack, value, Ws(t, p), fits, r) && Remaining(t, Ws(t, p)) <= Remaining(t, p)
    ensures Ws(t, Ws(t, p)) == Ws(t, p)
  {
    SkipWs(t, state, stack, value, p, fits);
    WsTwice(t, p);
  }

  lemma AtEnd(t: Bytes, state: State, stack: seq<Value>, value: Value, p: nat, fits: Bytes -> bool, r: Parse)
    requires Inv(t, state, stack, value, p, fits, r) && Ws(t, p) == p
    ensures state.Accept? ==> r == Done(value, p)
    ensures state.Reject? ==> r == Fail
  {
  }

  /** The state for the character that a value starts with. */
  function Dispatch(c: byte): State {
    if c == 0x6E then NullWord
    else if c == 0x74 || c == 0x66 then BoolWord
    else if IsDigit(c) || c == MINUS then NumberText
    else if c == QUOTE then StringText
    else if c == LBRACKET then ArrayFirst
    else if c == RBRACKET then ArrayEmpty
    else if c == LBRACE then ObjectFirst
    else if c == RBRACE then ObjectEmpty
    else Reject
  }

  lemma AfterDispatch(t: Bytes, stack: seq<Value>, value: Value, p: nat, fits: Bytes -> bool, r: Parse)
    requires Inv(t, ValueStart, stack, value, p, fits, r) && Ws(t, p) == p
    ensures var next := Dispatch(Read(t, p));
      Inv(t, next, stack, value, p, fits, r) && Rank(next, value) < Rank(ValueStart, value)
  {
    hide Start;
    if Dispatch(Read(t, p)).Reject? {
      NoTokenHere(t, stack, p, fits);
    }
  }

  lemma NoTokenHere(t: Bytes, stack: seq<Value>, p: nat, fits: Bytes -> bool)
    requires StackOk(stack) && Dispatch(Read(t, p)).Reject?
    ensures Start(t, stack, p, fits) == Fail
  {
    NoToken(t, p, fits);
    hide Finish, Close, ParseValue;
  }

  lemma NoToken(t: Bytes, p: nat, fits: Bytes -> bool)
    requires Dispatch(Read(t, p)).Reject?
    ensures ParseValue(t, p, fits) == Fail
  {
  }

  lemma AfterValueEnd(t: Bytes, stack: seq<Value>, value: Value, p: nat, fits: Bytes -> bool, r: Parse)
    requires Inv(t, ValueEnd, stack, value, p, fits, r)
    ensures var next := if value.Undefined? then Reject else if stack == [] then Accept else Reduce;
      Inv(t, next, stack, value, p, fits, r) && Rank(next, value) < Rank(ValueEnd, value)
  {
    hide RestOfArray, RestOfMember, RestOfObject;
  }

  /** The scalar that the state announces. */
  lemma ScalarHere(t: Bytes, state: State, stack: seq<Value>, value: Value, p: nat, fits: Bytes -> bool, r: Parse)
    requires Inv(t, state, stack, value, p, fits, r)
    ensures state.NumberText? ==> ParseScalar(t, p, fits) == ParseNumber(t, p, fits)
    ensures state.StringText? ==> ParseScalar(t, p, fits) == ParseString(t, p)
  {
  }

  /** A scalar has been read, or has turned out malformed. */
  lemma AfterScalar(t: Bytes, state: State, stack: seq<Value>, value: Value, p: nat, fits: Bytes -> bool, r: Parse,
                    value': Value, p': nat)
    requires Inv(t, state, stack, value, p, fits, r) && Ws(t, p) == p
    requires state in {NullWord, BoolWord, NumberText, StringText}
    requires ParseScalar(t, p, fits) == if value'.Undefined? then Fail else Done(value', p')
    requires value'.Undefined? ==> p' >= p
    ensures Inv(t, ValueEnd, stack, value', p', fits, r)
    ensures Remaining(t, p') < Remaining(t, p) || (p' == p && Rank(ValueEnd, value') < Rank(state, value))
  {
    hide RestOfArray, RestOfMember, RestOfObject, ParseElements, ParseMembers, ParseScalar;
    assert ParseValue(t, p, fits) == ParseScalar(t, p, fits);
  }

  lemma AfterArrayFirst(t: Bytes, stack: seq<Value>, value: Value, p: nat, fits: Bytes -> bool, r: Parse)
    requires Inv(t, ArrayFirst, stack, value, p, fits, r) && Ws(t, p) == p
    ensures Inv(t, ValueStart, stack + [Array([])], value, p + 1, fits, r) && Remaining(t, p + 1) < Remaining(t, p)
  {
    OpenArray(t, stack, p, fits);
    StackPush(stack, Array([]));
    WsTwice(t, p + 1);
    hide Start;
  }

  lemma AfterObjectFirst(t: Bytes, stack: seq<Value>, value: Value, p: nat, fits: Bytes -> bool, r: Parse)
    requires Inv(t, ObjectFirst, stack, value, p, fits, r) && Ws(t, p) == p
    ensures Inv(t, ValueStart, stack + [Object(map[])], value, p + 1, fits, r) && Remaining(t, p + 1) < Remaining(t, p)
  {
    OpenObject(t, stack, p, fits);
    StackPush(stack, Object(map[]));
    WsTwice(t, p + 1);
    hide Start;
  }

  lemma AfterEmpty(t: Bytes, state: State, stack: seq<Value>, value: Value, p: nat, fits: Bytes -> bool, r: Parse)
    requires Inv(t, state, stack, value, p, fits, r) && Ws(t, p) == p && state in {ArrayEmpty, ObjectEmpty}
    ensures var empty := if state.ArrayEmpty? then Array([]) else Object(map[]);
      var next := if stack == [] || Top(stack) != empty then Reject else if state.ArrayEmpty? then ArrayEnd
        else ObjectEnd;
      Inv(t, next, stack, value, p, fits, r) && Rank(next, value) < Rank(state, value)
  {
    hide Finish, Close;
  }

  /** The parent on top is the array, or the object, that the closing character closes. */
  lemma AfterContainerEnd(t: Bytes, state: State, stack: seq<Value>, value: Value, p: nat, fits: Bytes -> bool,
                          r: Parse)
    requires Inv(t, state, stack, value, p, fits, r) && state in {ArrayEnd, ObjectEnd}
    ensures stack != [] && (if state.ArrayEnd? then Top(stack).Array? else Top(stack).Object?)
    ensures Inv(t, ValueEnd, Pop(stack), Top(stack), p + 1, fits, r) && Remaining(t, p + 1) < Remaining(t, p)
  {
    hide Finish;
  }

  lemma AfterArrayRest(t: Bytes, stack: seq<Value>, value: Value, p: nat, fits: Bytes -> bool, r: Parse)
    requires Inv(t, ArrayRest, stack, value, p, fits, r) && Ws(t, p) == p
    ensures Read(t, p) == COMMA ==>
      Inv(t, ValueStart, stack, value, p + 1, fits, r) && Remaining(t, p + 1) < Remaining(t, p)
    ensures Read(t, p) != COMMA ==>
      var next := if Read(t, p) == RBRACKET then ArrayEnd else Reject;
      Inv(t, next, stack, value, p, fits, r) && Rank(next, value) < Rank(ArrayRest, value)
  {
    if Read(t, p) == COMMA {
      NextElement(t, stack, p, fits);
    }
    hide Start, Finish;
  }

  lemma AfterObjectRest(t: Bytes, stack: seq<Value>, value: Value, p: nat, fits: Bytes -> bool, r: Parse)
    requires Inv(t, ObjectRest, stack, value, p, fits, r) && Ws(t, p) == p
    ensures Read(t, p) == COMMA ==>
      Inv(t, ValueStart, stack, value, p + 1, fits, r) && Remaining(t, p + 1) < Remaining(t, p)
    ensures Read(t, p) != COMMA ==>
      var next := if Read(t, p) == RBRACE then ObjectEnd else Reject;
      Inv(t, next, stack, value, p, fits, r) && Rank(next, value) < Rank(ObjectRest, value)
  {
    if Read(t, p) == COMMA {
      NextMember(t, stack, p, fits);
    }
    hide Start, Finish;
  }

  lemma AfterObjectMap(t: Bytes, stack: seq<Value>, value: Value, p: nat, fits: Bytes -> bool, r: Parse)
    requires Inv(t, ObjectMap, stack, value, p, fits, r) && Ws(t, p) == p
    ensures Read(t, p) == COLON ==>
      Inv(t, ValueStart, stack, value, p + 1, fits, r) && Remaining(t, p + 1) < Remaining(t, p)
    ensures Read(t, p) != COLON ==>
      Inv(t, Reject, stack, value, p, fits, r) && Rank(Reject, value) < Rank(ObjectMap, value)
  {
    if Read(t, p) == COLON {
      MemberValue(t, stack, p, fits);
    }
    hide Start, Finish;
  }

  /** The completed value goes into the array on top. */
  lemma AfterElement(t: Bytes, stack: seq<Value>, value: Value, p: nat, fits: Bytes -> bool, r: Parse)
    requires Inv(t, Reduce, stack, value, p, fits, r) && Top(stack).Array?
    ensures Inv(t, ArrayRest, Pop(stack) + [Array(Top(stack).elements + [value])], Undefined, p, fits, r)
    ensures Rank(ArrayRest, Undefined) < Rank(Reduce, value)
  {
    hide RestOfArray, RestOfMember, RestOfObject;
    StackPush(Pop(stack), Array(Top(stack).elements + [value]));
  }

  /** A string completed on top of an object becomes a key; nothing else can be one. */
  lemma AfterKey(t: Bytes, stack: seq<Value>, value: Value, p: nat, fits: Bytes -> bool, r: Parse)
    requires Inv(t, Reduce, stack, value, p, fits, r) && Top(stack).Object?
    ensures value.String? ==> Inv(t, ObjectMap, stack + [value], Undefined, p, fits, r)
    ensures !value.String? ==> Inv(t, Reject, stack, value, p, fits, r)
    ensures Rank(ObjectMap, Undefined) < Rank(Reduce, value) && Rank(Reject, value) < Rank(Reduce, value)
  {
    hide RestOfArray, RestOfMember, RestOfObject;
    if value.String? {
      StackPush(stack, value);
    }
  }

  /** The completed value goes under the key on top into the object below it. */
  lemma AfterMember(t: Bytes, stack: seq<Value>, value: Value, p: nat, fits: Bytes -> bool, r: Parse)
    requires Inv(t, Reduce, stack, value, p, fits, r) && Top(stack).String?
    ensures Pop(stack) != [] && Top(Pop(stack)).Object?
    ensures Inv(t, ObjectRest, Pop(Pop(stack)) + [Object(Top(Pop(stack)).members[Top(stack).s := value])], Undefined,
      p, fits, r)
    ensures Rank(ObjectRest, Undefined) < Rank(Reduce, value)
  {
    hide RestOfArray, RestOfMember, RestOfObject;
    var rest := Pop(stack);
    var m := Top(rest).members[Top(stack).s := value];
    StackPop(stack);
    StackPop(rest);
    StackPush(Pop(rest), Object(m));
    assert m != map[] by { assert Top(stack).s in m; }
    assert r == Close(t, Pop(rest), p, RestOfObject(t, p, m, fits), fits);
  }

  lemma ReduceParent(t: Bytes, stack: seq<Value>, value: Value, p: nat, fits: Bytes -> bool, r: Parse)
    requires Inv(t, Reduce, stack, value, p, fits, r)
    ensures stack != [] && (Top(stack).Array? || Top(stack).Object? || Top(stack).String?)
  {
  }

  // ---- the loops of decode.c

  method DecodeWhitespace(t: Bytes, from: nat) returns (p: nat)
    ensures p == Ws(t, from)
  {
    p := from;
    while IsSpace(Read(t, p))
      invariant Ws(t, p) == Ws(t, from)
      decreases Remaining(t, p)
    {
      p := p + 1;
    }
  }

  method SkipDigits(t: Bytes, from: nat) returns (r: Option<nat>)
    ensures r == if IsDigit(Read(t, from)) then Some(DigitsEnd(t, from)) else None
  {
    if !IsDigit(Read(t, from)) {
      return None;
    }
    var p: nat := from + 1;
    while IsDigit(Read(t, p))
      invariant DigitsEnd(t, p) == DigitsEnd(t, from)
      decreases Remaining(t, p)
    {
      p := p + 1;
    }
    return Some(p);
  }

  method SkipInt(t: Bytes, p: nat) returns (r: Option<nat>)
    ensures r == IntEnd(t, p)
  {
    if Read(t, p) == ZERO && IsDigit(Read(t, p + 1)) {
      return None;
    }
    r := SkipDigits(t, p);
  }

  method SkipFrac(t: Bytes, p: nat) returns (r: Option<nat>)
    ensures r == FracEnd(t, p)
  {
    r := Some(p);
    if Read(t, p) == DOT {
      r := SkipDigits(t, p + 1);
    }
  }

  method SkipExp(t: Bytes, from: nat) returns (r: Option<nat>)
    ensures r == ExpEnd(t, from)
  {
    var p := from;
    if Read(t, p) == 0x65 || Read(t, p) == 0x45 {
      p := p + 1;
      if Read(t, p) == MINUS || Read(t, p) == PLUS {
        p := p + 1;
      }
      r := SkipInt(t, p);
    } else {
      r := Some(p);
    }
  }

  /**
   * value_decode_number: sign, integer part, fraction and exponent in turn, then the conversion. A conversion that
   * is refused has moved the position already, to where strtold stopped.
   */
  method DecodeNumber(t: Bytes, from: nat, fits: Bytes -> bool) returns (value: Value, end: nat)
    ensures (if value.Undefined? then Fail else Done(value, end)) == ParseNumber(t, from, fits)
    ensures value.Undefined? ==>
              end == (match NumberEnd(t, from)
                      case None => from
                      case Some(e) => if HexFollows(t, from, e) then HexEnd(t, e) else e)
    ensures from <= end
  {
    hide IntEnd, FracEnd, ExpEnd, HexFollows;
    value, end := Undefined, from;
    var r := SkipInt(t, if Read(t, from) == MINUS then from + 1 else from);
    if r.None? {
      return;
    }
    r := SkipFrac(t, r.value);
    if r.None? {
      return;
    }
    r := SkipExp(t, r.value);
    if r.None? {
      return;
    }
    assert NumberEnd(t, from) == r;
    end := if HexFollows(t, from, r.value) then HexEnd(t, r.value) else r.value;
    if end == r.value && fits(t[from..r.value]) {
      value := Number(t[from..r.value]);
    }
  }

  /** value_decode_string; the text before the opening quote has been read. */
  method DecodeString(t: Bytes, from: nat) returns (value: Value, end: nat)
    ensures (if value.Undefined? then Fail else Done(value, end)) == ParseString(t, from)
    ensures value.Undefined? ==> end == from
  {
    value, end := Undefined, from;
    var s, p := Decode(t, from + 1);
    if Read(t, p) == QUOTE {
      value, end := String(s), p + 1;
    }
  }

  /** value_decode_null */
  method DecodeNull(t: Bytes, from: nat, ghost stack: seq<Value>, ghost value: Value, fits: Bytes -> bool,
                    ghost result: Parse) returns (value': Value, p: nat)
    requires Inv(t, NullWord, stack, value, from, fits, result) && Ws(t, from) == from
    ensures ParseScalar(t, from, fits) == if value'.Undefined? then Fail else Done(value', p)
    ensures Inv(t, ValueEnd, stack, value', p, fits, result)
    ensures Remaining(t, p) < Remaining(t, from) || (p == from && Rank(ValueEnd, value') < Rank(NullWord, value))
  {
    value', p := Undefined, from;
    if WordAt(t, from, NULL_TEXT) {
      value', p := Null, from + 4;
    }
    AfterScalar(t, NullWord, stack, value, from, fits, result, value', p);
  }

  /** value_decode_bool */
  method DecodeBool(t: Bytes, from: nat, ghost stack: seq<Value>, ghost value: Value, fits: Bytes -> bool,
                    ghost result: Parse) returns (value': Value, p: nat)
    requires Inv(t, BoolWord, stack, value, from, fits, result) && Ws(t, from) == from
    ensures ParseScalar(t, from, fits) == if value'.Undefined? then Fail else Done(value', p)
    ensures Inv(t, ValueEnd, stack, value', p, fits, result)
    ensures Remaining(t, p) < Remaining(t, from) || (p == from && Rank(ValueEnd, value') < Rank(BoolWord, value))
  {
    value', p := Undefined, from;
    if WordAt(t, from, TRUE_TEXT) {
      value', p := Bool(true), from + 4;
    } else if WordAt(t, from, FALSE_TEXT) {
      value', p := Bool(false), from + 5;
    }
    AfterScalar(t, BoolWord, stack, value, from, fits, result, value', p);
  }

  /** value_decode: on success the value and the position after it and its trailing white space. */
  method ValueDecode(t: Bytes, from: nat, fits: Bytes -> bool) returns (value: Value, end: Option<nat>)
    ensures ParseText(t, from, fits) == if end.Some? then Done(value, end.value) else Fail
    ensures end.None? ==> value == Undefined
  {
    var p := from;
    var stack: seq<Value> := [];
    value := Undefined;
    var state := ValueStart;
    AtStart(t, from, fits);
    ghost var result := ParseText(t, from, fits);
    hide *;
    while true
      invariant Inv(t, state, stack, value, p, fits, result)
      decreases Remaining(t, p), Rank(state, value)
    {
      AfterWs(t, state, stack, value, p, fits, result);
      p := DecodeWhitespace(t, p);
      var c := Read(t, p);
      match state {
        case ValueStart =>
          AfterDispatch(t, stack, value, p, fits, result);
          state := Dispatch(c);
        case ValueEnd =>
          AfterValueEnd(t, stack, value, p, fits, result);
          state := if value.Undefined? then Reject else if stack == [] then Accept else Reduce;
        case NullWord =>
          value, p := DecodeNull(t, p, stack, value, fits, result);
          state := ValueEnd;
        case BoolWord =>
          value, p := DecodeBool(t, p, stack, value, fits, result);
          state := ValueEnd;
        case NumberText =>
          ghost var before, start := value, p;
          ScalarHere(t, state, stack, value, p, fits, result);
          value, p := DecodeNumber(t, p, fits);
          AfterScalar(t, NumberText, stack, before, start, fits, result, value, p);
          state := ValueEnd;
        case StringText =>
          ghost var before, start := value, p;
          ScalarHere(t, state, stack, value, p, fits, result);
          value, p := DecodeString(t, p);
          AfterScalar(t, StringText, stack, before, start, fits, result, value, p);
          state := ValueEnd;
        case ArrayFirst =>
          AfterArrayFirst(t, stack, value, p, fits, result);
          p := p + 1;
          stack := stack + [Array([])];
          state := ValueStart;
        case ArrayRest =>
          AfterArrayRest(t, stack, value, p, fits, result);
          if c == COMMA {
            p := p + 1;
            state := ValueStart;
          } else {
            state := if c == RBRACKET then ArrayEnd else Reject;
          }
        case ArrayEmpty =>
          AfterEmpty(t, state, stack, value, p, fits, result);
          state := if stack != [] && Top(stack) == Array([]) then ArrayEnd else Reject;
        case ArrayEnd =>
          AfterContainerEnd(t, state, stack, value, p, fits, result);
          p := p + 1;
          value, stack := Top(stack), Pop(stack);
          state := ValueEnd;
        case ObjectFirst =>
          AfterObjectFirst(t, stack, value, p, fits, result);
          p := p + 1;
          stack := stack + [Object(map[])];
          state := ValueStart;
        case ObjectMap =>
          AfterObjectMap(t, stack, value, p, fits, result);
          if c == COLON {
            p := p + 1;
            state := ValueStart;
          } else {
            state := Reject;
          }
        case ObjectRest =>
          AfterObjectRest(t, stack, value, p, fits, result);
          if c == COMMA {
            p := p + 1;
            state := ValueStart;
          } else {
            state := if c == RBRACE then ObjectEnd else Reject;
          }
        case ObjectEmpty =>
          AfterEmpty(t, state, stack, value, p, fits, result);
          state := if stack != [] && Top(stack) == Object(map[]) then ObjectEnd else Reject;
        case ObjectEnd =>
          AfterContainerEnd(t, state, stack, value, p, fits, result);
          p := p + 1;
          value, stack := Top(stack), Pop(stack);
          state := ValueEnd;
        case Reduce =>
          ReduceParent(t, stack, value, p, fits, result);
          var parent := Top(stack);
          if parent.Array? {
            AfterElement(t, stack, value, p, fits, result);
            stack := Pop(stack) + [Array(parent.elements + [value])];
            value, state := Undefined, ArrayRest;
          } else if parent.Object? && value.String? {
            AfterKey(t, stack, value, p, fits, result);
            stack := stack + [value];
            value, state := Undefined, ObjectMap;
          } else if parent.String? {
            AfterMember(t, stack, value, p, fits, result);
            stack := Pop(stack);
            stack := Pop(stack) + [Object(Top(stack).members[parent.s := value])];
            value, state := Undefined, ObjectRest;
          } else {
            AfterKey(t, stack, value, p, fits, result);
            state := Reject;
          }
        case Accept =>
          AtEnd(t, state, stack, value, p, fits, result);
          return value, Some(p);
        case Reject =>
          AtEnd(t, state, stack, value, p, fits, result);
          return Undefined, None;
      }
    }
  }
}
