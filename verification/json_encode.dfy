/** The stack machine of encode.c refines a recursive printer. */
module JsonEncode {
  import opened Common
  import opened Utf8
  import opened JsonString
  import opened JsonValue
  import opened JsonKeys

  datatype Options = Options(pretty: bool, ascii: bool)

  // ---- the recursive printer

  /** No undefined value is reachable. */
  ghost predicate Defined(v: Value)
    decreases v
  {
    match v
    case Undefined => false
    case Array(xs) => forall i :: 0 <= i < |xs| ==> Defined(xs[i])
    case Object(m) => forall k :: k in m ==> Defined(m[k])
    case _ => true
  }

  function Spaces(n: nat): Bytes {
    seq<byte>(n, _ => SPACE)
  }

  /** A line break and the indentation of a nesting depth, in pretty mode. */
  function Break(depth: nat, opts: Options): Bytes {
    if opts.pretty then [NEWLINE] + Spaces(2 * depth) else []
  }

  function Quoted(s: Bytes, opts: Options): Bytes {
    [QUOTE] + EncodeFrom(s, 0, opts.ascii) + [QUOTE]
  }

  /** The text of a value inside depth containers. */
  ghost function Print(v: Value, depth: nat, opts: Options): Bytes
    decreases v, 1, 0
  {
    match v
    case Undefined => []
    case Null => NULL_TEXT
    case Bool(b) => if b then TRUE_TEXT else FALSE_TEXT
    case Number(l) => l
    case String(s) => Quoted(s, opts)
    case Array(xs) => [LBRACKET] + PrintElements(v, 0, depth + 1, opts)
    case Object(m) => [LBRACE] + PrintMembers(v, SortedKeys(m.Keys), 0, depth + 1, opts)
  }

  function Separator(i: nat): Bytes {
    if i == 0 then [] else [COMMA]
  }

  /** The elements from i on, and the bracket that closes them. */
  ghost function PrintElements(v: Value, i: nat, depth: nat, opts: Options): Bytes
    requires v.Array? && i <= |v.elements| && depth > 0
    decreases v, 0, |v.elements| - i
  {
    if i == |v.elements| then (if i > 0 then Break(depth - 1, opts) else []) + [RBRACKET]
    else
      Separator(i) + Break(depth, opts) + Print(v.elements[i], depth, opts) + PrintElements(v, i + 1, depth, opts)
  }

  function Colon(opts: Options): Bytes {
    if opts.pretty then [COLON, SPACE] else [COLON]
  }

  /** The members of the keys from i on, and the brace that closes them. */
  ghost function PrintMembers(v: Value, keys: seq<Bytes>, i: nat, depth: nat, opts: Options): Bytes
    requires v.Object? && i <= |keys| && depth > 0 && forall k :: k in keys ==> k in v.members
    decreases v, 0, |keys| - i
  {
    if i == |keys| then (if i > 0 then Break(depth - 1, opts) else []) + [RBRACE]
    else
      Separator(i) + Break(depth, opts) + Quoted(keys[i], opts) + Colon(opts) + Print(v.members[keys[i]], depth, opts)
      + PrintMembers(v, keys, i + 1, depth, opts)
  }

  // ---- the machine's remaining work

  datatype State =
    | ValueStart | ValueEnd
    | NullWord | BoolWord | NumberText | StringText
    | ArrayFirst | ArrayRest | ObjectFirst | ObjectRest
    | Accept | Reject

  /** An open container; keys is present for an object. */
  datatype Context = Context(value: Value, keys: Option<seq<Bytes>>, index: nat)

  ghost predicate ContextOk(c: Context) {
    match c.keys
    case None => c.value.Array? && c.index <= |c.value.elements|
    case Some(ks) => c.value.Object? && ks == SortedKeys(c.value.members.Keys) && c.index <= |ks|
  }

  /** What a context at nesting depth still has to print. */
  ghost function ContextText(c: Context, depth: nat, opts: Options): Bytes
    requires ContextOk(c) && depth > 0
  {
    match c.keys
    case None => PrintElements(c.value, c.index, depth, opts)
    case Some(ks) => PrintMembers(c.value, ks, c.index, depth, opts)
  }

  ghost predicate ContextDefined(c: Context)
    requires ContextOk(c)
  {
    match c.keys
    case None => forall i :: c.index <= i < |c.value.elements| ==> Defined(c.value.elements[i])
    case Some(ks) => forall i :: c.index <= i < |ks| ==> Defined(c.value.members[ks[i]])
  }

  ghost predicate StackOk(stack: seq<Context>) {
    forall i :: 0 <= i < |stack| ==> ContextOk(stack[i])
  }

  function Pop(stack: seq<Context>): seq<Context>
    requires stack != []
  {
    stack[..|stack| - 1]
  }

  function Top(stack: seq<Context>): Context
    requires stack != []
  {
    stack[|stack| - 1]
  }

  ghost function RestText(stack: seq<Context>, opts: Options): Bytes
    requires StackOk(stack)
  {
    if stack == [] then [] else ContextText(Top(stack), |stack|, opts) + RestText(Pop(stack), opts)
  }

  ghost predicate RestDefined(stack: seq<Context>)
    requires StackOk(stack)
  {
    stack == [] || (ContextDefined(Top(stack)) && RestDefined(Pop(stack)))
  }

  ghost predicate StateOk(state: State, stack: seq<Context>, value: Value) {
    match state
    case NullWord => value.Null?
    case BoolWord => value.Bool?
    case NumberText => value.Number?
    case StringText => value.String?
    case ArrayFirst => value.Array?
    case ObjectFirst => value.Object?
    case ArrayRest => stack != [] && Top(stack).keys.None?
    case ObjectRest => stack != [] && Top(stack).keys.Some?
    case Accept => stack == []
    case _ => true
  }

  /** The states that still have the current value to print. */
  predicate Pending(state: State) {
    state in {ValueStart, NullWord, BoolWord, NumberText, StringText, ArrayFirst, ObjectFirst}
  }

  ghost function StateText(state: State, stack: seq<Context>, value: Value, opts: Options): Bytes
    requires StackOk(stack)
  {
    (if Pending(state) then Print(value, |stack|, opts) else []) + RestText(stack, opts)
  }

  ghost predicate StateDefined(state: State, stack: seq<Context>, value: Value)
    requires StackOk(stack)
  {
    !state.Reject? && (Pending(state) ==> Defined(value)) && RestDefined(stack)
  }

  /** Either all that is left is defined and completes the text, or something undefined is ahead and the
      text never was printable. */
  ghost predicate Inv(state: State, stack: seq<Context>, value: Value, buffer: Bytes, opts: Options, whole: Value,
                      before: Bytes)
  {
    && StackOk(stack) && StateOk(state, stack, value)
    && (StateDefined(state, stack, value) <==> Defined(whole))
    && (Defined(whole) ==> buffer + StateText(state, stack, value, opts) == before + Print(whole, 0, opts))
  }

  // ---- termination: the number of values and closing characters still to print

  ghost function Weight(v: Value): nat
    decreases v, 1, 0
  {
    match v
    case Array(xs) => 1 + ElementsWeight(v, 0)
    case Object(m) => 1 + MembersWeight(v, SortedKeys(m.Keys), 0)
    case _ => 1
  }

  ghost function ElementsWeight(v: Value, i: nat): nat
    requires v.Array? && i <= |v.elements|
    decreases v, 0, |v.elements| - i
  {
    1 + if i == |v.elements| then 0 else Weight(v.elements[i]) + ElementsWeight(v, i + 1)
  }

  ghost function MembersWeight(v: Value, keys: seq<Bytes>, i: nat): nat
    requires v.Object? && i <= |keys| && forall k :: k in keys ==> k in v.members
    decreases v, 0, |keys| - i
  {
    1 + if i == |keys| then 0 else Weight(v.members[keys[i]]) + MembersWeight(v, keys, i + 1)
  }

  ghost function StackWeight(stack: seq<Context>): nat
    requires StackOk(stack)
  {
    if stack == [] then 0
    else
      StackWeight(Pop(stack)) + ContextWeight(Top(stack))
  }

  ghost function ContextWeight(c: Context): nat
    requires ContextOk(c)
  {
    match c.keys
    case None => ElementsWeight(c.value, c.index)
    case Some(ks) => MembersWeight(c.value, ks, c.index)
  }

  ghost function StateWeight(state: State, stack: seq<Context>, value: Value): nat
    requires StackOk(stack)
  {
    (if Pending(state) then Weight(value) else 0) + StackWeight(stack)
  }

  function Rank(state: State): nat {
    match state
    case ValueStart => 3
    case ValueEnd => 3
    case Accept => 0
    case Reject => 0
    case _ => 1
  }

  ghost predicate Smaller(state': State, stack': seq<Context>, value': Value, state: State, stack: seq<Context>,
                          value: Value)
    requires StackOk(stack) && StackOk(stack')
  {
    var w', w := StateWeight(state', stack', value'), StateWeight(state, stack, value);
    w' < w || (w' == w && Rank(state') < Rank(state))
  }

  // ---- the steps

  lemma StackPush(stack: seq<Context>, c: Context, opts: Options)
    requires StackOk(stack) && ContextOk(c)
    ensures StackOk(stack + [c]) && Top(stack + [c]) == c && Pop(stack + [c]) == stack
    ensures RestText(stack + [c], opts) == ContextText(c, |stack| + 1, opts) + RestText(stack, opts)
    ensures RestDefined(stack + [c]) <==> ContextDefined(c) && RestDefined(stack)
  {
    assert Pop(stack + [c]) == stack;
  }

  lemma AtStart(value: Value, buffer: Bytes, opts: Options)
    ensures Inv(ValueStart, [], value, buffer, opts, value, buffer)
  {
  }

  function Dispatch(value: Value): State {
    match value
    case Null => NullWord
    case Bool(_) => BoolWord
    case Number(_) => NumberText
    case String(_) => StringText
    case Object(_) => ObjectFirst
    case Array(_) => ArrayFirst
    case Undefined => Reject
  }

  lemma AfterDispatch(stack: seq<Context>, value: Value, buffer: Bytes, opts: Options, whole: Value, before: Bytes)
    requires Inv(ValueStart, stack, value, buffer, opts, whole, before)
    ensures Inv(Dispatch(value), stack, value, buffer, opts, whole, before)
    ensures Smaller(Dispatch(value), stack, value, ValueStart, stack, value)
  {
    hide Print, RestText, RestDefined, StackWeight;
  }

  lemma AfterValueEnd(stack: seq<Context>, value: Value, buffer: Bytes, opts: Options, whole: Value, before: Bytes)
    requires Inv(ValueEnd, stack, value, buffer, opts, whole, before)
    ensures var next := if stack == [] then Accept else if Top(stack).keys.Some? then ObjectRest else ArrayRest;
      Inv(next, stack, value, buffer, opts, whole, before) && Smaller(next, stack, value, ValueEnd, stack, value)
  {
    hide Print, RestText, RestDefined, StackWeight;
  }

  /** A step that appends the part e of what was left. */
  lemma Advance(state: State, stack: seq<Context>, value: Value, buffer: Bytes, opts: Options, whole: Value,
                before: Bytes, e: Bytes, state': State, stack': seq<Context>, value': Value)
    requires Inv(state, stack, value, buffer, opts, whole, before)
    requires StackOk(stack') && StateOk(state', stack', value')
    requires StateDefined(state', stack', value') <==> StateDefined(state, stack, value)
    requires StateText(state, stack, value, opts) == e + StateText(state', stack', value', opts)
    ensures Inv(state', stack', value', buffer + e, opts, whole, before)
  {
    hide StateText, StateDefined, StackOk, StateOk, Print, Defined;
    Regroup(buffer, e, StateText(state', stack', value', opts));
  }

  lemma AfterScalar(state: State, stack: seq<Context>, value: Value, buffer: Bytes, opts: Options, whole: Value,
                    before: Bytes)
    requires Inv(state, stack, value, buffer, opts, whole, before)
    requires state in {NullWord, BoolWord, NumberText, StringText}
    ensures Inv(ValueEnd, stack, value, buffer + Print(value, |stack|, opts), opts, whole, before)
    ensures Smaller(ValueEnd, stack, value, state, stack, value)
    ensures state.NullWord? ==> Print(value, |stack|, opts) == NULL_TEXT
    ensures state.BoolWord? ==> Print(value, |stack|, opts) == if value.b then TRUE_TEXT else FALSE_TEXT
    ensures state.NumberText? ==> Print(value, |stack|, opts) == value.lexeme
    ensures state.StringText? ==> Print(value, |stack|, opts) == Quoted(value.s, opts)
  {
    hide RestText, RestDefined, StackWeight, Quoted;
    assert Weight(value) > 0 && Defined(value);
    assert RestText(stack, opts) == [] + RestText(stack, opts);
    Advance(state, stack, value, buffer, opts, whole, before, Print(value, |stack|, opts), ValueEnd, stack, value);
  }

  lemma OpenText(v: Value, stack: seq<Context>, c: Context, opts: Options)
    requires StackOk(stack) && ContextOk(c) && c.value == v && c.index == 0
    ensures StackOk(stack + [c]) && Top(stack + [c]) == c && Pop(stack + [c]) == stack
    ensures Print(v, |stack|, opts) + RestText(stack, opts)
         == [if v.Array? then LBRACKET else LBRACE] + RestText(stack + [c], opts)
    ensures RestDefined(stack + [c]) <==> Defined(v) && RestDefined(stack)
  {
    hide PrintElements, PrintMembers;
    StackPush(stack, c, opts);
    OpenDefined(c);
    Regroup([if v.Array? then LBRACKET else LBRACE], ContextText(c, |stack| + 1, opts), RestText(stack, opts));
  }

  lemma OpenWeight(stack: seq<Context>, c: Context)
    requires StackOk(stack) && ContextOk(c) && c.index == 0
    ensures StackOk(stack + [c])
    ensures StackWeight(stack + [c]) < Weight(c.value) + StackWeight(stack)
  {
    StackPush(stack, c, Options(false, false));
  }

  lemma OpenDefined(c: Context)
    requires ContextOk(c) && c.index == 0
    ensures ContextDefined(c) <==> Defined(c.value)
  {
    match c.keys {
      case None =>
      case Some(ks) =>
        var m := c.value.members;
        if ContextDefined(c) {
          forall k | k in m ensures Defined(m[k]) {
            assert k in ks;
            var i :| 0 <= i < |ks| && ks[i] == k;
          }
        }
    }
  }

  lemma AfterFirst(state: State, stack: seq<Context>, value: Value, buffer: Bytes, opts: Options, whole: Value,
                   before: Bytes, c: Context)
    requires Inv(state, stack, value, buffer, opts, whole, before)
    requires state == if c.keys.None? then ArrayFirst else ObjectFirst
    requires ContextOk(c) && c.value == value && c.index == 0
    ensures var rest := if c.keys.None? then ArrayRest else ObjectRest;
      && Inv(rest, stack + [c], value, buffer + [if value.Array? then LBRACKET else LBRACE], opts, whole, before)
      && Smaller(rest, stack + [c], value, state, stack, value)
  {
    var rest, e := if c.keys.None? then ArrayRest else ObjectRest, [if value.Array? then LBRACKET else LBRACE];
    OpenText(value, stack, c, opts);
    OpenWeight(stack, c);
    hide RestText, RestDefined, Print, Defined, Weight, StackWeight;
    StateTextOf(state, stack, value, opts);
    StateTextOf(rest, stack + [c], value, opts);
    Advance(state, stack, value, buffer, opts, whole, before, e, rest, stack + [c], value);
  }

  lemma StateTextOf(state: State, stack: seq<Context>, value: Value, opts: Options)
    requires StackOk(stack)
    ensures !Pending(state) ==> StateText(state, stack, value, opts) == RestText(stack, opts)
    ensures Pending(state)
      ==> StateText(state, stack, value, opts) == Print(value, |stack|, opts) + RestText(stack, opts)
  {
    hide Print, RestText;
    assert [] + RestText(stack, opts) == RestText(stack, opts);
  }

  /** The stack after its top context has handed out one element or member. */
  function Bump(stack: seq<Context>): seq<Context>
    requires stack != []
  {
    Pop(stack) + [Top(stack).(index := Top(stack).index + 1)]
  }

  lemma BumpOk(stack: seq<Context>, opts: Options)
    requires StackOk(stack) && stack != [] && ContextOk(Top(stack).(index := Top(stack).index + 1))
    ensures StackOk(Bump(stack)) && |Bump(stack)| == |stack|
    ensures var c := Top(stack).(index := Top(stack).index + 1);
      && RestText(Bump(stack), opts) == ContextText(c, |stack|, opts) + RestText(Pop(stack), opts)
      && (RestDefined(Bump(stack)) <==> ContextDefined(c) && RestDefined(Pop(stack)))
      && Top(Bump(stack)) == c && Pop(Bump(stack)) == Pop(stack)
  {
    StackPush(Pop(stack), Top(stack).(index := Top(stack).index + 1), opts);
  }

  // ---- handing out the next element or member

  function Bumped(c: Context): Context {
    c.(index := c.index + 1)
  }

  /** What is printed in front of the next value: separator, break, and for an object the key. */
  ghost function Lead(c: Context, depth: nat, opts: Options): Bytes
    requires ContextOk(c)
  {
    match c.keys
    case None => Separator(c.index) + Break(depth, opts)
    case Some(ks) =>
      if c.index < |ks| then Separator(c.index) + Break(depth, opts) + Quoted(ks[c.index], opts) + Colon(opts) else []
  }

  ghost predicate Exhausted(c: Context)
    requires ContextOk(c)
  {
    c.index == if c.keys.None? then |c.value.elements| else |c.keys.value|
  }

  ghost function NextValue(c: Context): Value
    requires ContextOk(c) && !Exhausted(c)
  {
    if c.keys.None? then c.value.elements[c.index] else c.value.members[c.keys.value[c.index]]
  }

  lemma NextText(c: Context, depth: nat, opts: Options)
    requires ContextOk(c) && !Exhausted(c) && depth > 0
    ensures ContextOk(Bumped(c))
    ensures ContextText(c, depth, opts)
         == Lead(c, depth, opts) + Print(NextValue(c), depth, opts) + ContextText(Bumped(c), depth, opts)
  {
    hide Print, Break, Separator, Quoted, Colon;
  }

  lemma NextDefined(c: Context)
    requires ContextOk(c) && !Exhausted(c)
    ensures ContextDefined(c) <==> Defined(NextValue(c)) && ContextDefined(Bumped(c))
  {
    hide Defined;
  }

  lemma NextWeight(stack: seq<Context>)
    requires StackOk(stack) && stack != [] && !Exhausted(Top(stack))
    ensures StackOk(Bump(stack))
    ensures Weight(NextValue(Top(stack))) + StackWeight(Bump(stack)) < StackWeight(stack)
  {
    StackPush(Pop(stack), Bumped(Top(stack)), Options(false, false));
    BumpedWeight(Top(stack));
    hide Weight, ContextWeight, NextValue;
  }

  lemma BumpedWeight(c: Context)
    requires ContextOk(c) && !Exhausted(c)
    ensures ContextWeight(c) == 1 + Weight(NextValue(c)) + ContextWeight(Bumped(c))
  {
    hide Weight;
  }

  /** The rest of the text begins with the lead, the next value, and the rest after it. */
  lemma NextRest(stack: seq<Context>, opts: Options)
    requires StackOk(stack) && stack != [] && !Exhausted(Top(stack))
    ensures StackOk(Bump(stack)) && |Bump(stack)| == |stack| && Top(Bump(stack)) == Bumped(Top(stack))
    ensures var c := Top(stack);
      && RestText(stack, opts)
        == Lead(c, |stack|, opts) + (Print(NextValue(c), |stack|, opts) + RestText(Bump(stack), opts))
      && (RestDefined(stack) <==> Defined(NextValue(c)) && RestDefined(Bump(stack)))
  {
    var c := Top(stack);
    NextText(c, |stack|, opts);
    NextDefined(c);
    BumpOk(stack, opts);
    hide Print, Defined, ContextText, ContextDefined, Lead;
    FourParts(Lead(c, |stack|, opts), Print(NextValue(c), |stack|, opts), ContextText(Bumped(c), |stack|, opts),
              RestText(Pop(stack), opts));
  }

  lemma FourParts(a: Bytes, b: Bytes, c: Bytes, d: Bytes)
    ensures a + b + c + d == a + (b + (c + d))
  {
  }

  lemma AfterNext(state: State, stack: seq<Context>, value: Value, buffer: Bytes, opts: Options, whole: Value,
                  before: Bytes)
    requires Inv(state, stack, value, buffer, opts, whole, before)
    requires state in {ArrayRest, ObjectRest} && !Exhausted(Top(stack))
    ensures var c := Top(stack);
      && Inv(ValueStart, Bump(stack), NextValue(c), buffer + Lead(c, |stack|, opts), opts, whole, before)
      && Smaller(ValueStart, Bump(stack), NextValue(c), state, stack, value)
  {
    var c := Top(stack);
    NextRest(stack, opts);
    NextWeight(stack);
    hide Print, Defined, Lead, RestText, RestDefined, StackWeight, Weight, NextValue;
    assert [] + RestText(stack, opts) == RestText(stack, opts);
    Advance(state, stack, value, buffer, opts, whole, before, Lead(c, |stack|, opts), ValueStart, Bump(stack),
            NextValue(c));
  }

  /** The text that closes an exhausted container at a nesting depth. */
  function Closing(c: Context, depth: nat, opts: Options): Bytes
    requires depth > 0
  {
    (if c.index > 0 then Break(depth - 1, opts) else []) + [if c.keys.None? then RBRACKET else RBRACE]
  }

  lemma AfterClose(state: State, stack: seq<Context>, value: Value, buffer: Bytes, opts: Options, whole: Value,
                   before: Bytes)
    requires Inv(state, stack, value, buffer, opts, whole, before)
    requires state in {ArrayRest, ObjectRest} && Exhausted(Top(stack))
    ensures Inv(ValueEnd, Pop(stack), value, buffer + Closing(Top(stack), |stack|, opts), opts, whole, before)
    ensures Smaller(ValueEnd, Pop(stack), value, state, stack, value)
  {
    var e := Closing(Top(stack), |stack|, opts);
    assert RestText(stack, opts) == e + RestText(Pop(stack), opts) by {
      hide Print, Break;
    }
    assert StackWeight(Pop(stack)) < StackWeight(stack);
    assert RestDefined(stack) <==> RestDefined(Pop(stack));
    hide Print, Defined, RestText, RestDefined, StackWeight, Weight, Closing;
    assert [] + RestText(stack, opts) == RestText(stack, opts);
    assert [] + RestText(Pop(stack), opts) == RestText(Pop(stack), opts);
    Advance(state, stack, value, buffer, opts, whole, before, e, ValueEnd, Pop(stack), value);
  }

  lemma AtEnd(state: State, stack: seq<Context>, value: Value, buffer: Bytes, opts: Options, whole: Value,
              before: Bytes)
    requires Inv(state, stack, value, buffer, opts, whole, before)
    ensures state.Accept? ==> Defined(whole) && buffer == before + Print(whole, 0, opts)
    ensures state.Reject? ==> !Defined(whole)
  {
    hide Print, Defined;
  }

  // ---- the loop of encode.c

  /** buffer_insert_fill of one character. */
  method Fill(buffer: Bytes, count: nat, c: byte) returns (r: Bytes)
    ensures r == buffer + seq<byte>(count, _ => c)
  {
    r := buffer;
    for i := 0 to count
      invariant r == buffer + seq<byte>(i, _ => c)
    {
      r := r + [c];
    }
  }

  method AppendBreak(buffer: Bytes, depth: nat, opts: Options) returns (r: Bytes)
    ensures r == buffer + Break(depth, opts)
  {
    r := buffer;
    if opts.pretty {
      r := r + [NEWLINE];
      r := Fill(r, depth * 2, SPACE);
    }
  }

  method AppendString(buffer: Bytes, s: Bytes, opts: Options) returns (r: Bytes)
    ensures r == buffer + Quoted(s, opts)
  {
    r := buffer + [QUOTE];
    var e := Encode(s, opts.ascii);
    r := r + e;
    r := r + [QUOTE];
  }

  /** The comma, line break and key in front of the next element or member. */
  method AppendLead(buffer: Bytes, c: Context, depth: nat, opts: Options) returns (r: Bytes)
    requires ContextOk(c) && !Exhausted(c)
    ensures r == buffer + Lead(c, depth, opts)
  {
    hide Quoted, Break, SortedKeys;
    r := buffer;
    if c.index > 0 {
      r := r + [COMMA];
    }
    r := AppendBreak(r, depth, opts);
    assert r == buffer + (Separator(c.index) + Break(depth, opts));
    if c.keys.Some? {
      var key := c.keys.value[c.index];
      r := AppendString(r, key, opts);
      r := r + if opts.pretty then [COLON, SPACE] else [COLON];
      FiveParts(buffer, Separator(c.index) + Break(depth, opts), Quoted(key, opts), Colon(opts));
    }
  }

  lemma FiveParts(a: Bytes, b: Bytes, c: Bytes, d: Bytes)
    ensures a + b + c + d == a + (b + c + d)
  {
  }

  /** The line break and bracket that close a container. */
  method AppendClosing(buffer: Bytes, c: Context, depth: nat, opts: Options) returns (r: Bytes)
    requires depth > 0
    ensures r == buffer + Closing(c, depth, opts)
  {
    r := buffer;
    if c.index > 0 {
      r := AppendBreak(r, depth - 1, opts);
    }
    r := r + [if c.keys.None? then RBRACKET else RBRACE];
  }

  /** value_buffer_encode. It answers whether every value reached was defined, and if so it has appended
      the printed text to the buffer. */
  method ValueBufferEncode(buffer: Bytes, whole: Value, opts: Options) returns (ok: bool, out: Bytes)
    ensures ok <==> Defined(whole)
    ensures ok ==> out == buffer + Print(whole, 0, opts)
    ensures buffer <= out
  {
    var stack: seq<Context> := [];
    var value, state := whole, ValueStart;
    out := buffer;
    AtStart(whole, buffer, opts);
    hide Print, PrintElements, PrintMembers, RestText, RestDefined, ContextText, ContextDefined, StackWeight,
      ContextWeight, Weight, StateText, StateDefined, Defined, SortedKeys, Quoted, Lead, Closing;
    while true
      invariant Inv(state, stack, value, out, opts, whole, buffer) && buffer <= out
      decreases StateWeight(state, stack, value), Rank(state)
    {
      match state {
        case ValueStart =>
          AfterDispatch(stack, value, out, opts, whole, buffer);
          state := Dispatch(value);
        case ValueEnd =>
          AfterValueEnd(stack, value, out, opts, whole, buffer);
          state := if stack == [] then Accept else if Top(stack).keys.Some? then ObjectRest else ArrayRest;
        case NullWord =>
          AfterScalar(state, stack, value, out, opts, whole, buffer);
          out := out + NULL_TEXT;
          state := ValueEnd;
        case BoolWord =>
          AfterScalar(state, stack, value, out, opts, whole, buffer);
          out := out + if value.b then TRUE_TEXT else FALSE_TEXT;
          state := ValueEnd;
        case NumberText =>
          AfterScalar(state, stack, value, out, opts, whole, buffer);
          out := out + value.lexeme;
          state := ValueEnd;
        case StringText =>
          AfterScalar(state, stack, value, out, opts, whole, buffer);
          out := AppendString(out, value.s, opts);
          state := ValueEnd;
        case ArrayFirst =>
          AfterFirst(state, stack, value, out, opts, whole, buffer, Context(value, None, 0));
          stack := stack + [Context(value, None, 0)];
          out := out + [LBRACKET];
          state := ArrayRest;
        case ObjectFirst =>
          var keys := KeysOf(value.members);
          AfterFirst(state, stack, value, out, opts, whole, buffer, Context(value, Some(keys), 0));
          stack := stack + [Context(value, Some(keys), 0)];
          out := out + [LBRACE];
          state := ObjectRest;
        case ArrayRest =>
          var c := Top(stack);
          if c.index == |c.value.elements| {
            AfterClose(state, stack, value, out, opts, whole, buffer);
            out := AppendClosing(out, c, |stack|, opts);
            stack, state := Pop(stack), ValueEnd;
          } else {
            AfterNext(state, stack, value, out, opts, whole, buffer);
            out := AppendLead(out, c, |stack|, opts);
            value, stack, state := c.value.elements[c.index], Bump(stack), ValueStart;
          }
        case ObjectRest =>
          var c := Top(stack);
          if c.index == |c.keys.value| {
            AfterClose(state, stack, value, out, opts, whole, buffer);
            out := AppendClosing(out, c, |stack|, opts);
            stack, state := Pop(stack), ValueEnd;
          } else {
            AfterNext(state, stack, value, out, opts, whole, buffer);
            out := AppendLead(out, c, |stack|, opts);
            value, stack, state := c.value.members[c.keys.value[c.index]], Bump(stack), ValueStart;
          }
        case Accept =>
          AtEnd(state, stack, value, out, opts, whole, buffer);
          return true, out;
        case Reject =>
          AtEnd(state, stack, value, out, opts, whole, buffer);
          return false, out;
      }
    }
  }

  /** value_encode: the null string, which is empty, stands for failure. */
  method ValueEncode(value: Value, opts: Options) returns (text: Bytes)
    ensures text == if Defined(value) then Print(value, 0, opts) else []
  {
    var ok, buffer := ValueBufferEncode([], value, opts);
    text := if ok then buffer else [];
  }
}
