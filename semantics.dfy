/** The walker of `runString` as a function of the tree and the run's state:
    the context sink (text buffer and id counter), the plugin stack, and a
    trace of every host function invoked, with the arguments it received. */
module Semantics {
  import opened Units
  import opened Syntax
  import opened Plugins

  /** One invocation of a host function. */
  datatype Event = Invoked(fn: HostFn, args: Args)

  /** The handler names the walker calls by itself: the lifecycle handlers,
      the former top's `plugin` handler on a switch; and the prefix of minted
      ids and the separator of string fragments. */
  const START := Lit("start")
  const STOP := Lit("stop")
  const PLUGIN_HANDLER := Lit("plugin")
  const INIT := Lit("init")
  const EXIT := Lit("exit")
  const ID_PREFIX := Lit("_zyne_")
  const JOINER := Lit(" + ")

  /** What the walker cannot see: the plugins the run was given (by name),
      what each host function returns for its arguments, and the quoting
      of `util.inspect`. */
  datatype Env = Env(
    registry: map<JsString, Table>,
    host: (HostFn, Args) -> Value,
    quote: JsString -> JsString)

  /** The mutable state of a run: the plugin stack (bottom first), the
      text the context has collected, the module-wide id counter, and the
      host invocations so far. */
  datatype State = State(stack: seq<Table>, text: JsString, next: nat, trace: seq<Event>)

  datatype Error =
    | UnknownPlugin(plugin: JsString)      // "Could not resolve the … plugin."
    | UnknownDirective(directive: JsString) // "The directive … could not be found in context scope."
    | UnknownHandler(handler: JsString)    // "The handler … could not be found in context scope."
    | UnhandledToken(key: Option<Kind>)    // "Unhandled token … while converting the script."
    | BadShape                             // a tree the grammar never builds (a child the walker reads is missing)

  datatype Result<T> = Ok(value: T) | Err(error: Error)

  /** A walk's value and the state after it. */
  datatype Out = Out(value: Value, state: State)

  // ---------------------------------------------------------------------
  // What a walk may do to the state

  /** The plugin stack discipline of a walk: the bottom entry stays, and
      below the top nothing changes; a stack of two or more keeps its
      length, and a stack of one can grow to two (an unscoped switch). */
  predicate StackKept(a: seq<Table>, b: seq<Table>) {
    |a| >= 1 ==>
      |b| >= 1 && b[0] == a[0] &&
      if |a| >= 2 then |b| == |a| && b[..|a| - 1] == a[..|a| - 1] else |b| <= 2
  }

  /** `b` is a later state of the same run as `a`: the stack is kept, the
      text and the trace only grow at the end, the counter never goes back. */
  predicate Grows(a: State, b: State) {
    StackKept(a.stack, b.stack) && a.text <= b.text && a.next <= b.next && a.trace <= b.trace
  }

  lemma GrowsTrans(a: State, b: State, c: State)
    requires Grows(a, b) && Grows(b, c)
    ensures Grows(a, c)
  {
    if |a.stack| >= 2 {
      assert c.stack[..|a.stack| - 1] == c.stack[..|b.stack| - 1];
    }
  }

  // ---------------------------------------------------------------------
  // The context sink

  /** `context(item)`: `undefined` mints the name `_zyne_<id>` and advances
      the counter; anything else is appended, followed by a line feed, and
      the whole text so far is returned. */
  function Context(s: State, item: Value): (o: Out)
    ensures Grows(s, o.state) && o.state.stack == s.stack && o.state.trace == s.trace
    ensures item.Undefined? ==> o.state.text == s.text && o.state.next == s.next + 1
    ensures !item.Undefined? ==> o.state.text == s.text + ToText(item) + [LF] && o.state.next == s.next
  {
    if item.Undefined? then Out(Str(ID_PREFIX + Decimal(s.next)), s.(next := s.next + 1))
    else
      var text := s.text + ToText(item) + [LF];
      Out(Str(text), s.(text := text))
  }

  // ---------------------------------------------------------------------
  // Host calls and lookups

  /** Calls a host function and records the call. */
  function Invoke(env: Env, s: State, fn: HostFn, args: Args): (o: Out)
    ensures Grows(s, o.state) && o.state.stack == s.stack
    ensures o.state.text == s.text && o.state.next == s.next
    ensures o.state.trace == s.trace + [Invoked(fn, args)]
  {
    Out(env.host(fn, args), s.(trace := s.trace + [Invoked(fn, args)]))
  }

  /** `trigger(key, context, …)`: the handler of the highest plugin on the
      stack that has one for the node kind, or the "could not be found" error. */
  function Trigger(env: Env, s: State, key: Kind, args: Args): (r: Result<Out>)
    ensures r.Ok? ==> Grows(s, r.value.state)
    ensures r.Err? <==> ResolveHandler(s.stack, KeyName(key)).None?
    ensures r.Err? ==> r.error == UnknownHandler(KeyName(key))
    ensures r.Ok? ==> r.value.state.trace == s.trace + [Invoked(ResolveHandler(s.stack, KeyName(key)).value, args)]
  {
    match ResolveHandler(s.stack, KeyName(key))
    case None => Err(UnknownHandler(KeyName(key)))
    case Some(fn) => Ok(Invoke(env, s, fn, args))
  }

  /** `directive(name, context, …)`, over the plugins' own entries. */
  function CallDirective(env: Env, s: State, name: JsString, args: Args): (r: Result<Out>)
    ensures r.Ok? ==> Grows(s, r.value.state)
    ensures r.Err? <==> ResolveDirective(s.stack, name).None?
    ensures r.Err? ==> r.error == UnknownDirective(name)
    ensures r.Ok? ==> r.value.state.trace == s.trace + [Invoked(ResolveDirective(s.stack, name).value, args)]
  {
    match ResolveDirective(s.stack, name)
    case None => Err(UnknownDirective(name))
    case Some(fn) => Ok(Invoke(env, s, fn, args))
  }

  /** `const h = plugin.handler(key); if (h !== undefined) h(context)`. */
  function Hook(env: Env, s: State, p: Table, key: JsString): (s': State)
    ensures s'.stack == s.stack && s'.text == s.text && s'.next == s.next
    ensures key in p.handlers ==> s'.trace == s.trace + [Invoked(p.handlers[key], ContextOnly)]
    ensures key !in p.handlers ==> s'.trace == s.trace
  {
    if key in p.handlers then Invoke(env, s, p.handlers[key], ContextOnly).state else s
  }

  function Push(s: State, p: Table): State {
    s.(stack := s.stack + [p])
  }

  /** `stack.pop()`: drops the top entry; an empty stack stays empty. */
  function Pop(s: State): (r: State)
    ensures |s.stack| == 0 ==> r == s
    ensures |s.stack| > 0 ==> r.stack + [s.stack[|s.stack| - 1]] == s.stack
    ensures r.text == s.text && r.next == s.next && r.trace == s.trace
  {
    if |s.stack| == 0 then s else s.(stack := s.stack[..|s.stack| - 1])
  }

  // ---------------------------------------------------------------------
  // The walker

  datatype Items = Items(values: seq<Value>, state: State)
  datatype CallAcc = CallAcc(params: Value, blocks: seq<Thunk>, state: State)
  datatype DirectiveAcc = DirectiveAcc(args: seq<Value>, blocks: seq<Thunk>, state: State)
  datatype StringAcc = StringAcc(done: seq<Value>, current: JsString, state: State)

  /** `walk(node, statement)`. */
  function Walk(env: Env, s: State, t: Tree, statement: bool): (r: Result<Out>)
    ensures r.Ok? ==> Grows(s, r.value.state)
    decreases t, 2, 0
  {
    if !t.Node? then Err(UnhandledToken(None))
    else match t.kind
      case Call => WalkCall(env, s, t, statement)
      case Assignment | Attribute | Property => WalkNamed(env, s, t, t.kind, statement)
      case Define => WalkDefine(env, s, t, statement)
      case Variable => WalkVariable(env, s, t, statement)
      case Directive => WalkDirective(env, s, t, statement)
      case Block =>
        (match WalkBlock(env, s, t, |t.val|)
         case Err(e) => Err(e)
         case Ok(s') => Ok(Out(Undefined, s')))
      case Plugin => WalkPlugin(env, s, t)
      case Arguments | List => WalkItems(env, s, t, statement)
      case String => WalkString(env, s, t, statement)
      case Identifier | Element | Code | Boolean | Color | Number | Regex | Empty | Params | Blocks =>
        WalkLeaf(env, s, t, statement)
  }

  /** The kinds whose case walks no child. */
  predicate IsLeaf(k: Kind) {
    k in {Identifier, Element, Code, Boolean, Color, Number, Regex, Empty, Params, Blocks}
  }

  /** The cases that walk no child: `identifier` passes its name, `element`
      its name and its body as a statement-position thunk, `code` the
      concatenated texts of its children, the literal kinds their own text;
      `empty` is `''` without a handler, and `params` and `blocks`, which
      only occur inside a `define`, are unhandled tokens anywhere else. */
  function WalkLeaf(env: Env, s: State, t: Tree, statement: bool): (r: Result<Out>)
    requires t.Node? && IsLeaf(t.kind)
    ensures r.Ok? ==> Grows(s, r.value.state)
  {
    if t.kind == Identifier then
      if FirstText(t).None? then Err(BadShape)
      else Trigger(env, s, Identifier, IdentifierArgs(FirstText(t).value, statement))
    else if t.kind == Element then
      if InnerText(t).None? || |t.val| < 2 then Err(BadShape)
      else Trigger(env, s, Element, ElementArgs(InnerText(t).value, Thunk(t.val[1], true), statement))
    else if t.kind == Code then Trigger(env, s, Code, TextArgs(CodeText(t.val), statement))
    else if t.kind == Empty then Ok(Out(Str([]), s))
    else if t.kind == Params || t.kind == Blocks then Err(UnhandledToken(Some(t.kind)))
    else Trigger(env, s, t.kind, TextArgs(t.text, statement))
  }

  /** `arguments` is the array of its walked children; `list` hands the
      walked children to its handler. */
  function WalkItems(env: Env, s: State, t: Tree, statement: bool): (r: Result<Out>)
    requires t.Node? && t.kind in {Arguments, List}
    ensures r.Ok? ==> Grows(s, r.value.state)
    decreases t, 1, 0
  {
    match WalkEach(env, s, t, 0, |t.val|)
    case Err(e) => Err(e)
    case Ok(acc) =>
      if t.kind == Arguments then Ok(Out(Arr(acc.values), acc.state))
      else
        var r := Trigger(env, acc.state, List, ListArgs(acc.values, statement));
        if r.Ok? then GrowsTrans(s, acc.state, r.value.state); r else r
  }

  /** Walks `t.val[from..i]` in order, outside statement position, and
      collects the values (`val.forEach(item => items.push(walk(item)))`). */
  function WalkEach(env: Env, s: State, t: Tree, from: nat, i: nat): (r: Result<Items>)
    requires t.Node? && from <= i <= |t.val|
    ensures r.Ok? ==> Grows(s, r.value.state) && |r.value.values| == i - from
    decreases t, 0, i
  {
    if i == from then Ok(Items([], s))
    else match WalkEach(env, s, t, from, i - 1)
      case Err(e) => Err(e)
      case Ok(acc) =>
        match Walk(env, acc.state, t.val[i - 1], false)
        case Err(e) => Err(e)
        case Ok(o) =>
          GrowsTrans(s, acc.state, o.state);
          Ok(Items(acc.values + [o.value], o.state))
  }

  /** `call`: the name is read off the first child; an `arguments` child is
      walked and its value becomes the parameters (the last one wins), every
      other child is passed on unwalked as a block thunk. */
  function WalkCall(env: Env, s: State, t: Tree, statement: bool): (r: Result<Out>)
    requires t.Node?
    ensures r.Ok? ==> Grows(s, r.value.state)
    decreases t, 1, 0
  {
    if InnerText(t).None? then Err(BadShape)
    else match CallUpTo(env, s, t, |t.val|)
      case Err(e) => Err(e)
      case Ok(acc) =>
        var r := Trigger(env, acc.state, Call, CallArgs(InnerText(t).value, acc.params, acc.blocks, statement));
        if r.Ok? then GrowsTrans(s, acc.state, r.value.state); r else r
  }

  /** The loop of the `call` case over `t.val[1..i]`. */
  function CallUpTo(env: Env, s: State, t: Tree, i: nat): (r: Result<CallAcc>)
    requires t.Node? && 1 <= i <= |t.val|
    ensures r.Ok? ==> Grows(s, r.value.state)
    decreases t, 0, i
  {
    if i == 1 then Ok(CallAcc(Arr([]), [], s))
    else match CallUpTo(env, s, t, i - 1)
      case Err(e) => Err(e)
      case Ok(acc) =>
        var item := t.val[i - 1];
        if KeyOf(item) == Some(Arguments) then
          match Walk(env, acc.state, item, false)
          case Err(e) => Err(e)
          case Ok(o) =>
            GrowsTrans(s, acc.state, o.state);
            Ok(CallAcc(o.value, acc.blocks, o.state))
        else Ok(acc.(blocks := acc.blocks + [Thunk(item, false)]))
  }

  /** `assignment`, `attribute` and `property`: a name and one walked value.
      An assignment's name drops its leading `$`. */
  function WalkNamed(env: Env, s: State, t: Tree, key: Kind, statement: bool): (r: Result<Out>)
    requires t.Node? && key in {Assignment, Attribute, Property}
    ensures r.Ok? ==> Grows(s, r.value.state)
    decreases t, 1, 0
  {
    if InnerText(t).None? || |t.val| < 2 then Err(BadShape)
    else
      var name := if key == Assignment then Tail(InnerText(t).value) else InnerText(t).value;
      match Walk(env, s, t.val[1], false)
      case Err(e) => Err(e)
      case Ok(o) =>
        var r := Trigger(env, o.state, key, NamedArgs(name, o.value, statement));
        if r.Ok? then GrowsTrans(s, o.state, r.value.state); r else r
  }

  /** `define`: the name, the parameter names (each without its `$`) of the
      last `params` child, the slot names of the last `blocks` child, and the
      last child as a statement-position thunk. Nothing is walked. */
  function WalkDefine(env: Env, s: State, t: Tree, statement: bool): (r: Result<Out>)
    requires t.Node?
    ensures r.Ok? ==> Grows(s, r.value.state)
    decreases t, 1, 0
  {
    if InnerText(t).None? then Err(BadShape)
    else
      var params := LastOfKind(t.val, Params, |t.val| - 1);
      var slots := LastOfKind(t.val, Blocks, |t.val| - 1);
      var paramNames := if params.None? then Ok([]) else Names(params.value.val, true);
      var slotNames := if slots.None? then Ok([]) else Names(slots.value.val, false);
      if paramNames.Err? || slotNames.Err? then Err(BadShape)
      else Trigger(env, s, Define, DefineArgs(InnerText(t).value, paramNames.value, slotNames.value,
        Thunk(t.val[|t.val| - 1], true), statement))
  }

  /** The last of `val[1..bound]` with the given key (`undefined` if none). */
  function LastOfKind(val: seq<Tree>, key: Kind, bound: int): (r: Option<Tree>)
    requires bound <= |val|
    ensures r.Some? ==> r.value.Node? && r.value.kind == key && r.value in val
    ensures r.None? <==> (forall i | 1 <= i < bound :: KeyOf(val[i]) != Some(key))
    decreases bound
  {
    if bound <= 1 then None
    else if KeyOf(val[bound - 1]) == Some(key) then Some(val[bound - 1])
    else LastOfKind(val, key, bound - 1)
  }

  /** `param.val[0].text.slice(1)` (parameters) or `block.val[0].text`
      (slots) for each child. */
  function Names(cs: seq<Tree>, strip: bool): (r: Result<seq<JsString>>)
    ensures r.Ok? ==> |r.value| == |cs|
    ensures r.Ok? <==> forall i | 0 <= i < |cs| :: FirstText(cs[i]).Some?
    ensures r.Ok? ==> forall i | 0 <= i < |cs| ::
      r.value[i] == (if strip then Tail(FirstText(cs[i]).value) else FirstText(cs[i]).value)
  {
    if |cs| == 0 then Ok([])
    else
      var rest := Names(cs[..|cs| - 1], strip);
      var last := FirstText(cs[|cs| - 1]);
      if rest.Err? || last.None? then Err(BadShape)
      else Ok(rest.value + [if strip then Tail(last.value) else last.value])
  }

  /** `variable`: the name without its `$`, and the walked index expressions. */
  function WalkVariable(env: Env, s: State, t: Tree, statement: bool): (r: Result<Out>)
    requires t.Node?
    ensures r.Ok? ==> Grows(s, r.value.state)
    decreases t, 1, 0
  {
    if FirstText(t).None? then Err(BadShape)
    else match WalkEach(env, s, t, 1, |t.val|)
      case Err(e) => Err(e)
      case Ok(acc) =>
        var r := Trigger(env, acc.state, Variable, VariableArgs(Tail(FirstText(t).value), acc.values, statement));
        if r.Ok? then GrowsTrans(s, acc.state, r.value.state); r else r
  }

  /** `directive`: the name without its `#`; `block` children become
      thunks, the items of every other child are walked into one argument
      list; then the directive is looked up on the stack as it is after
      those walks. */
  function WalkDirective(env: Env, s: State, t: Tree, statement: bool): (r: Result<Out>)
    requires t.Node?
    ensures r.Ok? ==> Grows(s, r.value.state)
    decreases t, 1, 0
  {
    if FirstText(t).None? then Err(BadShape)
    else match DirectiveUpTo(env, s, t, |t.val|)
      case Err(e) => Err(e)
      case Ok(acc) =>
        var r := CallDirective(env, acc.state, Tail(FirstText(t).value), DirectiveArgs(acc.args, acc.blocks, statement));
        if r.Ok? then GrowsTrans(s, acc.state, r.value.state); r else r
  }

  /** The loop of the `directive` case over `t.val[1..i]`. */
  function DirectiveUpTo(env: Env, s: State, t: Tree, i: nat): (r: Result<DirectiveAcc>)
    requires t.Node? && i <= |t.val|
    ensures r.Ok? ==> Grows(s, r.value.state)
    decreases t, 0, i
  {
    if i <= 1 then Ok(DirectiveAcc([], [], s))
    else match DirectiveUpTo(env, s, t, i - 1)
      case Err(e) => Err(e)
      case Ok(acc) =>
        var c := t.val[i - 1];
        if KeyOf(c) == Some(Block) then Ok(acc.(blocks := acc.blocks + [Thunk(c, false)]))
        else if !c.Node? then Err(BadShape)
        else match WalkEach(env, acc.state, c, 0, |c.val|)
          case Err(e) => Err(e)
          case Ok(items) =>
            GrowsTrans(s, acc.state, items.state);
            Ok(DirectiveAcc(acc.args + items.values, acc.blocks, items.state))
  }

  /** `block`: each child is walked in statement position and its value
      handed to the context (`children.forEach(c => context(walk(c, true)))`). */
  function WalkBlock(env: Env, s: State, t: Tree, i: nat): (r: Result<State>)
    requires t.Node? && i <= |t.val|
    ensures r.Ok? ==> Grows(s, r.value)
    decreases t, 0, i
  {
    if i == 0 then Ok(s)
    else match WalkBlock(env, s, t, i - 1)
      case Err(e) => Err(e)
      case Ok(s1) =>
        match Walk(env, s1, t.val[i - 1], true)
        case Err(e) => Err(e)
        case Ok(o) =>
          var s2 := Context(o.state, o.value).state;
          GrowsTrans(s, s1, o.state);
          GrowsTrans(s, o.state, s2);
          Ok(s2)
  }

  /** The plugin switch. `@name { … }` pushes the plugin, runs its `start`,
      walks the block, runs the `stop` of the plugin it pushed, and pops the
      top entry. `@name` alone replaces the top entry (running the old top's
      `stop`) when the stack holds more than the bottom plugin, or pushes
      when it holds only that, and runs the new plugin's `start`. Either
      way the node's value is what the `plugin` handler of the entry that
      was on top before the switch returns, or `''`. */
  function WalkPlugin(env: Env, s: State, t: Tree): (r: Result<Out>)
    requires t.Node?
    ensures r.Ok? ==> Grows(s, r.value.state)
    decreases t, 1, 0
  {
    if FirstText(t).None? then Err(BadShape)
    else
      var name := Tail(FirstText(t).value);
      if name !in env.registry then Err(UnknownPlugin(name))
      else
        var p := env.registry[name];
        var parent := if |s.stack| == 0 then None else Some(s.stack[|s.stack| - 1]);
        var switched := if |t.val| > 1 then ScopedSwitch(env, s, t, p) else Ok(UnscopedSwitch(env, s, p));
        match switched
        case Err(e) => Err(e)
        case Ok(s2) =>
          var r := ParentResult(env, s2, parent);
          GrowsTrans(s, s2, r.value.state);
          r
  }

  /** `@name { … }` with plugin `p`: push, `start`, the block, `p`'s
      `stop`, pop. On a non-empty stack the stack ends as it began, whatever
      switches the block makes. */
  function ScopedSwitch(env: Env, s: State, t: Tree, p: Table): (r: Result<State>)
    requires t.Node? && |t.val| > 1
    ensures r.Ok? ==> Grows(s, r.value)
    ensures r.Ok? && |s.stack| >= 1 ==> r.value.stack == s.stack
    decreases t, 0, 0
  {
    var s1 := Hook(env, Push(s, p), p, START);
    match Walk(env, s1, t.val[1], false)
    case Err(e) => Err(e)
    case Ok(o) =>
      var s4 := Hook(env, o.state, p, STOP);
      ScopedRestores(s, s1, o.state, s4, Pop(s4), p);
      Ok(Pop(s4))
  }

  /** `@name` alone with plugin `p`: above the bottom entry the top is
      stopped and replaced; on the bottom entry alone `p` is pushed. */
  function UnscopedSwitch(env: Env, s: State, p: Table): (s': State)
    ensures Grows(s, s')
    ensures |s.stack| > 1 ==> s'.stack == s.stack[..|s.stack| - 1] + [p]
    ensures |s.stack| <= 1 ==> s'.stack == s.stack + [p]
  {
    var s1 := if |s.stack| > 1 then Pop(Hook(env, s, s.stack[|s.stack| - 1], STOP)) else s;
    var s2 := Hook(env, Push(s1, p), p, START);
    assert |s.stack| > 1 ==> s2.stack[..|s.stack| - 1] == s.stack[..|s.stack| - 1];
    s2
  }

  /** `parent?.handler?.('plugin')?.(context) ?? ''`. */
  function ParentResult(env: Env, s: State, parent: Option<Table>): (r: Result<Out>)
    ensures r.Ok? && r.value.state.stack == s.stack && r.value.state.text == s.text
    ensures r.value.state.next == s.next && s.trace <= r.value.state.trace
    ensures parent.None? || PLUGIN_HANDLER !in parent.value.handlers ==> r.value == Out(Str([]), s)
  {
    if parent.None? || PLUGIN_HANDLER !in parent.value.handlers then Ok(Out(Str([]), s))
    else
      var o := Invoke(env, s, parent.value.handlers[PLUGIN_HANDLER], ContextOnly);
      Ok(o.(value := if o.value.Undefined? || o.value.Null? then Str([]) else o.value))
  }

  /** The stack a scoped switch ends with is the one it started with. */
  lemma ScopedRestores(s: State, s1: State, s3: State, s4: State, s5: State, p: Table)
    requires s1.stack == s.stack + [p] && s1.text == s.text && s1.next == s.next && s.trace <= s1.trace
    requires Grows(s1, s3)
    requires s4.stack == s3.stack && s4.text == s3.text && s4.next == s3.next && s3.trace <= s4.trace
    requires s5 == Pop(s4)
    ensures |s.stack| >= 1 ==> s5.stack == s.stack
    ensures Grows(s, s5)
  {
    if |s.stack| >= 1 {
      assert s5.stack == s3.stack[..|s.stack|];
      assert s3.stack[..|s1.stack| - 1] == s1.stack[..|s1.stack| - 1];
      assert s1.stack[..|s1.stack| - 1] == s.stack;
    }
  }

  /** `string`: the literal runs between interpolations are quoted, each
      interpolated item is walked, and all the fragments are joined with
      `' + '` and handed to the `string` handler. */
  function WalkString(env: Env, s: State, t: Tree, statement: bool): (r: Result<Out>)
    requires t.Node?
    ensures r.Ok? ==> Grows(s, r.value.state)
    decreases t, 1, 0
  {
    match StringUpTo(env, s, t, |t.val|)
    case Err(e) => Err(e)
    case Ok(acc) =>
      var fragments := acc.done + [Str(env.quote(acc.current))];
      var r := Trigger(env, acc.state, String, TextArgs(JoinValues(fragments, JOINER), statement));
      if r.Ok? then GrowsTrans(s, acc.state, r.value.state); r else r
  }

  /** The loop of the `string` case over `t.val[..i]`: `done` holds the
      finished fragments, `current` the literal run being read. */
  function StringUpTo(env: Env, s: State, t: Tree, i: nat): (r: Result<StringAcc>)
    requires t.Node? && i <= |t.val|
    ensures r.Ok? ==> Grows(s, r.value.state)
    decreases t, 0, i
  {
    if i == 0 then Ok(StringAcc([], [], s))
    else match StringUpTo(env, s, t, i - 1)
      case Err(e) => Err(e)
      case Ok(acc) =>
        var item := t.val[i - 1];
        if item.Text? then Ok(acc.(current := acc.current + item.s))
        else match Walk(env, acc.state, item, false)
          case Err(e) => Err(e)
          case Ok(o) =>
            GrowsTrans(s, acc.state, o.state);
            Ok(StringAcc(acc.done + [Str(env.quote(acc.current)), o.value], [], o.state))
  }

  /** `val.map(item => item.text).join('')`: a child without text renders
      as nothing. */
  function CodeText(cs: seq<Tree>): JsString {
    if |cs| == 0 then []
    else CodeText(cs[..|cs| - 1]) + (if TextOf(cs[|cs| - 1]).Some? then TextOf(cs[|cs| - 1]).value else [])
  }

  /** Over the token children of a code node, `CodeText` is the
      concatenation of the token texts. */
  lemma {:induction false} CodeTextOfTokens(toks: seq<JsString>)
    ensures CodeText(seq(|toks|, i requires 0 <= i < |toks| => Token(toks[i]))) == Concat(toks)
    decreases |toks|
  {
    if |toks| > 0 {
      var cs := seq(|toks|, i requires 0 <= i < |toks| => Token(toks[i]));
      var init := toks[..|toks| - 1];
      CodeTextOfTokens(init);
      assert cs[..|cs| - 1] == seq(|init|, i requires 0 <= i < |init| => Token(init[i]));
    }
  }

  // ---------------------------------------------------------------------
  // A whole run

  /** `tokens.forEach(token => context(walk(token, true)))`. */
  function Statements(env: Env, s: State, tokens: seq<Tree>): (r: Result<State>)
    ensures r.Ok? ==> Grows(s, r.value)
    decreases |tokens|
  {
    if |tokens| == 0 then Ok(s)
    else match Statements(env, s, tokens[..|tokens| - 1])
      case Err(e) => Err(e)
      case Ok(s1) =>
        match Walk(env, s1, tokens[|tokens| - 1], true)
        case Err(e) => Err(e)
        case Ok(o) =>
          var s2 := Context(o.state, o.value).state;
          GrowsTrans(s, s1, o.state);
          GrowsTrans(s, o.state, s2);
          Ok(s2)
  }

  /** The final unwind: pop every entry, top first, running its `stop`. */
  function Unwind(env: Env, s: State): (s': State)
    ensures s'.stack == [] && s'.text == s.text && s'.next == s.next && s.trace <= s'.trace
    decreases |s.stack|
  {
    if |s.stack| == 0 then s
    else Unwind(env, Hook(env, Pop(s), s.stack[|s.stack| - 1], STOP))
  }

  /** The lifecycle handler `key` of every plugin given to the run, in the
      order `Object.values` lists them. */
  function Lifecycle(env: Env, s: State, order: seq<JsString>, key: JsString): (s': State)
    requires forall i | 0 <= i < |order| :: order[i] in env.registry
    ensures s'.stack == s.stack && s'.text == s.text && s'.next == s.next && s.trace <= s'.trace
    decreases |order|
  {
    if |order| == 0 then s
    else Hook(env, Lifecycle(env, s, order[..|order| - 1], key), env.registry[order[|order| - 1]], key)
  }

  /** `runString(source, plugins, file, setup)` on the parsed statements:
      a fresh stack holding the default backend; with `setup`, the `init`
      handlers first and, after the statements, the unwind and the `exit`
      handlers. The returned text is the state's `text`, and `next` carries
      the module-wide counter on to the next run. */
  function RunString(env: Env, tokens: seq<Tree>, order: seq<JsString>, setup: bool, id: nat): (r: Result<State>)
    requires forall i | 0 <= i < |order| :: order[i] in env.registry
    ensures r.Ok? ==> r.value.next >= id
    ensures r.Ok? && setup ==> r.value.stack == []
    ensures r.Ok? && !setup ==> |r.value.stack| >= 1 && r.value.stack[0] == DefaultTable()
  {
    var s0 := State([DefaultTable()], [], id, []);
    var s1 := if setup then Lifecycle(env, s0, order, INIT) else s0;
    match Statements(env, s1, tokens)
    case Err(e) => Err(e)
    case Ok(s2) =>
      if setup then Ok(Lifecycle(env, Unwind(env, s2), order, EXIT)) else Ok(s2)
  }
}
