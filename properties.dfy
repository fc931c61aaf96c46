/** What the walker promises: the plugin switches and their traces, the
    composition of interpolated strings, the split of a call's and a
    directive's children into arguments and block thunks, the names the
    handlers receive, the context's ids, and the order of the final unwind. */
module Properties {
  import opened Units
  import opened Syntax
  import opened Plugins
  import opened Semantics
  import Escapes

  // ---------------------------------------------------------------------
  // Events a single lookup produces

  /** The event `const h = p.handler(key); if (h !== undefined) h(context)` records. */
  function HookEvents(p: Table, key: JsString): seq<Event> {
    if key in p.handlers then [Invoked(p.handlers[key], ContextOnly)] else []
  }

  /** The event of the `plugin` handler of the entry on top before a switch. */
  function ParentEvents(top: Table): seq<Event> {
    HookEvents(top, PLUGIN_HANDLER)
  }

  /** The plugin node's value: the `plugin` handler's result, with
      `undefined` and `null` turned into `''`, or `''` without a handler. */
  function PluginValue(env: Env, top: Table): Value {
    if PLUGIN_HANDLER in top.handlers then
      var v := env.host(top.handlers[PLUGIN_HANDLER], ContextOnly);
      if v.Undefined? || v.Null? then Str([]) else v
    else Str([])
  }

  lemma HookIsEvents(env: Env, s: State, p: Table, key: JsString)
    ensures Hook(env, s, p, key) == s.(trace := s.trace + HookEvents(p, key))
  {
  }

  // ---------------------------------------------------------------------
  // Plugin switches

  /** One step of the walk of a scoped switch with a known plugin. */
  lemma ScopedUnfold(env: Env, s: State, t: Tree, statement: bool)
    requires t.Node? && t.kind == Plugin && |t.val| > 1 && FirstText(t).Some? && |s.stack| >= 1
    requires Tail(FirstText(t).value) in env.registry
    ensures var p := env.registry[Tail(FirstText(t).value)];
      var s1 := Hook(env, Push(s, p), p, START);
      var top := s.stack[|s.stack| - 1];
      Walk(env, s, t, statement) ==
        match Walk(env, s1, t.val[1], false)
        case Err(e) => Err(e)
        case Ok(o) => ParentResult(env, Pop(Hook(env, o.state, p, STOP)), Some(top))
  {
    var p := env.registry[Tail(FirstText(t).value)];
    var top := s.stack[|s.stack| - 1];
    assert Walk(env, s, t, statement) == WalkPlugin(env, s, t);
    assert WalkPlugin(env, s, t) ==
      match ScopedSwitch(env, s, t, p)
      case Err(e) => Err(e)
      case Ok(s2) => ParentResult(env, s2, Some(top));
    ScopedSwitchUnfold(env, s, t, p);
  }

  lemma ScopedSwitchUnfold(env: Env, s: State, t: Tree, p: Table)
    requires t.Node? && |t.val| > 1
    ensures ScopedSwitch(env, s, t, p) ==
      match Walk(env, Hook(env, Push(s, p), p, START), t.val[1], false)
      case Err(e) => Err(e)
      case Ok(o) => Ok(Pop(Hook(env, o.state, p, STOP)))
  {
  }

  /** `@name { … }`: an unknown name fails before anything happens; a known
      one leaves the stack exactly as it was, and the trace shows the
      plugin's `start`, whatever the block did, the same plugin's `stop`,
      and the `plugin` handler of the entry that was on top. */
  lemma ScopedPlugin(env: Env, s: State, t: Tree, statement: bool)
    requires t.Node? && t.kind == Plugin && |t.val| > 1 && FirstText(t).Some? && |s.stack| >= 1
    ensures var name := Tail(FirstText(t).value);
      name !in env.registry ==> Walk(env, s, t, statement) == Err(UnknownPlugin(name))
    ensures var name := Tail(FirstText(t).value);
      name in env.registry && Walk(env, s, t, statement).Ok? ==>
        var o := Walk(env, s, t, statement).value;
        var p := env.registry[name];
        var top := s.stack[|s.stack| - 1];
        o.state.stack == s.stack && o.value == PluginValue(env, top) &&
        exists mid: seq<Event> :: o.state.trace ==
          s.trace + HookEvents(p, START) + mid + HookEvents(p, STOP) + ParentEvents(top)
  {
    var name := Tail(FirstText(t).value);
    if name !in env.registry {
      assert Walk(env, s, t, statement) == WalkPlugin(env, s, t);
    } else if Walk(env, s, t, statement).Ok? {
      ScopedPluginOk(env, s, t, statement);
    }
  }

  /** The successful case of `ScopedPlugin`. */
  lemma ScopedPluginOk(env: Env, s: State, t: Tree, statement: bool)
    requires t.Node? && t.kind == Plugin && |t.val| > 1 && FirstText(t).Some? && |s.stack| >= 1
    requires Tail(FirstText(t).value) in env.registry && Walk(env, s, t, statement).Ok?
    ensures var o := Walk(env, s, t, statement).value;
      var p := env.registry[Tail(FirstText(t).value)];
      var top := s.stack[|s.stack| - 1];
      o.state.stack == s.stack && o.value == PluginValue(env, top) &&
      exists mid: seq<Event> :: o.state.trace ==
        s.trace + HookEvents(p, START) + mid + HookEvents(p, STOP) + ParentEvents(top)
  {
    var p := env.registry[Tail(FirstText(t).value)];
    var top := s.stack[|s.stack| - 1];
    var s1 := Hook(env, Push(s, p), p, START);
    var o1 := ScopedOutcome(env, s, t, statement);
    ScopedTrace(env, s, s1, o1.state, p, top);
  }

  /** The state after a scoped switch whose block left state `s3`. */
  lemma ScopedTrace(env: Env, s: State, s1: State, s3: State, p: Table, top: Table)
    requires |s.stack| >= 1 && s1 == Hook(env, Push(s, p), p, START) && Grows(s1, s3)
    ensures var o := Pop(s3).(trace := s3.trace + HookEvents(p, STOP) + ParentEvents(top));
      o.stack == s.stack &&
      exists mid: seq<Event> :: o.trace ==
        s.trace + HookEvents(p, START) + mid + HookEvents(p, STOP) + ParentEvents(top)
  {
    HookIsEvents(env, Push(s, p), p, START);
    var s4 := Hook(env, s3, p, STOP);
    HookIsEvents(env, s3, p, STOP);
    ScopedRestores(s, s1, s3, s4, Pop(s4), p);
    var mid := s3.trace[|s1.trace|..];
    assert s3.trace == s1.trace + mid;
  }

  /** The successful scoped switch as the inner walk's outcome `o1`. */
  lemma ScopedOutcome(env: Env, s: State, t: Tree, statement: bool) returns (o1: Out)
    requires t.Node? && t.kind == Plugin && |t.val| > 1 && FirstText(t).Some? && |s.stack| >= 1
    requires Tail(FirstText(t).value) in env.registry && Walk(env, s, t, statement).Ok?
    ensures var p := env.registry[Tail(FirstText(t).value)];
      Walk(env, Hook(env, Push(s, p), p, START), t.val[1], false) == Ok(o1)
    ensures var p := env.registry[Tail(FirstText(t).value)];
      var top := s.stack[|s.stack| - 1];
      Walk(env, s, t, statement) == Ok(Out(PluginValue(env, top),
        Pop(o1.state).(trace := o1.state.trace + HookEvents(p, STOP) + ParentEvents(top))))
  {
    var p := env.registry[Tail(FirstText(t).value)];
    var top := s.stack[|s.stack| - 1];
    var s1 := Hook(env, Push(s, p), p, START);
    ScopedUnfold(env, s, t, statement);
    o1 := Walk(env, s1, t.val[1], false).value;
    var s4 := Hook(env, o1.state, p, STOP);
    HookIsEvents(env, o1.state, p, STOP);
    ParentIsEvents(env, Pop(s4), top);
  }

  /** The `plugin` handler's call as a value and an event. */
  lemma ParentIsEvents(env: Env, s: State, top: Table)
    ensures ParentResult(env, s, Some(top)) == Ok(Out(PluginValue(env, top), s.(trace := s.trace + ParentEvents(top))))
  {
    if PLUGIN_HANDLER in top.handlers {
      var fn := top.handlers[PLUGIN_HANDLER];
      assert ParentEvents(top) == [Invoked(fn, ContextOnly)];
      var o := Invoke(env, s, fn, ContextOnly);
      assert o.state == s.(trace := s.trace + ParentEvents(top));
    } else {
      assert s.trace + ParentEvents(top) == s.trace;
    }
  }

  /** `@name` alone: an unknown name fails before the stack changes. A
      known one replaces the top entry when there is more than the bottom
      one (after the old top's `stop`), or is pushed on the bottom one; the
      bottom entry always stays, and the value comes from the `plugin`
      handler of the entry that was on top before the switch. */
  lemma UnscopedPlugin(env: Env, s: State, t: Tree, statement: bool)
    requires t.Node? && t.kind == Plugin && |t.val| <= 1 && FirstText(t).Some? && |s.stack| >= 1
    ensures var name := Tail(FirstText(t).value);
      name !in env.registry ==> Walk(env, s, t, statement) == Err(UnknownPlugin(name))
    ensures var name := Tail(FirstText(t).value);
      name in env.registry ==> (Walk(env, s, t, statement).Ok? &&
        var o := Walk(env, s, t, statement).value;
        var p := env.registry[name];
        var n := |s.stack|;
        var top := s.stack[n - 1];
        o.value == PluginValue(env, top) &&
        o.state.text == s.text && o.state.next == s.next &&
        (n > 1 ==> o.state.stack == s.stack[..n - 1] + [p]
                   && o.state.trace == s.trace + HookEvents(top, STOP) + HookEvents(p, START) + ParentEvents(top)) &&
        (n == 1 ==> o.state.stack == s.stack + [p]
                    && o.state.trace == s.trace + HookEvents(p, START) + ParentEvents(top)) &&
        o.state.stack[0] == s.stack[0])
  {
    var name := Tail(FirstText(t).value);
    if name in env.registry {
      var p := env.registry[name];
      var top := s.stack[|s.stack| - 1];
      var s2 := UnscopedSwitch(env, s, p);
      assert Walk(env, s, t, statement) == ParentResult(env, s2, Some(top));
    }
  }

  /** A block of one statement walks it, hands its value to the context
      and is `undefined`. */
  lemma BlockOfOne(env: Env, s: State, c: Tree, k: JsString, statement: bool)
    requires Walk(env, s, c, true).Ok?
    ensures var o := Walk(env, s, c, true).value;
      Walk(env, s, Node(Block, [c], k), statement) == Ok(Out(Undefined, Context(o.state, o.value).state))
  {
    var b := Node(Block, [c], k);
    assert WalkBlock(env, s, b, 0) == Ok(s);
  }

  /** A scoped switch around an unscoped one, `@P { @Q }`: the inner switch
      stops `P` and replaces it by `Q`; at the end of the block the outer
      switch runs `P`'s `stop` a second time and pops `Q`, whose `stop` never
      runs. The stack still ends as it began. */
  lemma ScopedAroundUnscoped(env: Env, s: State, pName: JsString, qName: JsString, k1: JsString, k2: JsString, k3: JsString)
    requires pName in env.registry && qName in env.registry && |s.stack| >= 1
    ensures var inner := Node(Plugin, [Token([0x40] + qName)], k1);
      var outer := Node(Plugin, [Token([0x40] + pName), Node(Block, [inner], k2)], k3);
      var p := env.registry[pName];
      var q := env.registry[qName];
      var top := s.stack[|s.stack| - 1];
      var r := Walk(env, s, outer, true);
      r.Ok? && r.value.state.stack == s.stack &&
      r.value.state.trace == s.trace + HookEvents(p, START) + HookEvents(p, STOP)
        + HookEvents(q, START) + ParentEvents(p) + HookEvents(p, STOP) + ParentEvents(top)
  {
    var inner := Node(Plugin, [Token([0x40] + qName)], k1);
    var block := Node(Block, [inner], k2);
    var outer := Node(Plugin, [Token([0x40] + pName), block], k3);
    var p := env.registry[pName];
    var q := env.registry[qName];
    var top := s.stack[|s.stack| - 1];
    assert Tail(FirstText(outer).value) == pName;
    assert Tail(FirstText(inner).value) == qName;
    var s1 := Hook(env, Push(s, p), p, START);
    HookIsEvents(env, Push(s, p), p, START);
    UnscopedPlugin(env, s1, inner, true);
    var o := Walk(env, s1, inner, true).value;
    assert s1.stack[..|s1.stack| - 1] == s.stack;
    assert o.state.stack == s.stack + [q];
    var s2 := Context(o.state, o.value).state;
    BlockOfOne(env, s1, inner, k2, false);
    ScopedUnfold(env, s, outer, true);
    var s4 := Hook(env, s2, p, STOP);
    HookIsEvents(env, s2, p, STOP);
    assert Pop(s4).stack == s.stack;
  }

  // ---------------------------------------------------------------------
  // Walking children in order

  /** Walking a sequence of trees one after the other, outside statement
      position: the reference for every loop that collects walked values. */
  function WalkAll(env: Env, s: State, ts: seq<Tree>): (r: Result<Items>)
    ensures r.Ok? ==> |r.value.values| == |ts|
    decreases |ts|
  {
    if |ts| == 0 then Ok(Items([], s))
    else match WalkAll(env, s, ts[..|ts| - 1])
      case Err(e) => Err(e)
      case Ok(acc) =>
        match Walk(env, acc.state, ts[|ts| - 1], false)
        case Err(e) => Err(e)
        case Ok(o) => Ok(Items(acc.values + [o.value], o.state))
  }

  /** The collecting loop over `t.val[from..i]` is walking those children
      one after the other. */
  lemma {:induction false} WalkEachIsWalkAll(env: Env, s: State, t: Tree, from: nat, i: nat)
    requires t.Node? && from <= i <= |t.val|
    ensures WalkEach(env, s, t, from, i) == WalkAll(env, s, t.val[from..i])
    decreases i
  {
    if i > from {
      WalkEachIsWalkAll(env, s, t, from, i - 1);
      assert t.val[from..i][..i - from - 1] == t.val[from..i - 1];
      assert t.val[from..i][i - from - 1] == t.val[i - 1];
    }
  }

  /** `list` walks its items in order and hands their values to the `list` handler. */
  lemma ListPassesItems(env: Env, s: State, t: Tree, statement: bool)
    requires t.Node? && t.kind == List
    ensures WalkAll(env, s, t.val).Err? ==> Walk(env, s, t, statement) == Err(WalkAll(env, s, t.val).error)
    ensures WalkAll(env, s, t.val).Ok? ==>
      var acc := WalkAll(env, s, t.val).value;
      Walk(env, s, t, statement) == Trigger(env, acc.state, List, ListArgs(acc.values, statement))
  {
    WalkEachIsWalkAll(env, s, t, 0, |t.val|);
    assert t.val[0..|t.val|] == t.val;
  }

  /** `arguments` walks its items in order and is the array of their values. */
  lemma ArgumentsAreItems(env: Env, s: State, t: Tree, statement: bool)
    requires t.Node? && t.kind == Arguments
    ensures WalkAll(env, s, t.val).Err? ==> Walk(env, s, t, statement) == Err(WalkAll(env, s, t.val).error)
    ensures WalkAll(env, s, t.val).Ok? ==>
      var acc := WalkAll(env, s, t.val).value;
      Walk(env, s, t, statement) == Ok(Out(Arr(acc.values), acc.state))
  {
    WalkEachIsWalkAll(env, s, t, 0, |t.val|);
    assert t.val[0..|t.val|] == t.val;
  }

  /** A raw segment written with the escaping encoder reaches the `code`
      handler as exactly the text the host meant. */
  lemma CodeSegmentText(t: JsString, rest: JsString, toks: seq<JsString>, n: nat)
    requires Escapes.ScanCode(Escapes.EncodeCode(t) + [Escapes.COLON, Escapes.CLOSE_BRACKET] + rest) == Some((toks, n))
    ensures CodeText(seq(|toks|, i requires 0 <= i < |toks| => Token(toks[i]))) == t
  {
    Escapes.CodeRoundTrip(t, rest);
    CodeTextOfTokens(toks);
  }

  /** `variable`: the handler receives the name without its `$` and the
      values of the index expressions, walked in order. */
  lemma VariablePassesName(env: Env, s: State, t: Tree, statement: bool)
    requires t.Node? && t.kind == Variable && FirstText(t).Some? && |t.val| >= 1
    ensures WalkAll(env, s, t.val[1..]).Ok? ==>
      var acc := WalkAll(env, s, t.val[1..]).value;
      Walk(env, s, t, statement) == Trigger(env, acc.state, Variable,
        VariableArgs(Tail(FirstText(t).value), acc.values, statement))
  {
    assert Walk(env, s, t, statement) == WalkVariable(env, s, t, statement);
    WalkEachIsWalkAll(env, s, t, 1, |t.val|);
    assert t.val[1..|t.val|] == t.val[1..];
  }

  /** `assignment`: the handler receives the name without its `$` and the
      walked value; `attribute` and `property` keep their names as written. */
  lemma NamedPassesName(env: Env, s: State, t: Tree, statement: bool)
    requires t.Node? && t.kind in {Assignment, Attribute, Property} && InnerText(t).Some? && |t.val| >= 2
    ensures Walk(env, s, t.val[1], false).Ok? ==>
      var o := Walk(env, s, t.val[1], false).value;
      var name := if t.kind == Assignment then Tail(InnerText(t).value) else InnerText(t).value;
      Walk(env, s, t, statement) == Trigger(env, o.state, t.kind, NamedArgs(name, o.value, statement))
    ensures Walk(env, s, t.val[1], false).Err? ==> Walk(env, s, t, statement).Err?
  {
  }

  /** The literal kinds hand their own text to their handler, which makes
      exactly one host call and nothing else. */
  lemma LiteralKinds(env: Env, s: State, t: Tree, statement: bool)
    requires t.Node? && t.kind in {Boolean, Color, Number, Regex}
    ensures Walk(env, s, t, statement) == Trigger(env, s, t.kind, TextArgs(t.text, statement))
    ensures Walk(env, s, t, statement).Ok? ==> Walk(env, s, t, statement).value.state == s.(trace :=
      s.trace + [Invoked(ResolveHandler(s.stack, KeyName(t.kind)).value, TextArgs(t.text, statement))])
  {
  }

  /** A `block` walks to `undefined`, so handing it to the context in
      statement position mints an id and appends nothing. */
  lemma BlockMintsId(env: Env, s: State, t: Tree)
    requires t.Node? && t.kind == Block && Walk(env, s, t, true).Ok?
    ensures var o := Walk(env, s, t, true).value;
      o.value == Undefined &&
      Context(o.state, o.value).state == o.state.(next := o.state.next + 1) &&
      Context(o.state, o.value).value == Str(ID_PREFIX + Decimal(o.state.next))
  {
  }

  /** Only the kinds the walker knows are walked: a bare token or string
      child, and `params` and `blocks` nodes on their own, are errors;
      `empty` is `''` and changes nothing. */
  lemma UnhandledKinds(env: Env, s: State, t: Tree, statement: bool)
    ensures !t.Node? ==> Walk(env, s, t, statement) == Err(UnhandledToken(None))
    ensures t.Node? && t.kind in {Params, Blocks} ==> Walk(env, s, t, statement) == Err(UnhandledToken(Some(t.kind)))
    ensures t.Node? && t.kind == Empty ==> Walk(env, s, t, statement) == Ok(Out(Str([]), s))
  {
  }

  // ---------------------------------------------------------------------
  // Calls and directives: arguments and block thunks

  /** The children of `val[1..i]` that a call passes on as thunks. */
  function CallBlocks(val: seq<Tree>, i: nat): (r: seq<Thunk>)
    requires 1 <= i <= |val|
    ensures |r| <= i - 1
    ensures forall j | 0 <= j < |r| :: !r[j].statement && KeyOf(r[j].node) != Some(Arguments)
  {
    if i == 1 then []
    else CallBlocks(val, i - 1) + (if KeyOf(val[i - 1]) == Some(Arguments) then [] else [Thunk(val[i - 1], false)])
  }

  /** A call passes every child after its name that is not an `arguments`
      node, in order, as a thunk; without an `arguments` child its
      parameters are the empty array and nothing is walked before the
      handler runs. */
  lemma {:induction false} CallSplitsChildren(env: Env, s: State, t: Tree, i: nat)
    requires t.Node? && 1 <= i <= |t.val|
    ensures CallUpTo(env, s, t, i).Ok? ==> CallUpTo(env, s, t, i).value.blocks == CallBlocks(t.val, i)
    ensures (forall j | 1 <= j < i :: KeyOf(t.val[j]) != Some(Arguments)) ==>
      CallUpTo(env, s, t, i) == Ok(CallAcc(Arr([]), CallBlocks(t.val, i), s))
    decreases i
  {
    if i > 1 {
      CallSplitsChildren(env, s, t, i - 1);
    }
  }

  /** The children of `val[1..i]` that a directive passes on as thunks. */
  function DirectiveBlocks(val: seq<Tree>, i: nat): (r: seq<Thunk>)
    requires i <= |val|
    ensures forall j | 0 <= j < |r| :: !r[j].statement && KeyOf(r[j].node) == Some(Block)
  {
    if i <= 1 then []
    else DirectiveBlocks(val, i - 1) + (if KeyOf(val[i - 1]) == Some(Block) then [Thunk(val[i - 1], false)] else [])
  }

  /** A directive passes its `block` children, in order, as thunks; the
      items of all its other children are walked into one argument list. */
  lemma {:induction false} DirectiveSplitsChildren(env: Env, s: State, t: Tree, i: nat)
    requires t.Node? && i <= |t.val|
    ensures DirectiveUpTo(env, s, t, i).Ok? ==> DirectiveUpTo(env, s, t, i).value.blocks == DirectiveBlocks(t.val, i)
    ensures (forall j | 1 <= j < i :: KeyOf(t.val[j]) == Some(Block)) ==>
      DirectiveUpTo(env, s, t, i) == Ok(DirectiveAcc([], DirectiveBlocks(t.val, i), s))
    decreases i
  {
    if i > 1 {
      DirectiveSplitsChildren(env, s, t, i - 1);
    }
  }

  /** A directive is resolved on the stack as it is after its arguments
      were walked, and an unknown one fails with the directive's name. */
  lemma DirectiveResolution(env: Env, s: State, t: Tree, statement: bool)
    requires t.Node? && t.kind == Directive && FirstText(t).Some?
    requires DirectiveUpTo(env, s, t, |t.val|).Ok?
    ensures var acc := DirectiveUpTo(env, s, t, |t.val|).value;
      var name := Tail(FirstText(t).value);
      (Walk(env, s, t, statement).Err? <==> ResolveDirective(acc.state.stack, name).None?) &&
      (Walk(env, s, t, statement).Err? ==> Walk(env, s, t, statement).error == UnknownDirective(name)) &&
      (Walk(env, s, t, statement).Ok? ==>
        Walk(env, s, t, statement).value.state.trace == acc.state.trace
          + [Invoked(ResolveDirective(acc.state.stack, name).value, DirectiveArgs(acc.args, acc.blocks, statement))])
  {
  }

  // ---------------------------------------------------------------------
  // Interpolated strings

  /** The literal runs of a string node's children: the texts between the
      interpolated (non-text) children, possibly empty. */
  function Runs(cs: seq<Tree>): (r: seq<JsString>)
    ensures |r| == |Interpolated(cs)| + 1
  {
    if |cs| == 0 then [[]]
    else
      var rs := Runs(cs[..|cs| - 1]);
      if cs[|cs| - 1].Text? then rs[..|rs| - 1] + [rs[|rs| - 1] + cs[|cs| - 1].s] else rs + [[]]
  }

  /** The interpolated children, in order. */
  function Interpolated(cs: seq<Tree>): seq<Tree> {
    if |cs| == 0 then []
    else Interpolated(cs[..|cs| - 1]) + (if cs[|cs| - 1].Text? then [] else [cs[|cs| - 1]])
  }

  /** Quoted runs and values, alternating: `q(r0), v0, q(r1), v1, …`. */
  function Alternate(runs: seq<JsString>, vals: seq<Value>, quote: JsString -> JsString): (r: seq<Value>)
    requires |runs| == |vals|
    ensures |r| == 2 * |vals|
    ensures forall j | 0 <= j < |vals| :: r[2 * j] == Str(quote(runs[j])) && r[2 * j + 1] == vals[j]
  {
    if |vals| == 0 then []
    else Alternate(runs[..|runs| - 1], vals[..|vals| - 1], quote) + [Str(quote(runs[|runs| - 1])), vals[|vals| - 1]]
  }

  /** The invariant of the loop of the `string` case after `i` children. */
  predicate StringInvariant(env: Env, s: State, t: Tree, i: nat)
    requires t.Node? && i <= |t.val|
  {
    var cs := t.val[..i];
    var w := WalkAll(env, s, Interpolated(cs));
    (StringUpTo(env, s, t, i).Ok? <==> w.Ok?) &&
    (w.Ok? ==> var acc := StringUpTo(env, s, t, i).value; var rs := Runs(cs);
      acc.state == w.value.state && acc.current == rs[|rs| - 1] &&
      acc.done == Alternate(rs[..|rs| - 1], w.value.values, env.quote))
  }

  /** The loop of the `string` case keeps the finished fragments as the
      quoted runs so far alternating with the values of the interpolated
      children walked so far, and the current run as the last run. */
  lemma {:induction false} StringLoop(env: Env, s: State, t: Tree, i: nat)
    requires t.Node? && i <= |t.val|
    ensures StringInvariant(env, s, t, i)
    decreases i
  {
    if i > 0 {
      StringLoop(env, s, t, i - 1);
      assert t.val[..i][..i - 1] == t.val[..i - 1];
      if t.val[i - 1].Text? {
        StringTextStep(env, s, t, i);
      } else {
        StringItemStep(env, s, t, i);
      }
    }
  }

  lemma StringTextStep(env: Env, s: State, t: Tree, i: nat)
    requires t.Node? && 0 < i <= |t.val| && t.val[i - 1].Text?
    requires StringInvariant(env, s, t, i - 1)
    ensures StringInvariant(env, s, t, i)
  {
    var cs := t.val[..i];
    assert cs[..i - 1] == t.val[..i - 1];
    assert Interpolated(cs) == Interpolated(t.val[..i - 1]);
    var rs := Runs(cs);
    var rs0 := Runs(t.val[..i - 1]);
    assert rs[..|rs| - 1] == rs0[..|rs0| - 1];
  }

  lemma StringItemStep(env: Env, s: State, t: Tree, i: nat)
    requires t.Node? && 0 < i <= |t.val| && !t.val[i - 1].Text?
    requires StringInvariant(env, s, t, i - 1)
    ensures StringInvariant(env, s, t, i)
  {
    var cs := t.val[..i];
    assert cs[..i - 1] == t.val[..i - 1];
    var pre := Interpolated(t.val[..i - 1]);
    var all := Interpolated(cs);
    assert all == pre + [t.val[i - 1]];
    assert all[..|all| - 1] == pre && all[|all| - 1] == t.val[i - 1];
    if WalkAll(env, s, pre).Ok? {
      StringItemOk(env, s, t, i, pre, all);
    } else {
      assert StringUpTo(env, s, t, i - 1).Err?;
      assert WalkAll(env, s, all).Err?;
    }
  }

  lemma StringItemOk(env: Env, s: State, t: Tree, i: nat, pre: seq<Tree>, all: seq<Tree>)
    requires t.Node? && 0 < i <= |t.val| && !t.val[i - 1].Text?
    requires StringInvariant(env, s, t, i - 1)
    requires pre == Interpolated(t.val[..i - 1]) && all == Interpolated(t.val[..i])
    requires |all| > 0 && all[..|all| - 1] == pre && all[|all| - 1] == t.val[i - 1]
    requires WalkAll(env, s, pre).Ok?
    ensures StringInvariant(env, s, t, i)
  {
    var cs := t.val[..i];
    assert cs[..i - 1] == t.val[..i - 1];
    var rs := Runs(cs);
    var rs0 := Runs(t.val[..i - 1]);
    assert rs == rs0 + [[]];
    var w := WalkAll(env, s, pre).value;
    var acc := StringUpTo(env, s, t, i - 1).value;
    var o := Walk(env, acc.state, t.val[i - 1], false);
    if o.Ok? {
      StringItemAppends(rs0, w.values, o.value.value, env.quote);
    }
  }

  /** One more interpolated value adds its quoted run and itself to the fragments. */
  lemma StringItemAppends(rs0: seq<JsString>, vals: seq<Value>, v: Value, quote: JsString -> JsString)
    requires |rs0| == |vals| + 1
    ensures var rs := rs0 + [[]];
      Alternate(rs[..|rs| - 1], vals + [v], quote) == Alternate(rs0[..|rs0| - 1], vals, quote) + [Str(quote(rs0[|rs0| - 1])), v]
  {
    var rs := rs0 + [[]];
    assert rs[..|rs| - 1] == rs0;
    assert (vals + [v])[..|vals|] == vals;
  }

  /** With k interpolated children, the `string` handler receives 2k+1
      fragments joined by `' + '`: the quoted literal runs at the even
      positions, in source order, and the values of the interpolated
      children, walked in order, at the odd ones. Without interpolation it
      is one quoted literal. */
  lemma StringComposition(env: Env, s: State, t: Tree, statement: bool)
    requires t.Node? && t.kind == String
    requires WalkAll(env, s, Interpolated(t.val)).Ok?
    ensures var w := WalkAll(env, s, Interpolated(t.val)).value;
      var rs := Runs(t.val);
      var fragments := Alternate(rs[..|rs| - 1], w.values, env.quote) + [Str(env.quote(rs[|rs| - 1]))];
      |fragments| == 2 * |Interpolated(t.val)| + 1 &&
      (forall j | 0 <= j < |rs| :: fragments[2 * j] == Str(env.quote(rs[j]))) &&
      (forall j | 0 <= j < |w.values| :: fragments[2 * j + 1] == w.values[j]) &&
      Walk(env, s, t, statement) == Trigger(env, w.state, String, TextArgs(JoinValues(fragments, JOINER), statement))
  {
    StringLoop(env, s, t, |t.val|);
    assert t.val[..|t.val|] == t.val;
    var w := WalkAll(env, s, Interpolated(t.val)).value;
    var rs := Runs(t.val);
    FragmentPositions(rs, w.values, env.quote);
    var acc := StringUpTo(env, s, t, |t.val|).value;
    assert acc.state == w.state && acc.current == rs[|rs| - 1];
    assert acc.done == Alternate(rs[..|rs| - 1], w.values, env.quote);
  }

  /** The fragment list: quoted runs at the even positions, values at the odd ones. */
  lemma FragmentPositions(rs: seq<JsString>, vals: seq<Value>, quote: JsString -> JsString)
    requires |rs| == |vals| + 1
    ensures var fragments := Alternate(rs[..|rs| - 1], vals, quote) + [Str(quote(rs[|rs| - 1]))];
      |fragments| == 2 * |vals| + 1 &&
      (forall j | 0 <= j < |rs| :: fragments[2 * j] == Str(quote(rs[j]))) &&
      (forall j | 0 <= j < |vals| :: fragments[2 * j + 1] == vals[j])
  {
    var a := Alternate(rs[..|rs| - 1], vals, quote);
    var fragments := a + [Str(quote(rs[|rs| - 1]))];
    forall j | 0 <= j < |rs| ensures fragments[2 * j] == Str(quote(rs[j])) {
      if j < |vals| { assert fragments[2 * j] == a[2 * j]; assert rs[..|rs| - 1][j] == rs[j]; }
    }
    forall j | 0 <= j < |vals| ensures fragments[2 * j + 1] == vals[j] {
      assert fragments[2 * j + 1] == a[2 * j + 1];
    }
  }

  /** A string with no interpolation hands its one quoted literal to the handler. */
  lemma PlainString(env: Env, s: State, t: Tree, statement: bool)
    requires t.Node? && t.kind == String && forall i | 0 <= i < |t.val| :: t.val[i].Text?
    ensures Walk(env, s, t, statement) == Trigger(env, s, String, TextArgs(env.quote(Runs(t.val)[0]), statement))
  {
    NoInterpolation(t.val);
    StringLoop(env, s, t, |t.val|);
    assert t.val[..|t.val|] == t.val;
    var rs := Runs(t.val);
    var acc := StringUpTo(env, s, t, |t.val|).value;
    assert acc.state == s && acc.done == [] && acc.current == rs[0];
    var fragments := acc.done + [Str(env.quote(acc.current))];
    assert fragments == [Str(env.quote(rs[0]))];
    assert JoinValues(fragments, JOINER) == env.quote(rs[0]) by {
      var parts := seq(|fragments|, i requires 0 <= i < |fragments| => JoinPart(fragments[i]));
      assert |parts| == 1 && parts[0] == JoinPart(Str(env.quote(rs[0])));
      assert JoinPart(Str(env.quote(rs[0]))) == ToText(Str(env.quote(rs[0]))) == env.quote(rs[0]);
      assert parts == [env.quote(rs[0])];
    }
  }

  lemma {:induction false} NoInterpolation(cs: seq<Tree>)
    requires forall i | 0 <= i < |cs| :: cs[i].Text?
    ensures Interpolated(cs) == []
    decreases |cs|
  {
    if |cs| > 0 { NoInterpolation(cs[..|cs| - 1]); }
  }

  // ---------------------------------------------------------------------
  // The context's ids

  /** Once an id has been minted, every later mint in the same run (or a
      later run sharing the counter) gives a different name. */
  lemma MintedIdsDiffer(s: State, later: State)
    requires Grows(Context(s, Undefined).state, later)
    ensures Context(later, Undefined).value != Context(s, Undefined).value
  {
    var pre := ID_PREFIX;
    var a := pre + Decimal(s.next);
    var b := pre + Decimal(later.next);
    if a == b {
      assert a[|pre|..] == Decimal(s.next);
      assert b[|pre|..] == Decimal(later.next);
      DecimalInjective(s.next, later.next);
    }
  }

  /** Appending never loses text: the buffer after any item starts with the old one. */
  lemma ContextAppends(s: State, item: Value)
    requires !item.Undefined?
    ensures Context(s, item).value == Str(Context(s, item).state.text)
    ensures Context(s, item).state.text[..|s.text|] == s.text
    ensures |Context(s, item).state.text| == |s.text| + |ToText(item)| + 1
  {
  }

  // ---------------------------------------------------------------------
  // The final unwind

  /** The `stop` events of a stack, top entry first. */
  function StopsTopDown(stack: seq<Table>): seq<Event>
    decreases |stack|
  {
    if |stack| == 0 then [] else HookEvents(stack[|stack| - 1], STOP) + StopsTopDown(stack[..|stack| - 1])
  }

  /** The unwind pops every entry, top first, and the trace gains exactly
      their `stop` calls in that order. */
  lemma {:induction false} UnwindOrder(env: Env, s: State)
    ensures Unwind(env, s) == s.(stack := [], trace := s.trace + StopsTopDown(s.stack))
    decreases |s.stack|
  {
    if |s.stack| > 0 {
      var n := |s.stack|;
      var s1 := Hook(env, Pop(s), s.stack[n - 1], STOP);
      HookIsEvents(env, Pop(s), s.stack[n - 1], STOP);
      UnwindOrder(env, s1);
    }
  }
}
