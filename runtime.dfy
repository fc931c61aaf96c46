/** `runString` as the program runs it: a run object holding the plugin
    stack (the contents of each plugin on it), the text buffer, the trace of
    host calls and the shared id counter, with one method per case of
    `walk`. Every method is proved to do what the walker functions say. */
module Runtime {
  import opened Units
  import opened Syntax
  import opened Plugins
  import opened Semantics

  /** The module-wide `let id = 0`, shared by every run of the process. */
  class IdCounter {
    var id: nat

    constructor(start: nat)
      ensures id == start
    {
      id := start;
    }
  }

  /** The walker's outcome and the method's, side by side: the same error,
      or the same value and the state the method left behind. */
  predicate Agrees(r: Result<Value>, spec: Result<Out>, now: State) {
    (r.Err? <==> spec.Err?) &&
    (r.Err? ==> r.error == spec.error) &&
    (r.Ok? ==> r.value == spec.value.value && now == spec.value.state)
  }

  class Runner {
    var stack: seq<Table>
    var text: JsString
    var trace: seq<Event>
    const ids: IdCounter
    const plugins: map<JsString, Table>
    const host: (HostFn, Args) -> Value
    const quote: JsString -> JsString

    /** A run over the given plugins, before `runString` sets up its stack. */
    constructor(ids: IdCounter, plugins: map<JsString, Table>, host: (HostFn, Args) -> Value, quote: JsString -> JsString)
      ensures this.ids == ids && this.plugins == plugins && this.host == host && this.quote == quote
      ensures stack == [] && text == [] && trace == []
    {
      this.ids := ids;
      this.plugins := plugins;
      this.host := host;
      this.quote := quote;
      stack := [];
      text := [];
      trace := [];
    }

    /** The run's state as the walker functions see it. */
    function Abs(): State
      reads this, ids
    {
      State(stack, text, ids.id, trace)
    }

    /** What the run cannot change: the plugins' contents, the host and the quoting. */
    function EnvOf(): Env {
      Env(plugins, host, quote)
    }

    // -------------------------------------------------------------------
    // The context and the lookups

    /** `context(item)`. */
    method Context(item: Value) returns (v: Value)
      modifies this, ids
      ensures v == Semantics.Context(old(Abs()), item).value
      ensures Abs() == Semantics.Context(old(Abs()), item).state
    {
      if item.Undefined? {
        v := Str(ID_PREFIX + Decimal(ids.id));
        ids.id := ids.id + 1;
      } else {
        text := text + ToText(item) + [LF];
        v := Str(text);
      }
    }

    /** The loop of `trigger`: from the top of the stack down, the first
        plugin with a handler for `name`. */
    method FindHandler(name: JsString) returns (r: Option<HostFn>)
      ensures r == ResolveHandler(stack, name)
    {
      ghost var tabs := HandlerTables(stack);
      var i := |stack|;
      while i > 0
        invariant 0 <= i <= |stack|
        invariant forall j | i <= j < |stack| :: name !in tabs[j]
        decreases i
      {
        if name in stack[i - 1].handlers {
          ResolveHighest(tabs, name, i - 1);
          return Some(stack[i - 1].handlers[name]);
        }
        i := i - 1;
      }
      ResolveFindsHighest(tabs, name);
      return None;
    }

    /** The loop of `directive`: from the top of the stack down, the first
        plugin with its own entry for `name`. */
    method FindDirective(name: JsString) returns (r: Option<HostFn>)
      ensures r == ResolveDirective(stack, name)
    {
      ghost var tabs := DirectiveTables(stack);
      var i := |stack|;
      while i > 0
        invariant 0 <= i <= |stack|
        invariant forall j | i <= j < |stack| :: name !in tabs[j]
        decreases i
      {
        if name in stack[i - 1].directives {
          ResolveHighest(tabs, name, i - 1);
          return Some(stack[i - 1].directives[name]);
        }
        i := i - 1;
      }
      ResolveFindsHighest(tabs, name);
      return None;
    }

    /** Calls a host function and records the call. */
    method Invoke(fn: HostFn, args: Args) returns (v: Value)
      modifies this
      ensures v == host(fn, args)
      ensures stack == old(stack) && text == old(text) && trace == old(trace) + [Invoked(fn, args)]
    {
      trace := trace + [Invoked(fn, args)];
      v := host(fn, args);
    }

    /** `trigger(key, context, …)`. */
    method Trigger(key: Kind, args: Args) returns (r: Result<Value>)
      modifies this
      ensures Agrees(r, Semantics.Trigger(EnvOf(), old(Abs()), key, args), Abs())
    {
      var fn := FindHandler(KeyName(key));
      if fn.None? {
        return Err(UnknownHandler(KeyName(key)));
      }
      var v := Invoke(fn.value, args);
      return Ok(v);
    }

    /** `directive(name, context, …)`. */
    method CallDirective(name: JsString, args: Args) returns (r: Result<Value>)
      modifies this
      ensures Agrees(r, Semantics.CallDirective(EnvOf(), old(Abs()), name, args), Abs())
    {
      var fn := FindDirective(name);
      if fn.None? {
        return Err(UnknownDirective(name));
      }
      var v := Invoke(fn.value, args);
      return Ok(v);
    }

    /** `const h = p.handler(key); if (h !== undefined) h(context)`. */
    method Hook(p: Table, key: JsString)
      modifies this
      ensures Abs() == Semantics.Hook(EnvOf(), old(Abs()), p, key)
      ensures stack == old(stack)
    {
      if key in p.handlers {
        var _ := Invoke(p.handlers[key], ContextOnly);
      }
    }

    // -------------------------------------------------------------------
    // The walker

    /** `walk(node, statement)`. */
    method Walk(t: Tree, statement: bool) returns (r: Result<Value>)
      modifies this, ids
      ensures Agrees(r, Semantics.Walk(EnvOf(), old(Abs()), t, statement), Abs())
      decreases t, 2
    {
      if !t.Node? {
        return Err(UnhandledToken(None));
      }
      match t.kind {
        case Call => r := WalkCall(t, statement);
        case Assignment | Attribute | Property => r := WalkNamed(t, statement);
        case Define => r := WalkDefine(t, statement);
        case Variable => r := WalkVariable(t, statement);
        case Directive => r := WalkDirective(t, statement);
        case Block => r := WalkBlock(t, statement);
        case Plugin => r := WalkPlugin(t);
        case Arguments | List => r := WalkItems(t, statement);
        case String => r := WalkString(t, statement);
        case Identifier | Element | Code | Boolean | Color | Number | Regex | Empty | Params | Blocks =>
          r := WalkLeaf(t, statement);
      }
    }

    /** The cases that walk no child. */
    method WalkLeaf(t: Tree, statement: bool) returns (r: Result<Value>)
      requires t.Node? && IsLeaf(t.kind)
      modifies this
      ensures Agrees(r, Semantics.WalkLeaf(EnvOf(), old(Abs()), t, statement), Abs())
    {
      if t.kind == Identifier {
        if FirstText(t).None? {
          r := Err(BadShape);
        } else {
          r := Trigger(Identifier, IdentifierArgs(FirstText(t).value, statement));
        }
      } else if t.kind == Element {
        if InnerText(t).None? || |t.val| < 2 {
          r := Err(BadShape);
        } else {
          r := Trigger(Element, ElementArgs(InnerText(t).value, Thunk(t.val[1], true), statement));
        }
      } else if t.kind == Code {
        r := Trigger(Code, TextArgs(CodeText(t.val), statement));
      } else if t.kind == Empty {
        r := Ok(Str([]));
      } else if t.kind == Params || t.kind == Blocks {
        r := Err(UnhandledToken(Some(t.kind)));
      } else {
        r := Trigger(t.kind, TextArgs(t.text, statement));
      }
    }

    /** `arguments` and `list`: the children walked in order. */
    method WalkItems(t: Tree, statement: bool) returns (r: Result<Value>)
      requires t.Node? && t.kind in {Arguments, List}
      modifies this, ids
      ensures Agrees(r, Semantics.WalkItems(EnvOf(), old(Abs()), t, statement), Abs())
      decreases t, 1
    {
      var items := WalkEach(t, 0);
      if items.Err? {
        r := Err(items.error);
      } else if t.kind == Arguments {
        r := Ok(Arr(items.value));
      } else {
        r := Trigger(List, ListArgs(items.value, statement));
      }
    }

    /** `val.forEach(item => items.push(walk(item)))` over `t.val[from..]`. */
    method WalkEach(t: Tree, from: nat) returns (r: Result<seq<Value>>)
      requires t.Node? && from <= |t.val|
      modifies this, ids
      ensures var spec := Semantics.WalkEach(EnvOf(), old(Abs()), t, from, |t.val|);
        (r.Err? <==> spec.Err?) && (r.Err? ==> r.error == spec.error) &&
        (r.Ok? ==> r.value == spec.value.values && Abs() == spec.value.state)
      decreases t, 0
    {
      ghost var env := EnvOf();
      ghost var s0 := Abs();
      var values: seq<Value> := [];
      var i := from;
      while i < |t.val|
        invariant from <= i <= |t.val|
        invariant Semantics.WalkEach(env, s0, t, from, i) == Ok(Items(values, Abs()))
        decreases |t.val| - i
      {
        var v := Walk(t.val[i], false);
        if v.Err? {
          WalkEachFails(env, s0, t, from, i + 1, |t.val|);
          return Err(v.error);
        }
        values := values + [v.value];
        i := i + 1;
      }
      return Ok(values);
    }

    /** `call`. */
    method WalkCall(t: Tree, statement: bool) returns (r: Result<Value>)
      requires t.Node? && t.kind == Call
      modifies this, ids
      ensures Agrees(r, Semantics.WalkCall(EnvOf(), old(Abs()), t, statement), Abs())
      decreases t, 1
    {
      if InnerText(t).None? {
        return Err(BadShape);
      }
      var params, blocks, err := CallParts(t);
      if err.Some? {
        return Err(err.value);
      }
      r := Trigger(Call, CallArgs(InnerText(t).value, params, blocks, statement));
    }

    /** The loop of `call` over the children after the name. */
    method CallParts(t: Tree) returns (params: Value, blocks: seq<Thunk>, err: Option<Error>)
      requires t.Node? && 1 <= |t.val|
      modifies this, ids
      ensures var spec := CallUpTo(EnvOf(), old(Abs()), t, |t.val|);
        (err.Some? <==> spec.Err?) && (err.Some? ==> err.value == spec.error) &&
        (err.None? ==> spec.value == CallAcc(params, blocks, Abs()))
      decreases t, 0
    {
      ghost var env := EnvOf();
      ghost var s0 := Abs();
      params := Arr([]);
      blocks := [];
      var i := 1;
      while i < |t.val|
        invariant 1 <= i <= |t.val|
        invariant CallUpTo(env, s0, t, i) == Ok(CallAcc(params, blocks, Abs()))
        decreases |t.val| - i
      {
        var item := t.val[i];
        if KeyOf(item) == Some(Arguments) {
          var v := Walk(item, false);
          if v.Err? {
            CallUpToFails(env, s0, t, i + 1, |t.val|);
            return params, blocks, Some(v.error);
          }
          params := v.value;
        } else {
          blocks := blocks + [Thunk(item, false)];
        }
        i := i + 1;
      }
      err := None;
    }

    /** `assignment`, `attribute` and `property`. */
    method WalkNamed(t: Tree, statement: bool) returns (r: Result<Value>)
      requires t.Node? && t.kind in {Assignment, Attribute, Property}
      modifies this, ids
      ensures Agrees(r, Semantics.WalkNamed(EnvOf(), old(Abs()), t, t.kind, statement), Abs())
      decreases t, 1
    {
      if InnerText(t).None? || |t.val| < 2 {
        return Err(BadShape);
      }
      var name := if t.kind == Assignment then Tail(InnerText(t).value) else InnerText(t).value;
      var v := Walk(t.val[1], false);
      if v.Err? {
        return Err(v.error);
      }
      r := Trigger(t.kind, NamedArgs(name, v.value, statement));
    }

    /** `define`: reads names only and walks nothing. */
    method WalkDefine(t: Tree, statement: bool) returns (r: Result<Value>)
      requires t.Node? && t.kind == Define
      modifies this
      ensures Agrees(r, Semantics.WalkDefine(EnvOf(), old(Abs()), t, statement), Abs())
    {
      if InnerText(t).None? {
        return Err(BadShape);
      }
      var params := LastOfKind(t.val, Params, |t.val| - 1);
      var slots := LastOfKind(t.val, Blocks, |t.val| - 1);
      var paramNames := if params.None? then Ok([]) else Names(params.value.val, true);
      var slotNames := if slots.None? then Ok([]) else Names(slots.value.val, false);
      if paramNames.Err? || slotNames.Err? {
        return Err(BadShape);
      }
      r := Trigger(Define, DefineArgs(InnerText(t).value, paramNames.value, slotNames.value,
        Thunk(t.val[|t.val| - 1], true), statement));
    }

    /** `variable`. */
    method WalkVariable(t: Tree, statement: bool) returns (r: Result<Value>)
      requires t.Node? && t.kind == Variable
      modifies this, ids
      ensures Agrees(r, Semantics.WalkVariable(EnvOf(), old(Abs()), t, statement), Abs())
      decreases t, 1
    {
      if FirstText(t).None? {
        return Err(BadShape);
      }
      var indices := WalkEach(t, 1);
      if indices.Err? {
        return Err(indices.error);
      }
      r := Trigger(Variable, VariableArgs(Tail(FirstText(t).value), indices.value, statement));
    }

    /** `directive`. */
    method WalkDirective(t: Tree, statement: bool) returns (r: Result<Value>)
      requires t.Node? && t.kind == Directive
      modifies this, ids
      ensures Agrees(r, Semantics.WalkDirective(EnvOf(), old(Abs()), t, statement), Abs())
      decreases t, 1
    {
      if FirstText(t).None? {
        return Err(BadShape);
      }
      var args, blocks, err := DirectiveParts(t);
      if err.Some? {
        return Err(err.value);
      }
      r := CallDirective(Tail(FirstText(t).value), DirectiveArgs(args, blocks, statement));
    }

    /** The loop of `directive` over the children after the name. */
    method DirectiveParts(t: Tree) returns (args: seq<Value>, blocks: seq<Thunk>, err: Option<Error>)
      requires t.Node?
      modifies this, ids
      ensures var spec := DirectiveUpTo(EnvOf(), old(Abs()), t, |t.val|);
        (err.Some? <==> spec.Err?) && (err.Some? ==> err.value == spec.error) &&
        (err.None? ==> spec.value == DirectiveAcc(args, blocks, Abs()))
      decreases t, 0
    {
      ghost var env := EnvOf();
      ghost var s0 := Abs();
      args := [];
      blocks := [];
      var i := if |t.val| == 0 then 0 else 1;
      while i < |t.val|
        invariant i <= |t.val| && (|t.val| > 0 ==> 1 <= i)
        invariant DirectiveUpTo(env, s0, t, i) == Ok(DirectiveAcc(args, blocks, Abs()))
        decreases |t.val| - i
      {
        var c := t.val[i];
        if KeyOf(c) == Some(Block) {
          blocks := blocks + [Thunk(c, false)];
        } else if !c.Node? {
          DirectiveUpToFails(env, s0, t, i + 1, |t.val|);
          return args, blocks, Some(BadShape);
        } else {
          var items := WalkEach(c, 0);
          if items.Err? {
            DirectiveUpToFails(env, s0, t, i + 1, |t.val|);
            return args, blocks, Some(items.error);
          }
          args := args + items.value;
        }
        i := i + 1;
      }
      err := None;
    }

    /** `block`: `val.forEach(token => context(walk(token, true)))`. */
    method WalkBlock(t: Tree, statement: bool) returns (r: Result<Value>)
      requires t.Node? && t.kind == Block
      modifies this, ids
      ensures var spec := Semantics.WalkBlock(EnvOf(), old(Abs()), t, |t.val|);
        (r.Err? <==> spec.Err?) && (r.Err? ==> r.error == spec.error) &&
        (r.Ok? ==> r.value == Undefined && Abs() == spec.value)
      decreases t, 1
    {
      ghost var env := EnvOf();
      ghost var s0 := Abs();
      var i := 0;
      while i < |t.val|
        invariant i <= |t.val|
        invariant Semantics.WalkBlock(env, s0, t, i) == Ok(Abs())
        decreases |t.val| - i
      {
        var v := Walk(t.val[i], true);
        if v.Err? {
          WalkBlockFails(env, s0, t, i + 1, |t.val|);
          return Err(v.error);
        }
        var _ := Context(v.value);
        i := i + 1;
      }
      return Ok(Undefined);
    }

    /** `string`. */
    method WalkString(t: Tree, statement: bool) returns (r: Result<Value>)
      requires t.Node? && t.kind == String
      modifies this, ids
      ensures Agrees(r, Semantics.WalkString(EnvOf(), old(Abs()), t, statement), Abs())
      decreases t, 1
    {
      var done, current, err := StringParts(t);
      if err.Some? {
        return Err(err.value);
      }
      var fragments := done + [Str(quote(current))];
      r := Trigger(String, TextArgs(JoinValues(fragments, JOINER), statement));
    }

    /** The loop of `string`: finished fragments and the literal run being read. */
    method StringParts(t: Tree) returns (done: seq<Value>, current: JsString, err: Option<Error>)
      requires t.Node?
      modifies this, ids
      ensures var spec := StringUpTo(EnvOf(), old(Abs()), t, |t.val|);
        (err.Some? <==> spec.Err?) && (err.Some? ==> err.value == spec.error) &&
        (err.None? ==> spec.value == StringAcc(done, current, Abs()))
      decreases t, 0
    {
      ghost var env := EnvOf();
      ghost var s0 := Abs();
      done := [];
      current := [];
      var i := 0;
      while i < |t.val|
        invariant i <= |t.val|
        invariant StringUpTo(env, s0, t, i) == Ok(StringAcc(done, current, Abs()))
        decreases |t.val| - i
      {
        var item := t.val[i];
        if item.Text? {
          current := current + item.s;
        } else {
          var v := Walk(item, false);
          if v.Err? {
            StringUpToFails(env, s0, t, i + 1, |t.val|);
            return done, current, Some(v.error);
          }
          done := done + [Str(quote(current)), v.value];
          current := [];
        }
        i := i + 1;
      }
      err := None;
    }

    /** The plugin switch. */
    method WalkPlugin(t: Tree) returns (r: Result<Value>)
      requires t.Node? && t.kind == Plugin
      modifies this, ids
      ensures Agrees(r, Semantics.WalkPlugin(EnvOf(), old(Abs()), t), Abs())
      decreases t, 1
    {
      if FirstText(t).None? {
        return Err(BadShape);
      }
      var name := Tail(FirstText(t).value);
      if name !in plugins {
        return Err(UnknownPlugin(name));
      }
      var p := plugins[name];
      var parent := if |stack| == 0 then None else Some(stack[|stack| - 1]);
      if |t.val| > 1 {
        var err := ScopedSwitch(t, p);
        if err.Some? {
          return Err(err.value);
        }
      } else {
        UnscopedSwitch(p);
      }
      var v := ParentResult(parent);
      return Ok(v);
    }

    /** `@name { … }`: push, `start`, the block, `stop`, pop. */
    method ScopedSwitch(t: Tree, p: Table) returns (err: Option<Error>)
      requires t.Node? && |t.val| > 1
      modifies this, ids
      ensures var spec := Semantics.ScopedSwitch(EnvOf(), old(Abs()), t, p);
        (err.Some? <==> spec.Err?) && (err.Some? ==> err.value == spec.error) &&
        (err.None? ==> spec.value == Abs())
      decreases t, 0
    {
      stack := stack + [p];
      Hook(p, START);
      var v := Walk(t.val[1], false);
      if v.Err? {
        return Some(v.error);
      }
      Hook(p, STOP);
      if |stack| > 0 {
        stack := stack[..|stack| - 1];
      }
      return None;
    }

    /** `@name` alone: stop and replace the top above the bottom entry, or push. */
    method UnscopedSwitch(p: Table)
      modifies this
      ensures Abs() == Semantics.UnscopedSwitch(EnvOf(), old(Abs()), p)
    {
      if |stack| > 1 {
        var top := stack[|stack| - 1];
        Hook(top, STOP);
        stack := stack[..|stack| - 1];
      }
      stack := stack + [p];
      Hook(p, START);
    }

    /** The value of a switch: what the former top's `plugin` handler returns, or `''`. */
    method ParentResult(parent: Option<Table>) returns (v: Value)
      modifies this
      ensures var spec := Semantics.ParentResult(EnvOf(), old(Abs()), parent);
        v == spec.value.value && Abs() == spec.value.state
    {
      v := Str([]);
      if parent.Some? && PLUGIN_HANDLER in parent.value.handlers {
        v := Invoke(parent.value.handlers[PLUGIN_HANDLER], ContextOnly);
        if v.Undefined? || v.Null? {
          v := Str([]);
        }
      }
    }

    // -------------------------------------------------------------------
    // A whole run

    /** The final unwind: `while (stack.length) { stack.pop() … stop }`. */
    method Unwind()
      modifies this
      ensures Abs() == Semantics.Unwind(EnvOf(), old(Abs()))
    {
      ghost var env := EnvOf();
      ghost var s0 := Abs();
      while |stack| > 0
        invariant Semantics.Unwind(env, Abs()) == Semantics.Unwind(env, s0)
        decreases |stack|
      {
        var top := stack[|stack| - 1];
        stack := stack[..|stack| - 1];
        Hook(top, STOP);
      }
    }

    /** `tokens.forEach(token => context(walk(token, true)))`. */
    method Statements(tokens: seq<Tree>) returns (err: Option<Error>)
      modifies this, ids
      ensures var spec := Semantics.Statements(EnvOf(), old(Abs()), tokens);
        (err.Some? <==> spec.Err?) && (err.Some? ==> err.value == spec.error) &&
        (err.None? ==> spec.value == Abs())
    {
      ghost var env := EnvOf();
      ghost var s0 := Abs();
      var i := 0;
      while i < |tokens|
        invariant i <= |tokens|
        invariant Semantics.Statements(env, s0, tokens[..i]) == Ok(Abs())
        decreases |tokens| - i
      {
        assert tokens[..i + 1][..i] == tokens[..i];
        var v := Walk(tokens[i], true);
        if v.Err? {
          StatementsFail(env, s0, tokens, i + 1);
          return Some(v.error);
        }
        var _ := Context(v.value);
        i := i + 1;
      }
      assert tokens[..|tokens|] == tokens;
      return None;
    }

    /** The lifecycle handler `key` of every given plugin, in `order`. */
    method Lifecycle(order: seq<JsString>, key: JsString)
      requires forall i | 0 <= i < |order| :: order[i] in plugins
      modifies this
      ensures Abs() == Semantics.Lifecycle(EnvOf(), old(Abs()), order, key)
    {
      ghost var env := EnvOf();
      ghost var s0 := Abs();
      var i := 0;
      while i < |order|
        invariant i <= |order|
        invariant Abs() == Semantics.Lifecycle(env, s0, order[..i], key)
        decreases |order| - i
      {
        assert order[..i + 1][..i] == order[..i];
        Hook(plugins[order[i]], key);
        i := i + 1;
      }
      assert order[..|order|] == order;
    }

    /** `runString` on the parsed statements. The text it returns is `text`
        afterwards. */
    method RunString(tokens: seq<Tree>, order: seq<JsString>, setup: bool) returns (r: Result<JsString>)
      requires forall i | 0 <= i < |order| :: order[i] in plugins
      modifies this, ids
      ensures var spec := Semantics.RunString(EnvOf(), tokens, order, setup, old(ids.id));
        (r.Err? <==> spec.Err?) && (r.Err? ==> r.error == spec.error) &&
        (r.Ok? ==> Abs() == spec.value && r.value == text)
    {
      stack := [DefaultTable()];
      text := [];
      trace := [];
      if setup {
        Lifecycle(order, INIT);
      }
      var err := Statements(tokens);
      if err.Some? {
        return Err(err.value);
      }
      if setup {
        Unwind();
        Lifecycle(order, EXIT);
      }
      return Ok(text);
    }
  }

  // ---------------------------------------------------------------------
  // Loop steps and early exits

  /** Once the collecting loop fails it stays failed with the same error. */
  lemma {:induction false} WalkEachFails(env: Env, s: State, t: Tree, from: nat, i: nat, n: nat)
    requires t.Node? && from <= i <= n <= |t.val| && Semantics.WalkEach(env, s, t, from, i).Err?
    ensures Semantics.WalkEach(env, s, t, from, n) == Semantics.WalkEach(env, s, t, from, i)
    decreases n
  {
    if n > i { WalkEachFails(env, s, t, from, i, n - 1); }
  }

  lemma {:induction false} CallUpToFails(env: Env, s: State, t: Tree, i: nat, n: nat)
    requires t.Node? && 1 <= i <= n <= |t.val| && CallUpTo(env, s, t, i).Err?
    ensures CallUpTo(env, s, t, n) == CallUpTo(env, s, t, i)
    decreases n
  {
    if n > i { CallUpToFails(env, s, t, i, n - 1); }
  }

  lemma {:induction false} DirectiveUpToFails(env: Env, s: State, t: Tree, i: nat, n: nat)
    requires t.Node? && i <= n <= |t.val| && DirectiveUpTo(env, s, t, i).Err?
    ensures DirectiveUpTo(env, s, t, n) == DirectiveUpTo(env, s, t, i)
    decreases n
  {
    if n > i { DirectiveUpToFails(env, s, t, i, n - 1); }
  }

  lemma {:induction false} WalkBlockFails(env: Env, s: State, t: Tree, i: nat, n: nat)
    requires t.Node? && i <= n <= |t.val| && Semantics.WalkBlock(env, s, t, i).Err?
    ensures Semantics.WalkBlock(env, s, t, n) == Semantics.WalkBlock(env, s, t, i)
    decreases n
  {
    if n > i { WalkBlockFails(env, s, t, i, n - 1); }
  }

  lemma {:induction false} StringUpToFails(env: Env, s: State, t: Tree, i: nat, n: nat)
    requires t.Node? && i <= n <= |t.val| && StringUpTo(env, s, t, i).Err?
    ensures StringUpTo(env, s, t, n) == StringUpTo(env, s, t, i)
    decreases n
  {
    if n > i { StringUpToFails(env, s, t, i, n - 1); }
  }

  lemma {:induction false} StatementsFail(env: Env, s: State, tokens: seq<Tree>, i: nat)
    requires i <= |tokens| && Statements(env, s, tokens[..i]).Err?
    ensures Statements(env, s, tokens) == Statements(env, s, tokens[..i])
    decreases |tokens| - i
  {
    if i < |tokens| {
      assert tokens[..i + 1][..i] == tokens[..i];
      StatementsFail(env, s, tokens, i + 1);
    } else {
      assert tokens[..i] == tokens;
    }
  }
}
