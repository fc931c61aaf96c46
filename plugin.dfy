/** Plugins and the dispatch stack: a plugin is two mutable tables, one of
    directives (`set`) and one of token handlers (`on`); `trigger` and
    `directive` search a stack of plugins from the top down. */
module Plugins {
  import opened Units

  /** A host function registered with a plugin. What it computes is the
      host's business; the model only identifies it. */
  datatype HostFn = HostFn(id: nat)

  /** The contents of one plugin at a moment: its directive and handler tables. */
  datatype Table = Table(directives: map<JsString, HostFn>, handlers: map<JsString, HostFn>)

  class Plugin {
    var directives: map<JsString, HostFn>
    var handlers: map<JsString, HostFn>

    /** A plugin starts with two empty tables. */
    constructor()
      ensures directives == map[] && handlers == map[]
    {
      directives := map[];
      handlers := map[];
    }

    /** `set(name, handler)`: registers (or replaces) a directive and returns
        the plugin itself, so that calls chain. */
    method Set(name: JsString, fn: HostFn) returns (self: Plugin)
      modifies this
      ensures self == this
      ensures directives == old(directives)[name := fn]
      ensures handlers == old(handlers)
    {
      directives := directives[name := fn];
      self := this;
    }

    /** `on(name, handler)`: registers (or replaces) a token or lifecycle
        handler and returns the plugin itself. */
    method On(name: JsString, fn: HostFn) returns (self: Plugin)
      modifies this
      ensures self == this
      ensures handlers == old(handlers)[name := fn]
      ensures directives == old(directives)
    {
      handlers := handlers[name := fn];
      self := this;
    }

    /** `directive(name)`, reading only the plugin's own entries. It agrees
        with the property read the source does on every name outside
        `Object.prototype`, and misses the names inherited from there
        (`ResolveAsWritten` is the lookup as written). */
    function Directive(name: JsString): (r: Option<HostFn>)
      reads this
      ensures r.Some? <==> name in directives
      ensures name !in PrototypeNames() ==>
        PropertyRead(directives, name) == (if r.Some? then Some(OwnEntry(r.value)) else None)
      ensures name in PrototypeNames() && r.None? ==> PropertyRead(directives, name) == Some(Inherited(name))
    {
      if name in directives then Some(directives[name]) else None
    }

    /** `handler(name)`, reading only the plugin's own entries, in the
        same relation to the source's property read as `Directive`. */
    function Handler(name: JsString): (r: Option<HostFn>)
      reads this
      ensures r.Some? <==> name in handlers
      ensures name !in PrototypeNames() ==>
        PropertyRead(handlers, name) == (if r.Some? then Some(OwnEntry(r.value)) else None)
      ensures name in PrototypeNames() && r.None? ==> PropertyRead(handlers, name) == Some(Inherited(name))
    {
      if name in handlers then Some(handlers[name]) else None
    }

    function View(): Table
      reads this
    {
      Table(directives, handlers)
    }
  }

  /** An own-property read of a table. */
  function Own(m: map<JsString, HostFn>, name: JsString): (r: Option<HostFn>)
    ensures r.Some? <==> name in m
    ensures r.Some? ==> r.value == m[name]
  {
    if name in m then Some(m[name]) else None
  }

  /** A registration as a value: what `set` does to a plugin's contents. */
  function SetEntry(t: Table, name: JsString, fn: HostFn): (r: Table)
    ensures Own(r.directives, name) == Some(fn)
    ensures forall other | other != name :: Own(r.directives, other) == Own(t.directives, other)
    ensures r.handlers == t.handlers
  {
    t.(directives := t.directives[name := fn])
  }

  /** What `on` does to a plugin's contents. */
  function OnEntry(t: Table, name: JsString, fn: HostFn): (r: Table)
    ensures Own(r.handlers, name) == Some(fn)
    ensures forall other | other != name :: Own(r.handlers, other) == Own(t.handlers, other)
    ensures r.directives == t.directives
  {
    t.(handlers := t.handlers[name := fn])
  }

  // ---------------------------------------------------------------------
  // Top-down resolution over a stack

  /** The loop of `trigger` and `directive`: the entry of the highest
      table that defines `name`; `None` is the case in which they throw. */
  function Resolve(tables: seq<map<JsString, HostFn>>, name: JsString): Option<HostFn>
    decreases |tables|
  {
    if |tables| == 0 then None
    else if name in tables[|tables| - 1] then Some(tables[|tables| - 1][name])
    else Resolve(tables[..|tables| - 1], name)
  }

  /** The lookup fails exactly when no table defines the name, and
      otherwise yields the entry of a table that defines it with no table
      above it doing so. */
  lemma {:induction false} ResolveFindsHighest(tables: seq<map<JsString, HostFn>>, name: JsString)
    ensures Resolve(tables, name).None? <==> forall i | 0 <= i < |tables| :: name !in tables[i]
    ensures Resolve(tables, name).Some? ==> exists i | 0 <= i < |tables| ::
      name in tables[i] && Resolve(tables, name).value == tables[i][name] && forall j | i < j < |tables| :: name !in tables[j]
    decreases |tables|
  {
    if |tables| > 0 {
      var last := |tables| - 1;
      if name in tables[last] {
        assert name in tables[last] && Resolve(tables, name).value == tables[last][name];
      } else {
        var below := tables[..last];
        ResolveFindsHighest(below, name);
        assert forall i | 0 <= i < last :: below[i] == tables[i];
        if Resolve(below, name).Some? {
          var i :| 0 <= i < |below| && name in below[i] && Resolve(below, name).value == below[i][name]
            && forall j | i < j < |below| :: name !in below[j];
          assert name in tables[i] && Resolve(tables, name).value == tables[i][name];
        }
      }
    }
  }

  function HandlerTables(stack: seq<Table>): (r: seq<map<JsString, HostFn>>)
    ensures |r| == |stack| && forall i | 0 <= i < |stack| :: r[i] == stack[i].handlers
  {
    seq(|stack|, i requires 0 <= i < |stack| => stack[i].handlers)
  }

  function DirectiveTables(stack: seq<Table>): (r: seq<map<JsString, HostFn>>)
    ensures |r| == |stack| && forall i | 0 <= i < |stack| :: r[i] == stack[i].directives
  {
    seq(|stack|, i requires 0 <= i < |stack| => stack[i].directives)
  }

  /** `trigger`'s lookup of a handler. */
  function ResolveHandler(stack: seq<Table>, name: JsString): Option<HostFn> {
    Resolve(HandlerTables(stack), name)
  }

  /** `directive`'s lookup of a directive. */
  function ResolveDirective(stack: seq<Table>, name: JsString): Option<HostFn> {
    Resolve(DirectiveTables(stack), name)
  }

  /** The resolved entry is the one at the highest position that defines it. */
  lemma ResolveHighest(tables: seq<map<JsString, HostFn>>, name: JsString, i: nat)
    requires i < |tables| && name in tables[i]
    requires forall j | i < j < |tables| :: name !in tables[j]
    ensures Resolve(tables, name) == Some(tables[i][name])
  {
    ResolveFindsHighest(tables, name);
    var r := Resolve(tables, name);
    var k :| 0 <= k < |tables| && name in tables[k] && r.value == tables[k][name]
      && forall j | k < j < |tables| :: name !in tables[j];
    assert k == i;
  }

  /** Pushing a table that does not define the name changes nothing. */
  lemma PushWithout(tables: seq<map<JsString, HostFn>>, m: map<JsString, HostFn>, name: JsString)
    requires name !in m
    ensures Resolve(tables + [m], name) == Resolve(tables, name)
  {
    assert (tables + [m])[..|tables|] == tables;
  }

  /** Pushing a table that defines the name makes its entry win. */
  lemma PushWith(tables: seq<map<JsString, HostFn>>, m: map<JsString, HostFn>, name: JsString)
    requires name in m
    ensures Resolve(tables + [m], name) == Some(m[name])
  {
  }

  /** Resolution over a stack only looks at what the tables hold, so the
      stack-level lookups inherit the push laws. */
  lemma PushPlugin(stack: seq<Table>, p: Table, name: JsString)
    ensures name !in p.handlers ==> ResolveHandler(stack + [p], name) == ResolveHandler(stack, name)
    ensures name in p.handlers ==> ResolveHandler(stack + [p], name) == Some(p.handlers[name])
    ensures name !in p.directives ==> ResolveDirective(stack + [p], name) == ResolveDirective(stack, name)
    ensures name in p.directives ==> ResolveDirective(stack + [p], name) == Some(p.directives[name])
  {
    assert HandlerTables(stack + [p]) == HandlerTables(stack) + [p.handlers];
    assert DirectiveTables(stack + [p]) == DirectiveTables(stack) + [p.directives];
    if name !in p.handlers { PushWithout(HandlerTables(stack), p.handlers, name); }
    if name !in p.directives { PushWithout(DirectiveTables(stack), p.directives, name); }
  }

  // ---------------------------------------------------------------------
  // The default backend

  const STRING_FN := HostFn(0)
  const NUMBER_FN := HostFn(1)
  const REGEX_FN := HostFn(2)
  const COLOR_FN := HostFn(3)
  const LIST_FN := HostFn(4)
  const CODE_FN := HostFn(5)
  const IDENTIFIER_FN := HostFn(6)
  const BOOLEAN_FN := HostFn(7)
  const LOG_FN := HostFn(8)
  const ERROR_FN := HostFn(9)
  const EXIT_FN := HostFn(10)
  const USE_FN := HostFn(11)

  /** The plugin `runString` puts at the bottom of a fresh stack: handlers
      for the literal kinds and the `log`, `error`, `exit` and `use`
      directives; no lifecycle handlers. */
  function DefaultTable(): Table {
    Table(
      map[Lit("log") := LOG_FN, Lit("error") := ERROR_FN, Lit("exit") := EXIT_FN, Lit("use") := USE_FN],
      map[Lit("string") := STRING_FN, Lit("number") := NUMBER_FN, Lit("regex") := REGEX_FN,
          Lit("color") := COLOR_FN, Lit("list") := LIST_FN, Lit("code") := CODE_FN,
          Lit("identifier") := IDENTIFIER_FN, Lit("boolean") := BOOLEAN_FN])
  }

  /** `new Plugin()` followed by the chain of `on` and `set` calls that
      builds the default backend. */
  method NewDefault() returns (p: Plugin)
    ensures fresh(p)
    ensures p.View() == DefaultTable()
  {
    p := new Plugin();
    p := p.On(Lit("string"), STRING_FN);
    p := p.On(Lit("number"), NUMBER_FN);
    p := p.On(Lit("regex"), REGEX_FN);
    p := p.On(Lit("color"), COLOR_FN);
    p := p.On(Lit("list"), LIST_FN);
    p := p.On(Lit("code"), CODE_FN);
    p := p.On(Lit("identifier"), IDENTIFIER_FN);
    p := p.On(Lit("boolean"), BOOLEAN_FN);
    p := p.Set(Lit("log"), LOG_FN);
    p := p.Set(Lit("error"), ERROR_FN);
    p := p.Set(Lit("exit"), EXIT_FN);
    p := p.Set(Lit("use"), USE_FN);
  }

  // ---------------------------------------------------------------------
  // The lookup as written: property reads on plain objects

  /** The properties every plain object `{}` inherits from
      `Object.prototype` in Node.js. */
  function PrototypeNames(): set<JsString> {
    {Lit("constructor"), Lit("toString"), Lit("toLocaleString"), Lit("valueOf"),
     Lit("hasOwnProperty"), Lit("isPrototypeOf"), Lit("propertyIsEnumerable"),
     Lit("__proto__"), Lit("__defineGetter__"), Lit("__defineSetter__"),
     Lit("__lookupGetter__"), Lit("__lookupSetter__")}
  }

  /** What `this.directives[name]` yields: an own entry, an inherited
      member of `Object.prototype`, or `undefined`. */
  datatype Entry = OwnEntry(fn: HostFn) | Inherited(name: JsString)

  function PropertyRead(m: map<JsString, HostFn>, name: JsString): (r: Option<Entry>)
    ensures r.None? <==> name !in m && name !in PrototypeNames()
  {
    if name in m then Some(OwnEntry(m[name]))
    else if name in PrototypeNames() then Some(Inherited(name))
    else None
  }

  /** The loop of `directive` over plain-object tables, as written. */
  function ResolveAsWritten(tables: seq<map<JsString, HostFn>>, name: JsString): (r: Option<Entry>)
    decreases |tables|
  {
    if |tables| == 0 then None
    else if PropertyRead(tables[|tables| - 1], name).Some? then PropertyRead(tables[|tables| - 1], name)
    else ResolveAsWritten(tables[..|tables| - 1], name)
  }

  /** For every name outside `Object.prototype` the written lookup is the
      own-entry lookup. */
  lemma {:induction false} AsWrittenAgrees(tables: seq<map<JsString, HostFn>>, name: JsString)
    requires name !in PrototypeNames()
    ensures ResolveAsWritten(tables, name).None? <==> Resolve(tables, name).None?
    ensures Resolve(tables, name).Some? ==> ResolveAsWritten(tables, name) == Some(OwnEntry(Resolve(tables, name).value))
    decreases |tables|
  {
    if |tables| > 0 && name !in tables[|tables| - 1] {
      AsWrittenAgrees(tables[..|tables| - 1], name);
    }
  }

  /** An inherited name resolves at the top of any non-empty stack, so
      `#constructor` never reaches the "could not be found" error and a
      plugin lower down that registers `constructor` is never consulted. */
  lemma PrototypeNameShadows(tables: seq<map<JsString, HostFn>>, name: JsString)
    requires |tables| > 0 && name in PrototypeNames() && name !in tables[|tables| - 1]
    ensures ResolveAsWritten(tables, name) == Some(Inherited(name))
  {
  }

  /** The concrete case: `#constructor` against the default stack. */
  lemma ConstructorDirective()
    ensures ResolveDirective([DefaultTable()], Lit("constructor")).None?
    ensures ResolveAsWritten(DirectiveTables([DefaultTable()]), Lit("constructor")) == Some(Inherited(Lit("constructor")))
  {
    var c := Lit("constructor");
    assert c != Lit("log") && c != Lit("error") && c != Lit("exit") && c != Lit("use") by {
      assert |c| != |Lit("log")| && |c| != |Lit("error")| && |c| != |Lit("exit")| && |c| != |Lit("use")|;
    }
    assert c !in DefaultTable().directives;
    PrototypeNameShadows(DirectiveTables([DefaultTable()]), c);
  }
}
