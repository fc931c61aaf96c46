/** The tagged tree the parser produces, the values the walker computes,
    and the arguments the walker hands to host handlers. */
module Syntax {
  import opened Units

  /** The node kinds the grammar's `Wrap` rules tag, plus `Boolean`, which
      the walker and the default backend handle but no grammar rule produces. */
  datatype Kind =
    | String | Number | Regex | Color | Boolean | List | Empty | Code
    | Identifier | Variable | Call | Define | Element | Property | Attribute
    | Assignment | Directive | Plugin | Block | Arguments | Params | Blocks

  /** The key a node carries and under which its handler is registered. */
  function KeyName(k: Kind): JsString {
    match k
    case String => Lit("string")
    case Number => Lit("number")
    case Regex => Lit("regex")
    case Color => Lit("color")
    case Boolean => Lit("boolean")
    case List => Lit("list")
    case Empty => Lit("empty")
    case Code => Lit("code")
    case Identifier => Lit("identifier")
    case Variable => Lit("variable")
    case Call => Lit("call")
    case Define => Lit("define")
    case Element => Lit("element")
    case Property => Lit("property")
    case Attribute => Lit("attribute")
    case Assignment => Lit("assignment")
    case Directive => Lit("directive")
    case Plugin => Lit("plugin")
    case Block => Lit("block")
    case Arguments => Lit("arguments")
    case Params => Lit("params")
    case Blocks => Lit("blocks")
  }

  /** One entry of a node's `val` list. Inside a `string` node the decoded
      characters are plain JavaScript strings (`Text`); everything else the
      parser produces is an object: a matched `Token`, or a tagged `Node`
      with its children and the text it spans. */
  datatype Tree =
    | Text(s: JsString)
    | Token(text: JsString)
    | Node(kind: Kind, val: seq<Tree>, text: JsString)

  /** `item.key`: only tagged nodes have one. */
  function KeyOf(t: Tree): Option<Kind> {
    if t.Node? then Some(t.kind) else None
  }

  /** `item.text`: tokens and nodes have one, a bare string does not. */
  function TextOf(t: Tree): Option<JsString> {
    match t
    case Text(_) => None
    case Token(x) => Some(x)
    case Node(_, _, x) => Some(x)
  }

  /** `node.val[0].text`: the text of the first child. */
  function FirstText(t: Tree): Option<JsString> {
    if t.Node? && |t.val| > 0 then TextOf(t.val[0]) else None
  }

  /** `node.val[0].val[0].text`: the text of the first child's first child,
      which is where the walker reads an identifier's or a variable's name. */
  function InnerText(t: Tree): Option<JsString> {
    if t.Node? && |t.val| > 0 then FirstText(t.val[0]) else None
  }

  /** What walking a node gives back to its parent. Host handlers may return
      any of these too. */
  datatype Value = Undefined | Null | Str(s: JsString) | Arr(items: seq<Value>)

  /** JavaScript's string conversion of a value (`${v}`); an array is joined
      with `,`, its `undefined` and `null` elements rendering as nothing. */
  function ToText(v: Value): (r: JsString)
    ensures v.Str? ==> r == v.s
    ensures v.Arr? ==> r == JoinValues(v.items, Lit(","))
    ensures v.Arr? && |v.items| == 0 ==> r == []
    ensures v.Arr? && |v.items| == 1 ==> r == JoinPart(v.items[0])
    decreases v, 0
  {
    match v
    case Undefined => Lit("undefined")
    case Null => Lit("null")
    case Str(s) => s
    case Arr(xs) => Join(seq(|xs|, i requires 0 <= i < |xs| => JoinPart(xs[i])), Lit(","))
  }

  /** How `Array.prototype.join` renders one element. */
  function JoinPart(v: Value): JsString
    decreases v, 1
  {
    if v.Undefined? || v.Null? then [] else ToText(v)
  }

  /** `values.join(sep)`. */
  function JoinValues(vs: seq<Value>, sep: JsString): (r: JsString)
    ensures |vs| == 0 ==> r == []
    ensures |vs| == 1 ==> r == JoinPart(vs[0])
  {
    Join(seq(|vs|, i requires 0 <= i < |vs| => JoinPart(vs[i])), sep)
  }

  /** A deferred walk of a subtree (`() => walk(node, statement)`), as the
      walker hands it to a handler. The engine never runs it itself. */
  datatype Thunk = Thunk(node: Tree, statement: bool)

  /** The arguments a host function receives after the shared context. */
  datatype Args =
    | CallArgs(name: JsString, params: Value, blocks: seq<Thunk>, statement: bool)
    | DefineArgs(name: JsString, paramNames: seq<JsString>, slots: seq<JsString>, body: Thunk, statement: bool)
    | NamedArgs(name: JsString, value: Value, statement: bool)
    | VariableArgs(name: JsString, indices: seq<Value>, statement: bool)
    | IdentifierArgs(name: JsString, statement: bool)
    | DirectiveArgs(args: seq<Value>, blocks: seq<Thunk>, statement: bool)
    | ElementArgs(name: JsString, body: Thunk, statement: bool)
    | ListArgs(items: seq<Value>, statement: bool)
    | TextArgs(text: JsString, statement: bool)
    | ContextOnly
}
