# Zyne compiler front-end, modelled in Dafny

Zyne is a small scripting language that compiles to JavaScript through
plugins. `index.js` holds the front end. Its grammar turns a script into a
tagged tree. `runString` then walks that tree. Each node kind is dispatched
to a *handler*, and each `#name` to a *directive*. Both are looked up on a
stack of `Plugin` objects, from the top down. Whatever a top-level
statement returns is fed to a *context* function. The context appends the
result to the output text, or mints a fresh id `_zyne_N` when the result
is `undefined`.

The project models that core in eight modules:

- `Units` (`units.dfy`): JavaScript strings as sequences of UTF-16 code
  units. Also `slice(1)` and the decimal rendering of the id counter.
- `Tokens` (`tokens.dfy`): the integer-literal rules in four bases, each
  with a Big (`n`-suffixed) form. The `number` rule's ordered choice, the
  word-boundary guard around numbers in `item`, and the name tokens
  (identifier, `$variable`, `#directive`, `@plugin`, colour). Each rule is
  stated twice. It is a language ("Shape", a predicate on a whole token)
  and an anchored matcher ("Match"). Lemmas tie the two together.
- `Syntax` (`syntax.dfy`): the tagged tree, the values a walk computes, and
  the argument records handed to host functions.
- `Escapes` (`escapes.dfy`): the literal decoders. These are the escape
  sequences, line continuation, the `[: … :]` raw-code segment, and the
  per-character loop of the three kinds of string literal. Each has an
  encoder that serves as its round-trip partner.
- `Plugins` (`plugin.dfy`): the mutable `Plugin` class (`set`, `on`,
  `directive`, `handler`), its value snapshot `Table`, the top-down lookup
  `Resolve`, and the default backend plugin.
- `Semantics` (`semantics.dfy`): the walker, the context sink, the plugin
  activation state machine, the final unwind and a whole `runString`. All of
  these are written as functions of an explicit state: the stack, the
  collected text, the id counter, and a trace of every host invocation with
  its arguments.
- `Properties` (`properties.dfy`): what the walker promises, stated and
  proved on `Semantics`. This covers scoped and unscoped switches, string
  composition, names passed to handlers, arguments versus block thunks,
  minted ids and the unwind order.
- `Runtime` (`runtime.dfy`): the imperative run. A `Runner` object holds
  the dispatch stack, the text buffer and the host trace as fields. A shared
  `IdCounter` stands for the module-global `id`. The methods are `Trigger`
  and `CallDirective` (top-down loops), the walker, the push/pop plugin
  cases, the unwind loop and `RunString`. Each one is proved to leave
  exactly the state, and return exactly the value, that the `Semantics`
  function gives.

Host handlers are uninterpreted. The environment supplies
`host: (HostFn, Args) -> Value`, and every call is recorded as
`Invoked(fn, args)` in the trace. The lemmas can therefore say which handler
was called, with which name, arguments and thunks, and in which order.

## Model

| member | source | states |
|---|---|---|
| Units.Tail | index.js:509 | `slice(1)`: on a non-empty string the result is what follows the first code unit; on the empty string it is empty |
| Units.Decimal | index.js:431 | the rendering of the id counter is a non-empty run of decimal digits with no leading zero |
| Units.DecimalRoundTrip | index.js:431 | reading back the rendered counter gives the counter |
| Units.DecimalInjective | index.js:431 | different counter values render as different texts |
| Tokens.ShapeExact | index.js:128-136 | a base form's matcher consumes the whole token exactly when the token has that form's shape: `0`, or `[1-9][0-9_]*`; for `0x`/`0o`/`0b`, the prefix, one genuine digit, then digits or `_`; a Big form is its base shape plus `n` |
| Tokens.MatchFormPrefix | index.js:133-136 | a base form matches `u` exactly when it matches `u` followed by `n` up to the same length |
| Tokens.SpanExtend | index.js:130-132 | a character-class run stops at a character outside the class |
| Tokens.MatchedShape | index.js:128-136 | whatever prefix a form's matcher takes has that form's shape |
| Tokens.NumberIsWord | index.js:378-382 | every code unit of a matched number is a word character, so the boundary guard inspects only the characters around it |
| Tokens.NumberSound | index.js:169-178 | a `number` match is produced by the first form in the rule's order that matches, and the matched text has that form's shape |
| Tokens.FirstFormSound | index.js:169-178 | the ordered choice returns the first alternative from position `k0` that matches, and every earlier alternative fails |
| Tokens.FirstFormAt | index.js:169-178 | if the alternatives before `k` fail and alternative `k` matches, the ordered choice returns alternative `k` |
| Tokens.FirstFormSkip | index.js:169-178 | a failing alternative passes the choice on to the next one |
| Tokens.FirstFormHit | index.js:169-178 | a matching alternative ends the choice |
| Tokens.BigOf | index.js:133-136 | each base form has a Big form whose base is that form |
| Tokens.BigFormsFirst | index.js:169-178 | a base literal followed by `n` is read as the Big form, the `n` included, because the Big forms are tried first |
| Tokens.BigHexFirst | index.js:170 | a hexadecimal literal followed by `n` is read as BigHex |
| Tokens.BigOctalFirst | index.js:171 | an octal literal followed by `n` is read as BigOctal |
| Tokens.BigBinaryFirst | index.js:172 | a binary literal followed by `n` is read as BigBinary |
| Tokens.BigDecimalFirst | index.js:173 | a decimal literal followed by `n` is read as BigDecimal |
| Tokens.DecimalNotPrefixed | index.js:128-132 | a decimal literal followed by `n` is not also a prefixed literal |
| Tokens.BigExtendsBase | index.js:133-136 | the Big form matches one unit further than its base, over the `n` |
| Tokens.BigFailsWithBase | index.js:133-136 | a Big form cannot match where its base form does not |
| Tokens.LeadingZeroRejected | index.js:378-382 | a `0` followed by a digit (as in `007`) is rejected by the boundary-guarded number item |
| Tokens.HexSeparatorFirstRejected | index.js:130 | `0x_…` is rejected: a genuine hex digit must follow the prefix |
| Tokens.OctalReadWhole | index.js:131 | a whole octal literal is read entirely as Octal, not as a shorter decimal `0` |
| Tokens.OctalLeadingZeros | index.js:131 | `0o007` is one octal literal of five units, even standing alone as an item |
| Tokens.SegmentsEnd | index.js:206 | the hyphen-joined run stops strictly after its start and within the text |
| Tokens.SegmentsSound | index.js:206-209 | what the name matcher takes is a hyphen-joined run of segments, and it is maximal: it cannot be extended by more class characters or by another `-segment` |
| Tokens.RunJoined | index.js:206 | a plain run of class characters is hyphen-joined |
| Tokens.JoinRun | index.js:206 | a run, a hyphen and a hyphen-joined tail form a hyphen-joined text |
| Tokens.SegmentsComplete | index.js:206-209 | on a text that is wholly hyphen-joined, the matcher takes all of it |
| Tokens.IdentifierExact | index.js:206 | the identifier matcher takes the whole token exactly when the token is hyphen-joined word segments |
| Tokens.SigilNameStripped | index.js:188-200 | a `#name` or `@name` match is the sigil followed by a hyphen-joined name, which is what the walker keeps after `slice(1)` |
| Tokens.IdentifierCoversNumber | index.js:365-382 | wherever a number matches, the identifier rule, which `item` tries first, matches at least as far |
| Tokens.ColorCoversHexDirective | index.js:365-368 | a `#` name whose first three units are hex digits also matches `color`, which `item` tries before `directive` |
| Tokens.MatchForm | index.js:128-136 | a successful integer-form matcher consumes at least one unit and stays within the text |
| Tokens.FirstForm | index.js:169-178 | the ordered choice from alternative `k` returns a form together with what that form's own matcher consumes, and fails only when every alternative from `k` on fails |
| Tokens.MatchNumber | index.js:169-178 | a `number` match is a form and a length within the text that the form's matcher gives; no match means that all eight forms fail |
| Tokens.MatchNumberItem | index.js:378-382 | the boundary-guarded number item succeeds exactly when the `number` rule matches, the unit before it is not a word character and the unit after the match is not a word character; it then returns the `number` match |
| Tokens.MatchName | index.js:188-209 | a name match fails exactly when the sigil or the first name character is missing; otherwise it ends after the start, within the text, and spans a hyphen-joined run |
| Tokens.MatchIdentifier | index.js:206 | an identifier matches exactly when the text starts with a word character, and then spans hyphen-joined word runs |
| Tokens.MatchVariableName | index.js:209 | a variable name matches exactly when `$` is followed by a word character, and then spans `$` and hyphen-joined word runs |
| Tokens.MatchDirectiveName | index.js:189 | a directive name matches exactly when `#` is followed by a letter or `_`, and then spans `#` and hyphen-joined runs of `[a-zA-Z_]` |
| Tokens.MatchPluginName | index.js:200 | a plugin reference matches exactly when `@` is followed by a letter or `_`, and then spans `@` and hyphen-joined runs of `[a-zA-Z_]` |
| Tokens.MatchColor | index.js:207 | a colour match is `#` and three or six hexadecimal digits within the text; it takes six whenever six are there, and fails only when not even three are |
| Tokens.ColorExact | index.js:207 | the colour matcher takes the whole token exactly when the token is `#` followed by three or six hexadecimal digits |
| Escapes.HexDigitValue | index.js:122 | a genuine hex digit has a value below 16 |
| Escapes.ParseHex | index.js:79 | `parseInt(text, 16)` on `HexDigit` text is `NaN` exactly when the text is empty or its first unit is `_` |
| Escapes.FromCharCode | index.js:79 | `String.fromCharCode` keeps the code modulo 65536, and gives U+0000 for `NaN` |
| Escapes.StripNonHex | index.js:88 | the stripped text holds only genuine hex digits and is no longer than its input |
| Escapes.MatchUnicode | index.js:82-85 | a unicode escape spans at least three units and stays within the text |
| Escapes.DecodeEscape | index.js:59-72 | a decoded escape consumes at least one unit and stays within the text |
| Escapes.SingleEscape | index.js:93-110 | a single escape stands for itself exactly when it is `` ` ``, `'`, `"` or `\`; every other single escape stands for a control character below U+0020 |
| Escapes.HexEscapeUnit | index.js:73-81 | a hex escape yields a unit below U+0100, and U+0000 when its first digit is `_` |
| Escapes.HexPairBound | index.js:73-81 | two digits parse to a value below 256, so `fromCharCode` does not wrap them |
| Escapes.UnicodeEscapeUnit | index.js:82-92 | a unicode escape without genuine digits yields U+0000; with one to four genuine digits it yields their base-16 value, unwrapped |
| Escapes.FourDigitsFit | index.js:82-92 | up to four hex digits have a value below 65536 |
| Escapes.DecodeBody | index.js:19-58 | a closed literal body ends within the text on the closing delimiter; an interpolation stops at a backslash within the text |
| Escapes.EscapeClasses | index.js:93-117 | a single escape is never a pass-through character; a unit passes through exactly when it is outside `` `'"\bfnrtv0-9xu ``, CR, LF, `(` and `{` |
| Escapes.SingleEscapeTable | index.js:93-110 | `` ` ``, `'`, `"` and `\` decode to themselves; `b`, `f`, `n`, `r`, `t`, `v` and `0` decode to U+0008, U+000C, U+000A, U+000D, U+0009, U+000B and U+0000; nothing else is a single escape |
| Escapes.NonEscapeIsItself | index.js:111-117 | a pass-through character decodes to itself, one unit long |
| Escapes.HexEscapeValue | index.js:73-81 | `\xHH` with genuine digits is the unit `16 * H1 + H2` |
| Escapes.HexEscapeSeparator | index.js:73-81 | the hex escape does not strip `_`: `\x_D` gives U+0000 and `\xD_` gives the first digit's value |
| Escapes.StripConcat | index.js:88 | stripping distributes over concatenation |
| Escapes.UnicodeIgnoresSeparator | index.js:88 | an `_` anywhere in a unicode escape does not change its value |
| Escapes.UnicodeFourDigits | index.js:83 | `uHHHH` decodes, five units long, to the value of its four digits |
| Escapes.MatchBraces | index.js:84-85 | `u{…}` with one or more `HexDigit`s spans the digits and the three delimiters |
| Escapes.StripBraces | index.js:88 | stripping drops the `u` and the braces |
| Escapes.DecodeUnicode | index.js:82-92 | a unicode escape decodes to the stripped, base-16, modulo-65536 value of the text it matched |
| Escapes.UnicodeBraces | index.js:84-90 | `u{H…}` decodes to the digits' value modulo 65536 |
| Escapes.UnicodeSpellingsOfA | index.js:82-92 | `\u0041`, `\u{41}` and `\u{4_1}` all decode to `A` |
| Escapes.HexValueOfA | index.js:88-90 | the digits `41` and `0041` are both 0x41 |
| Escapes.FourDigitsOfA | index.js:83 | `\u0041` decodes to `A` |
| Escapes.BracesOfA | index.js:85 | `\u{41}` decodes to `A` |
| Escapes.SeparatedA | index.js:84-88 | `\u{4_1}` decodes to `A`, six units long |
| Escapes.StripGenuine | index.js:88 | stripping leaves genuine digits untouched |
| Escapes.HexValueBound | index.js:88-90 | n hex digits have a value below 16^n |
| Escapes.SpanOver | index.js:122 | a run of class units ended by a unit outside the class is spanned exactly |
| Escapes.ScanCode | index.js:354-364 | a scanned raw-code segment consumes at least the closing `:]` and stays within the text |
| Escapes.EncodeCode | index.js:354-364 | the escaping encoder starts every non-empty text with a backslash or with the text's own first unit |
| Escapes.CodeRoundTrip | index.js:354-364 | scanning the escaped text of any `t`, followed by `:]`, gives back the kept tokens that concatenate to `t`, and ends just after the `:]` |
| Escapes.EncodeStep | index.js:354-364 | the encoder handles one leading unit, or one leading `:]`, and recurses on the rest |
| Escapes.ScanStep | index.js:354-364 | the scanner reads the encoder's leading piece back as one kept token |
| Escapes.CodeEscapes | index.js:357-360 | `\:]` keeps the token `:]` and `\\` keeps `\` |
| Escapes.StringCharacter | index.js:24-58 | a character or an embedded code segment consumes at least one unit and stays within the text |
| Escapes.TextChildren | index.js:30-33 | a decoded text becomes one bare-string child per code unit, in order |
| Escapes.EncodeUnitDecodes | index.js:24-58 | the per-character encoder's output is read back by the string-character rule as that one unit |
| Escapes.BodyRoundTrip | index.js:19-58 | decoding the encoded body of any text, followed by the closing quote, gives one child per unit of the text and ends just after the quote, for all three quote kinds |
| Escapes.LineContinuation | index.js:48-121 | in `'`/`"` strings, a backslash before any of the four line terminators keeps the terminator; in backtick strings, which have no line-continuation rule, a backslash before CR or LF is no character at all, while U+2028 and U+2029 still pass through as non-escape characters |
| Plugins.Plugin.constructor | index.js:403-406 | a new plugin has no directives and no handlers |
| Plugins.Plugin.Set | index.js:407-410 | `set` makes the directive table the old one with the name bound to the new function, leaves the handlers alone and returns the same plugin; `SetEntry` states the read-after-write law for that update |
| Plugins.Plugin.On | index.js:411-414 | `on` makes the handler table the old one with the name bound to the new function, leaves the directives alone and returns the same plugin; `OnEntry` states the read-after-write law for that update |
| Plugins.Plugin.Directive | index.js:415-417 | the own-entry getter finds an entry exactly when the name is a key; on every name outside `Object.prototype` it agrees with the property read `this.directives[name]`, and on a prototype name it misses where that read finds the inherited member |
| Plugins.Plugin.Handler | index.js:418-420 | the same relation between the own-entry getter and the property read `this.handlers[name]` |
| Plugins.Own | index.js:415-420 | an own-property read finds an entry exactly when the name is a key, and returns that key's value |
| Plugins.SetEntry | index.js:407-410 | after `set`, the name resolves to the new directive and every other name resolves as before |
| Plugins.OnEntry | index.js:411-414 | after `on`, the name resolves to the new handler and every other name resolves as before |
| Plugins.ResolveFindsHighest | index.js:596-609 | the top-down search `Resolve` finds nothing exactly when no plugin on the stack defines the name; otherwise it returns the entry of the highest plugin that does |
| Plugins.ResolveHighest | index.js:596-609 | the highest plugin defining the name is the one whose entry is returned |
| Plugins.PushWithout | index.js:538 | pushing a map without the name leaves resolution unchanged |
| Plugins.PushWith | index.js:538 | pushing a map with the name makes its entry win |
| Plugins.PushPlugin | index.js:538 | pushing a plugin leaves handler and directive resolution unchanged for names it lacks, and makes its own entries win for names it has |
| Plugins.NewDefault | index.js:432-452 | the chain of `on` and `set` calls yields `DefaultTable`: the default backend has exactly the handlers `string`, `number`, `regex`, `color`, `list`, `code`, `identifier` and `boolean`, and exactly the directives `log`, `error`, `exit` and `use` |
| Plugins.PropertyRead | index.js:415-417 | a JavaScript property read misses exactly when the name is neither an own key nor an `Object.prototype` member |
| Plugins.AsWrittenAgrees | index.js:596-602 | for names outside `Object.prototype`, the lookup as written (`ResolveAsWritten`) agrees with the own-property lookup |
| Plugins.PrototypeNameShadows | index.js:596-602 | as written, a prototype name such as `constructor` is found on the top plugin, even though that plugin does not define it |
| Plugins.ConstructorDirective | index.js:596-602 | on the default stack, `#constructor` is missing under own-property lookup but is found by the lookup as written |
| Syntax.ToText | index.js:431 | the string form of a string is the string itself; an array renders as its elements joined with `,`, so `[]` renders as nothing and a one-element array as its element's join rendering |
| Syntax.JoinValues | index.js:583 | joining no values gives the empty string, and joining one value gives that value's join rendering |
| Semantics.GrowsTrans | index.js:472-595 | the walk's state discipline (bottom plugin kept, text, counter and trace only growing) composes |
| Semantics.Context | index.js:431 | `context(undefined)` leaves the text alone and advances the counter; any other item appends its string form and a newline, and leaves the counter alone |
| Semantics.Invoke | index.js:606 | calling a host function appends exactly one `Invoked(fn, args)` event to the trace and leaves the stack, text and counter as they were |
| Semantics.Trigger | index.js:603-609 | `trigger` fails with the handler's name exactly when no plugin on the stack has the handler; otherwise it records one call of the highest such handler with the given arguments |
| Semantics.CallDirective | index.js:596-602 | `directive` fails with the directive's name exactly when no plugin on the stack has it; otherwise it records one call of the highest such directive with the given arguments |
| Semantics.Hook | index.js:539-540 | a lifecycle hook records one context-only call when the plugin has the handler, and nothing otherwise |
| Semantics.Walk | index.js:472-595 | a successful walk keeps the stack discipline, and text, counter and trace only grow |
| Semantics.WalkLeaf | index.js:515-593 | the same for identifier, element, code, literal and empty nodes |
| Semantics.WalkItems | index.js:560-570 | the same for arguments and lists |
| Semantics.WalkEach | index.js:560-563 | walking the children in order gives one value per child |
| Semantics.WalkCall | index.js:473-485 | the same for calls |
| Semantics.CallUpTo | index.js:477-484 | the same for the call loop |
| Semantics.WalkNamed | index.js:486-507 | the same for assignments, attributes and properties |
| Semantics.WalkDefine | index.js:489-501 | the same for definitions |
| Semantics.LastOfKind | index.js:493-496 | the last middle child of a kind is found exactly when there is one, and it has that kind |
| Semantics.Names | index.js:499-500 | names are read from every child exactly when each child has a first text, one per child, with the `$` dropped for parameters |
| Semantics.WalkVariable | index.js:508-514 | the same for variables |
| Semantics.WalkDirective | index.js:518-529 | the same for directives |
| Semantics.DirectiveUpTo | index.js:522-528 | the same for the directive loop |
| Semantics.WalkBlock | index.js:530-531 | the same for blocks |
| Semantics.WalkPlugin | index.js:532-556 | the same for plugin switches |
| Semantics.ScopedSwitch | index.js:537-544 | a scoped switch leaves the stack exactly as it found it |
| Semantics.UnscopedSwitch | index.js:545-555 | an unscoped switch replaces the top when the stack holds more than one plugin, and pushes otherwise |
| Semantics.ParentResult | index.js:556 | the node's value comes from the pre-switch top's `plugin` handler, or is `''` when there is none |
| Semantics.ScopedRestores | index.js:538-544 | push, any walk that keeps the discipline, then pop, restores the stack |
| Semantics.WalkString | index.js:571-583 | the same for strings |
| Semantics.StringUpTo | index.js:572-581 | the same for the string loop |
| Semantics.Pop | index.js:544 | `stack.pop()` removes exactly the top entry, leaves an empty stack alone and changes nothing else |
| Semantics.CodeTextOfTokens | index.js:564-566 | the text handed to the `code` handler is the concatenation of the segment's token texts |
| Semantics.Statements | index.js:460 | running the statements keeps the discipline |
| Semantics.Unwind | index.js:461-465 | the unwind empties the stack and changes only the trace |
| Semantics.Lifecycle | index.js:454-459 | a lifecycle pass over the plugins changes only the trace |
| Semantics.RunString | index.js:429-471 | a setup run ends with an empty stack; a nested run keeps the default backend at the bottom; the counter never goes back |
| Properties.HookIsEvents | index.js:539-543 | a hook appends exactly the plugin's own events for the key |
| Properties.ScopedUnfold | index.js:532-544 | a scoped `@name { … }` pushes, runs `start`, walks the block, runs `stop`, pops, and then asks the former top for the result |
| Properties.ScopedSwitchUnfold | index.js:537-544 | the scoped switch is push, `start`, walk, `stop`, pop |
| Properties.ScopedPlugin | index.js:532-556 | an unknown scoped plugin fails before the stack changes; a known one leaves the stack exactly as it was, whatever the block contains, with `start` after the push, the plugin's `stop` before the pop, and the former top's `plugin` handler last |
| Properties.ScopedPluginOk | index.js:537-556 | a successful scoped switch restores the stack, yields the former top's result and orders its events start, body, stop, parent |
| Properties.ScopedTrace | index.js:538-544 | the events of a scoped switch are `start`, the body's, `stop`, then the parent's |
| Properties.ScopedOutcome | index.js:537-556 | a successful scoped switch is determined by its block's walk |
| Properties.ParentIsEvents | index.js:556 | the former top's `plugin` handler gives the value, or `''` when it returns nothing, and adds only its own event |
| Properties.UnscopedPlugin | index.js:533-556 | an unknown name fails before any change; otherwise, above one plugin, the old top's `stop` runs and the top is replaced, so the length is unchanged; at one plugin, the new one is pushed; `stack[0]` stays; the value is the former top's `plugin` result |
| Properties.BlockOfOne | index.js:530-531 | a block emits its child's value to the context and yields `undefined` |
| Properties.ScopedAroundUnscoped | index.js:532-556 | an unscoped switch nested in a scoped one is undone by the scoped pop; the whole event order is fixed |
| Properties.WalkAll | index.js:560-570 | walking a list of trees in order gives one value per tree |
| Properties.WalkEachIsWalkAll | index.js:560-570 | the walker's child loop is the in-order walk of that slice of children |
| Properties.ListPassesItems | index.js:567-570 | a list walks its items in order and hands them to the `list` handler; the first failure aborts |
| Properties.ArgumentsAreItems | index.js:560-563 | an arguments node is the array of its children's values, in order |
| Properties.CodeSegmentText | index.js:354-364 | a raw segment written with the escaping encoder reaches the `code` handler as exactly the text the host meant |
| Properties.VariablePassesName | index.js:508-514 | a variable passes its name without `$`, and its indices walked in order |
| Properties.NamedPassesName | index.js:486-507 | an assignment passes its name without `$`, attributes and properties pass theirs unchanged, each with the walked value |
| Properties.LiteralKinds | index.js:584-591 | boolean, colour, number and regex nodes pass their own text to the handler of their kind and change only the trace |
| Properties.BlockMintsId | index.js:530-531 | a block statement returns `undefined`, so the context mints `_zyne_N` and advances the counter |
| Properties.UnhandledKinds | index.js:592-594 | an unknown node kind throws; an empty node yields `''` without a handler |
| Properties.CallBlocks | index.js:477-484 | a call's block thunks are its non-argument children, deferred, never in statement position |
| Properties.CallSplitsChildren | index.js:477-484 | a call hands on its non-argument children as thunks in order, and without an arguments child its parameters are `[]` |
| Properties.DirectiveBlocks | index.js:522-528 | a directive's thunks are its block children, deferred, never in statement position |
| Properties.DirectiveSplitsChildren | index.js:522-528 | a directive hands on its block children as thunks in order, and with only blocks it walks no argument |
| Properties.DirectiveResolution | index.js:518-529 | a directive fails exactly when no plugin defines its name without `#`; otherwise the highest one is called with the arguments and thunks |
| Properties.Runs | index.js:572-582 | the quoted runs of a string number one more than its interpolated children |
| Properties.Alternate | index.js:575-577 | runs and walked children alternate, a run at each even position and a child at each odd position |
| Properties.StringLoop | index.js:572-581 | the string loop's accumulator is always the runs so far, with the walked children between them |
| Properties.StringTextStep | index.js:579 | a text child extends the current run |
| Properties.StringItemStep | index.js:574-577 | an interpolated child closes the current run, adds its value and opens an empty run |
| Properties.StringItemOk | index.js:574-577 | the same step when the children before it walk successfully |
| Properties.StringItemAppends | index.js:575-577 | closing a run adds a quoted run and a value at the end of the fragments |
| Properties.StringComposition | index.js:571-583 | with k interpolated children a string is 2k+1 fragments joined by ` + `: the quoted runs in order at even positions, the walked children at odd positions |
| Properties.FragmentPositions | index.js:582-583 | the fragments have length 2k+1 with runs at even and values at odd positions |
| Properties.PlainString | index.js:582-583 | a string without interpolation is one quoted run |
| Properties.NoInterpolation | index.js:574 | text children alone interpolate nothing |
| Properties.MintedIdsDiffer | index.js:431 | two ids minted one after the other are different |
| Properties.ContextAppends | index.js:431 | a non-`undefined` item appends to the buffer, which only grows, and the context returns the whole buffer |
| Properties.UnwindOrder | index.js:461-465 | the unwind pops every plugin, top first, running each one's `stop` in that order |
| Runtime.IdCounter.constructor | index.js:423 | the counter starts where the caller says |
| Runtime.Runner.constructor | index.js:429-433 | a runner starts with an empty stack, text and trace |
| Runtime.Runner.Context | index.js:431 | the context closure changes the state and returns what `Semantics.Context` gives |
| Runtime.Runner.FindHandler | index.js:604-607 | the top-down loop finds the handler the highest plugin defines, or none |
| Runtime.Runner.FindDirective | index.js:597-600 | the top-down loop finds the directive the highest plugin defines, or none |
| Runtime.Runner.Invoke | index.js:606 | a host call appends one event and returns the host's value |
| Runtime.Runner.Trigger | index.js:603-609 | `trigger` agrees with `Semantics.Trigger` |
| Runtime.Runner.CallDirective | index.js:596-602 | `directive` agrees with `Semantics.CallDirective` |
| Runtime.Runner.Hook | index.js:539-540 | a hook agrees with `Semantics.Hook` |
| Runtime.Runner.Walk | index.js:472-595 | `walk` agrees with `Semantics.Walk`, value and state |
| Runtime.Runner.WalkLeaf | index.js:515-593 | leaf nodes agree with `Semantics.WalkLeaf` |
| Runtime.Runner.WalkItems | index.js:560-570 | arguments and lists agree with `Semantics.WalkItems` |
| Runtime.Runner.WalkEach | index.js:561-562 | the `forEach`/`push` loop agrees with `Semantics.WalkEach` |
| Runtime.Runner.WalkCall | index.js:473-485 | calls agree with `Semantics.WalkCall` |
| Runtime.Runner.CallParts | index.js:477-484 | the call's loop agrees with `Semantics.CallUpTo` |
| Runtime.Runner.WalkNamed | index.js:486-507 | named nodes agree with `Semantics.WalkNamed` |
| Runtime.Runner.WalkDefine | index.js:489-501 | definitions agree with `Semantics.WalkDefine` |
| Runtime.Runner.WalkVariable | index.js:508-514 | variables agree with `Semantics.WalkVariable` |
| Runtime.Runner.WalkDirective | index.js:518-529 | directives agree with `Semantics.WalkDirective` |
| Runtime.Runner.DirectiveParts | index.js:522-528 | the directive's loop agrees with `Semantics.DirectiveUpTo` |
| Runtime.Runner.WalkBlock | index.js:530-531 | blocks agree with `Semantics.WalkBlock` |
| Runtime.Runner.WalkString | index.js:571-583 | strings agree with `Semantics.WalkString` |
| Runtime.Runner.StringParts | index.js:572-581 | the string loop agrees with `Semantics.StringUpTo` |
| Runtime.Runner.WalkPlugin | index.js:532-556 | plugin switches agree with `Semantics.WalkPlugin` |
| Runtime.Runner.ScopedSwitch | index.js:537-544 | push, walk and pop agree with `Semantics.ScopedSwitch` |
| Runtime.Runner.UnscopedSwitch | index.js:545-555 | the stop, pop and push agree with `Semantics.UnscopedSwitch` |
| Runtime.Runner.ParentResult | index.js:556 | the parent's `plugin` call agrees with `Semantics.ParentResult` |
| Runtime.Runner.Unwind | index.js:461-465 | the `while (stack.length)` loop agrees with `Semantics.Unwind` |
| Runtime.Runner.Statements | index.js:460 | the statement loop agrees with `Semantics.Statements` |
| Runtime.Runner.Lifecycle | index.js:455-458 | the `init`/`exit` loop agrees with `Semantics.Lifecycle` |
| Runtime.Runner.RunString | index.js:429-471 | the whole run agrees with `Semantics.RunString` |
| Runtime.WalkEachFails | index.js:561-562 | once the child loop has failed, the rest of the children do not change the outcome |
| Runtime.CallUpToFails | index.js:477-484 | the same for the call loop |
| Runtime.DirectiveUpToFails | index.js:522-528 | the same for the directive loop |
| Runtime.WalkBlockFails | index.js:531 | the same for the block loop |
| Runtime.StringUpToFails | index.js:573-581 | the same for the string loop |
| Runtime.StatementsFail | index.js:460 | the same for the statement loop |

## Left out

- The `rigidparsing` engine (`run`, `Wrap`, `Or`, `And`, `Zero`, `One`, `Opt`, `Hide`, `Rule`) is an external library whose backtracking is not shown. The token rules and string literals are modelled as matchers and decoders. The engine's ordered choice over `item` and `main` is not modelled, apart from the `number` rule and the two item-order lemmas.
- The unicode decoding action is written as the fourth alternative of `UnicodeEscapeSequence`, beside the three sequences it should finish. How the engine treats a function in that position is not shown. The model decodes the matched text with that action.
- The Unicode letter, mark, digit and connector tables and the regular-expression literal sub-grammar are data. Names use the ASCII classes of their own regular expressions.
- `runFile`, `fs`, `path` and the `use` directive's `eval` and recursive file loading are I/O and dynamic evaluation. `use` is present in the default table only as an opaque directive.
- `util.inspect` is a foreign call. It is the parameter `quote` of the environment.
- Host closures and lifecycle hooks are uninterpreted and pure. A host function is given its arguments and returns a value, but it does not call the context or run the thunks it receives. The engine never runs a thunk itself.
- The default backend's string templates are not modelled; those plugin closures are opaque host functions.
- The order of `Object.values(plugins)` is the parameter `order` of a run.
- The custom `ctx` and `list` arguments of `runString`, and so sharing one stack and context across nested runs, are not modelled. A run always starts from the default stack. The id counter is shared between runs through the `IdCounter` object.
- `parseInt` is exact. It does not lose precision above 2^53 before `String.fromCharCode` reduces the value.
- `Plugins.Plugin.Set`: `set('__proto__', …)` on a plain object changes its prototype instead of adding a key. The model stores an ordinary entry.
- `Runtime.Runner.Walk`: the runner's stack holds the `Table` snapshots of the plugins, not references to the `Plugin` objects. This is sound because nothing changes a plugin once a run has started. The model therefore does not capture a handler that mutates a plugin already on the stack.
- Throwing is an `Err` result. A tree the grammar never builds gives `BadShape`. For most such trees, a call without a name child for instance, the source would throw a `TypeError`. For some it would not: an element node with a single child reads `val[1]` only inside the thunk it hands to `element` (index.js:559), so the source goes on without throwing unless the host runs that thunk.
- `Semantics.CallDirective`, with `Runtime.Runner.FindDirective` and `Plugins.Plugin.Directive` beneath it, uses the corrected own-entry lookup. The lookup as written also finds `Object.prototype` members; that is `Plugins.ResolveAsWritten`, for which the Findings row gives a counterexample.
- `Semantics.WalkPlugin`: `plugins[name]` (index.js:534) is also a property read on a plain object, so `@constructor`, `@toString` or `@__proto__` pass the `undefined` test at index.js:535. The source then fails with a `TypeError` at `plugin.handler`: in the scoped case after pushing the value (index.js:538-539), and in the unscoped case with two or more plugins after running the old top's `stop` and popping it (index.js:547-553). The model looks up own keys of the registry and reports `UnknownPlugin` with nothing changed, which is what `Properties.UnscopedPlugin` and `Properties.ScopedPlugin` state for unknown names.

## Findings

| source | as written | input that shows it | evidently intended | confidence | as-written member | corrected member |
|---|---|---|---|---|---|---|
| index.js:415-417 | `this.directives[name]` is a property read on a plain object, which also finds `Object.prototype` members | the statement `#constructor` on the default stack finds `Object.prototype.constructor` and calls it instead of throwing "could not be found" | only directives a plugin registered with `set` are found | not executed | Plugins.ConstructorDirective | Plugins.ResolveFindsHighest |
