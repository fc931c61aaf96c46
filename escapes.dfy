/** The literal decoders of the grammar: escape sequences inside the three
    kinds of string literal, line continuations, the `[: … :]` raw-code
    segment, and the character loop that turns a string literal's body into
    the children of a `string` node. Each decoder is a function of the text
    it matched. */
module Escapes {
  import opened Units
  import opened Tokens
  import opened Syntax

  const BACKSLASH: Unit := 0x5C
  const COLON: Unit := 0x3A
  const CLOSE_BRACKET: Unit := 0x5D
  const OPEN_BRACKET: Unit := 0x5B

  // ---------------------------------------------------------------------
  // Single characters after a backslash

  /** `SingleEscapeCharacter: /[`'"\\bfnrtv0]/` and the code unit its action pushes. */
  function SingleEscape(c: Unit): (r: Option<Unit>)
    ensures r.Some? ==> (r.value == c <==> c in {0x60, 0x27, 0x22, BACKSLASH})
    ensures r.Some? && r.value != c ==> r.value < 0x20
  {
    if c == 0x60 || c == 0x27 || c == 0x22 || c == BACKSLASH then Some(c)  // ` ' " \ stand for themselves
    else if c == 0x62 then Some(0x08)  // b: backspace
    else if c == 0x66 then Some(0x0C)  // f: form feed
    else if c == 0x6E then Some(LF)    // n
    else if c == 0x72 then Some(CR)    // r
    else if c == 0x74 then Some(0x09)  // t: tab
    else if c == 0x76 then Some(0x0B)  // v: vertical tab
    else if c == 0x30 then Some(0x00)  // 0: NUL
    else None
  }

  /** `NonEscapeCharacter: /[^`'"\\bfnrtv0-9xu\r\n({]/`: a code unit that
      stands for itself after a backslash. */
  predicate IsNonEscape(c: Unit) {
    SingleEscape(c).None? && !IsDecimalDigit(c) && c != 0x78 && c != 0x75
    && c != CR && c != LF && c != 0x28 && c != 0x7B
  }

  predicate IsLineTerminator(c: Unit) {
    c == LF || c == CR || c == LINE_SEPARATOR || c == PARAGRAPH_SEPARATOR
  }

  // ---------------------------------------------------------------------
  // Numeric escapes

  function HexDigitValue(c: Unit): (v: nat)
    requires IsRealHex(c)
    ensures v < 16
  {
    if IsDecimalDigit(c) then c - 0x30
    else if c <= 0x46 then c - 0x41 + 10
    else c - 0x61 + 10
  }

  /** The number a string of genuine hexadecimal digits denotes. */
  function HexValue(ds: JsString): nat
    requires forall i | 0 <= i < |ds| :: IsRealHex(ds[i])
  {
    if |ds| == 0 then 0 else 16 * HexValue(ds[..|ds| - 1]) + HexDigitValue(ds[|ds| - 1])
  }

  /** `parseInt(text, 16)` on text over `[_0-9a-fA-F]` (no white space,
      sign or `0x` prefix can occur there): the value of the leading run of
      genuine digits, or NaN (`None`) when the text does not start with one. */
  function ParseHex(text: JsString): (r: Option<nat>)
    requires forall i | 0 <= i < |text| :: IsHexDigit(text[i])
    ensures r.None? <==> (|text| == 0 || !IsRealHex(text[0]))
  {
    var k := Span(text, 0, REAL_HEX);
    if k == 0 then None else Some(HexValue(text[..k]))
  }

  /** `String.fromCharCode(x)`: the number modulo 2^16; NaN becomes 0. */
  function FromCharCode(x: Option<nat>): (u: Unit)
    ensures x.Some? ==> u == x.value % 0x1_0000
    ensures x.None? ==> u == 0
  {
    if x.None? then 0 else x.value % 0x1_0000
  }

  /** The action of `HexEscapeSequence`: the two `HexDigit`s after `x` are
      parsed base 16 as they stand, separators included. */
  function HexEscapeUnit(d1: Unit, d2: Unit): (u: Unit)
    requires IsHexDigit(d1) && IsHexDigit(d2)
    ensures u < 0x100
    ensures !IsRealHex(d1) ==> u == 0
  {
    HexPairBound(d1, d2);
    FromCharCode(ParseHex([d1, d2]))
  }

  /** Two digits parse to less than 256, so `fromCharCode` keeps them whole. */
  lemma HexPairBound(d1: Unit, d2: Unit)
    requires IsHexDigit(d1) && IsHexDigit(d2)
    ensures ParseHex([d1, d2]).Some? ==> ParseHex([d1, d2]).value < 0x100
  {
    var t: JsString := [d1, d2];
    var k := Span(t, 0, REAL_HEX);
    if k > 0 {
      HexValueBound(t[..k]);
      assert Pow16(1) == 16 && Pow16(2) == 0x100;
    }
  }

  /** `text.replace(/[^0-9a-fA-F]/g, '')`. */
  function StripNonHex(text: JsString): (r: JsString)
    ensures forall i | 0 <= i < |r| :: IsRealHex(r[i])
    ensures |r| <= |text|
  {
    if |text| == 0 then []
    else if IsRealHex(text[0]) then [text[0]] + StripNonHex(text[1..])
    else StripNonHex(text[1..])
  }

  /** The decoding action of `UnicodeEscapeSequence`, applied to all the text
      of the escape after the backslash (`uHHHH` or `u{H…}`): everything
      that is not a genuine hexadecimal digit is dropped (the `u`, the braces
      and every `_`), and the rest is parsed base 16. */
  function UnicodeEscapeUnit(text: JsString): (u: Unit)
    ensures |StripNonHex(text)| == 0 ==> u == 0
    ensures 0 < |StripNonHex(text)| <= 4 ==> u == HexValue(StripNonHex(text))
  {
    var digits := StripNonHex(text);
    FourDigitsFit(digits);
    FromCharCode(if |digits| == 0 then None else Some(HexValue(digits)))
  }

  /** The text a `UnicodeEscapeSequence` matches at the start of `s`, as a
      length: `u` and four `HexDigit`s, or `u{`, one or more `HexDigit`s, `}`. */
  function MatchUnicode(s: JsString): (m: Option<nat>)
    ensures m.Some? ==> 3 <= m.value <= |s|
  {
    if |s| >= 5 && s[0] == 0x75 && forall i | 1 <= i < 5 :: IsHexDigit(s[i]) then Some(5)
    else if |s| >= 3 && s[0] == 0x75 && s[1] == 0x7B && IsHexDigit(s[2]) then
      var k := 2 + Span(s, 2, HEX_DIGIT);
      if k < |s| && s[k] == 0x7D then Some(k + 1) else None
    else None
  }

  // ---------------------------------------------------------------------
  // `EscapeSequence`

  datatype Escape =
    | Decoded(unit: Unit, len: nat)  // stands for one code unit; `len` code units after the backslash
    | Splice                         // `\(` or `\{`: the item or block rule takes over
    | Invalid                        // no alternative of `EscapeSequence` applies

  /** `EscapeSequence` on the text right after a backslash, its
      alternatives tried in the grammar's order. */
  function DecodeEscape(s: JsString): (e: Escape)
    ensures e.Decoded? ==> 1 <= e.len <= |s|
  {
    if |s| == 0 then Invalid
    else if SingleEscape(s[0]).Some? then Decoded(SingleEscape(s[0]).value, 1)
    else if IsNonEscape(s[0]) then Decoded(s[0], 1)
    else if |s| >= 3 && s[0] == 0x78 && IsHexDigit(s[1]) && IsHexDigit(s[2]) then
      Decoded(HexEscapeUnit(s[1], s[2]), 3)
    else if MatchUnicode(s).Some? then
      var n := MatchUnicode(s).value;
      Decoded(UnicodeEscapeUnit(s[..n]), n)
    else if s[0] == 0x28 || s[0] == 0x7B then Splice
    else Invalid
  }

  // ---------------------------------------------------------------------
  // Raw code segments `[: … :]`

  /** The body of a `code` rule after its opening `[:`: the texts of the
      tokens it keeps (`\:]` gives `:]`, `\\` gives `\`, every other code
      unit itself) and the length consumed, closing `:]` included. `None`
      when the input ends before a `:]`. */
  function ScanCode(s: JsString): (r: Option<(seq<JsString>, nat)>)
    ensures r.Some? ==> 2 <= r.value.1 <= |s|
    decreases |s|
  {
    if |s| >= 3 && s[0] == BACKSLASH && s[1] == COLON && s[2] == CLOSE_BRACKET then
      Prepend([COLON, CLOSE_BRACKET], 3, ScanCode(s[3..]))
    else if |s| >= 2 && s[0] == BACKSLASH && s[1] == BACKSLASH then
      Prepend([BACKSLASH], 2, ScanCode(s[2..]))
    else if |s| >= 2 && s[0] == COLON && s[1] == CLOSE_BRACKET then
      Some(([], 2))
    else if |s| >= 1 then
      Prepend([s[0]], 1, ScanCode(s[1..]))
    else None
  }

  function Prepend(tok: JsString, n: nat, rest: Option<(seq<JsString>, nat)>): Option<(seq<JsString>, nat)> {
    if rest.None? then None else Some(([tok] + rest.value.0, n + rest.value.1))
  }

  /** How a host would write text `t` inside `[: … :]` so that it comes
      back unchanged: backslashes doubled, every `:]` written `\:]`. */
  function EncodeCode(t: JsString): (r: JsString)
    ensures |t| > 0 ==> |r| > 0 && (r[0] == BACKSLASH || r[0] == t[0])
    decreases |t|
  {
    if |t| == 0 then []
    else if t[0] == BACKSLASH then [BACKSLASH, BACKSLASH] + EncodeCode(t[1..])
    else if |t| >= 2 && t[0] == COLON && t[1] == CLOSE_BRACKET then [BACKSLASH, COLON, CLOSE_BRACKET] + EncodeCode(t[2..])
    else [t[0]] + EncodeCode(t[1..])
  }

  /** Decoding an encoded segment gives back its text, and stops right
      after the closing `:]`. */
  lemma {:induction false} CodeRoundTrip(t: JsString, rest: JsString)
    ensures var r := ScanCode(EncodeCode(t) + [COLON, CLOSE_BRACKET] + rest);
      r.Some? && Concat(r.value.0) == t && r.value.1 == |EncodeCode(t)| + 2
    decreases |t|
  {
    var s := EncodeCode(t) + [COLON, CLOSE_BRACKET] + rest;
    if |t| == 0 {
      assert s == [COLON, CLOSE_BRACKET] + rest;
    } else {
      var k, head := EncodeStep(t);
      CodeRoundTrip(t[k..], rest);
      var s' := EncodeCode(t[k..]) + [COLON, CLOSE_BRACKET] + rest;
      assert s == head + s';
      if k == 1 && t[0] == COLON {
        if |t| == 1 { assert s'[0] == COLON; } else { assert s'[0] == EncodeCode(t[1..])[0]; }
      }
      ScanStep(t, k, head, s');
      ConcatCons(t[..k], ScanCode(s').value.0);
      assert t == t[..k] + t[k..];
    }
  }

  /** The first step of `EncodeCode`: the escape written for `t[..k]`. */
  lemma EncodeStep(t: JsString) returns (k: nat, head: JsString)
    requires |t| >= 1
    ensures k == (if t[0] != BACKSLASH && |t| >= 2 && t[0] == COLON && t[1] == CLOSE_BRACKET then 2 else 1)
    ensures head == (if t[0] == BACKSLASH then [BACKSLASH, BACKSLASH]
                     else if k == 2 then [BACKSLASH, COLON, CLOSE_BRACKET]
                     else [t[0]])
    ensures 1 <= k <= |t| && EncodeCode(t) == head + EncodeCode(t[k..])
  {
    k := if t[0] != BACKSLASH && |t| >= 2 && t[0] == COLON && t[1] == CLOSE_BRACKET then 2 else 1;
    head := if t[0] == BACKSLASH then [BACKSLASH, BACKSLASH]
            else if k == 2 then [BACKSLASH, COLON, CLOSE_BRACKET]
            else [t[0]];
  }

  /** One step of `ScanCode` over an encoded unit or terminator escape. */
  lemma ScanStep(t: JsString, k: nat, head: JsString, s': JsString)
    requires |t| >= 1 && 1 <= k <= |t|
    requires k == (if t[0] != BACKSLASH && |t| >= 2 && t[0] == COLON && t[1] == CLOSE_BRACKET then 2 else 1)
    requires head == (if t[0] == BACKSLASH then [BACKSLASH, BACKSLASH]
                      else if k == 2 then [BACKSLASH, COLON, CLOSE_BRACKET]
                      else [t[0]])
    requires |s'| >= 2
    requires k == 1 && t[0] == COLON ==> s'[0] != CLOSE_BRACKET
    ensures ScanCode(head + s') == Prepend(t[..k], |head|, ScanCode(s'))
  {
    var s := head + s';
    assert s[|head|..] == s';
    if t[0] == BACKSLASH {
      assert t[..k] == [BACKSLASH];
    } else if k == 2 {
      assert t[..k] == [COLON, CLOSE_BRACKET];
    } else {
      assert t[..k] == [t[0]];
      assert s[1] == s'[0];
    }
  }

  lemma {:induction false} ConcatCons(x: JsString, xs: seq<JsString>)
    ensures Concat([x] + xs) == x + Concat(xs)
    decreases |xs|
  {
    if |xs| > 0 {
      var ys := [x] + xs;
      assert ys[..|ys| - 1] == [x] + xs[..|xs| - 1];
      ConcatCons(x, xs[..|xs| - 1]);
    } else {
      assert [x] + xs == [x];
      assert [x][..0] == [];
    }
  }

  /** The two escapes of a raw-code segment. */
  lemma CodeEscapes(rest: JsString)
    requires ScanCode(rest).Some?
    ensures ScanCode([BACKSLASH, COLON, CLOSE_BRACKET] + rest).Some?
    ensures ScanCode([BACKSLASH, COLON, CLOSE_BRACKET] + rest).value.0[0] == [COLON, CLOSE_BRACKET]
    ensures ScanCode([BACKSLASH, BACKSLASH] + rest).Some?
    ensures ScanCode([BACKSLASH, BACKSLASH] + rest).value.0[0] == [BACKSLASH]
  {
    assert ([BACKSLASH, COLON, CLOSE_BRACKET] + rest)[3..] == rest;
    assert ([BACKSLASH, BACKSLASH] + rest)[2..] == rest;
  }

  // ---------------------------------------------------------------------
  // String literals

  datatype Quote = DoubleQuote | SingleQuote | Backtick

  function Delimiter(q: Quote): Unit {
    match q
    case DoubleQuote => 0x22
    case SingleQuote => 0x27
    case Backtick => 0x60
  }

  /** The plain-character class of each string rule: `[^"\\\r\n]`,
      `[^'\\\r\n]` and, for backticks, `[^`\\]`. */
  predicate IsPlain(q: Quote, c: Unit) {
    c != Delimiter(q) && c != BACKSLASH && (q.Backtick? || (c != CR && c != LF))
  }

  datatype Piece =
    | Char(unit: Unit, len: nat)               // one decoded code unit
    | RawCode(node: Tree, len: nat)            // an embedded `[: … :]` segment, as its `code` node
    | Interpolation                            // `\(` or `\{`: decided by the item grammar
    | NoPiece                                  // no alternative applies; the character loop stops

  /** One `DoubleStringCharacter`, `SingleStringCharacter` or
      `MultiStringCharacter` at the start of `s`. Line continuation (a
      backslash before a line terminator) keeps the terminator, and exists
      only in the quoted forms, not in backtick strings. */
  function StringCharacter(q: Quote, s: JsString): (p: Piece)
    ensures p.Char? || p.RawCode? ==> 1 <= p.len <= |s|
  {
    if |s| >= 1 && s[0] == BACKSLASH then
      match DecodeEscape(s[1..])
      case Decoded(u, n) => Char(u, n + 1)
      case Splice => Interpolation
      case Invalid =>
        if !q.Backtick? && |s| >= 2 && IsLineTerminator(s[1]) then Char(s[1], 2) else NoPiece
    else if |s| >= 2 && s[0] == OPEN_BRACKET && s[1] == COLON && ScanCode(s[2..]).Some? then
      var (toks, n) := ScanCode(s[2..]).value;
      RawCode(Node(Code, seq(|toks|, i requires 0 <= i < |toks| => Token(toks[i])), s[..n + 2]), n + 2)
    else if |s| >= 1 && IsPlain(q, s[0]) then Char(s[0], 1)
    else NoPiece
  }

  datatype Literal =
    | Closed(children: seq<Tree>, len: nat)   // the closing delimiter ends the body; `len` includes it
    | Spliced(children: seq<Tree>, at: nat)   // an interpolation starts at offset `at`
    | Unclosed                                // the loop stopped somewhere other than at the delimiter

  /** The body of a string literal after its opening delimiter: the string
      node's children (one `Text` per decoded code unit, a `code` node per
      raw segment) up to the closing delimiter. */
  function DecodeBody(q: Quote, s: JsString): (r: Literal)
    ensures r.Closed? ==> 1 <= r.len <= |s| && s[r.len - 1] == Delimiter(q)
    ensures r.Spliced? ==> r.at < |s| && s[r.at] == BACKSLASH
    decreases |s|
  {
    match StringCharacter(q, s)
    case Char(u, n) => Shift(Text([u]), n, DecodeBody(q, s[n..]))
    case RawCode(node, n) => Shift(node, n, DecodeBody(q, s[n..]))
    case Interpolation => Spliced([], 0)
    case NoPiece => if |s| > 0 && s[0] == Delimiter(q) then Closed([], 1) else Unclosed
  }

  function Shift(child: Tree, n: nat, rest: Literal): Literal {
    match rest
    case Closed(cs, len) => Closed([child] + cs, n + len)
    case Spliced(cs, at) => Spliced([child] + cs, n + at)
    case Unclosed => Unclosed
  }

  /** How a code unit can be written inside a literal delimited by `q`: the
      delimiter and the backslash behind a backslash, CR and LF as `\r`
      and `\n`, `[` as `\[` (so that no `[:` opens a raw segment), and any
      other code unit as itself. */
  function EncodeUnit(q: Quote, c: Unit): JsString {
    if c == Delimiter(q) || c == BACKSLASH then [BACKSLASH, c]
    else if c == LF then [BACKSLASH, 0x6E]
    else if c == CR then [BACKSLASH, 0x72]
    else if c == OPEN_BRACKET then [BACKSLASH, OPEN_BRACKET]
    else [c]
  }

  function EncodeBody(q: Quote, t: JsString): JsString
    decreases |t|
  {
    if |t| == 0 then [] else EncodeUnit(q, t[0]) + EncodeBody(q, t[1..])
  }

  /** The children a string node gets for literal text without escapes
      into the item grammar: one `Text` per code unit. */
  function TextChildren(t: JsString): (cs: seq<Tree>)
    ensures |cs| == |t|
    ensures forall i | 0 <= i < |t| :: cs[i] == Text([t[i]])
  {
    seq(|t|, i requires 0 <= i < |t| => Text([t[i]]))
  }

  /** Every encoded code unit is read back as that one code unit. */
  lemma EncodeUnitDecodes(q: Quote, c: Unit, more: JsString)
    ensures StringCharacter(q, EncodeUnit(q, c) + more) == Char(c, |EncodeUnit(q, c)|)
  {
    var s := EncodeUnit(q, c) + more;
    if |EncodeUnit(q, c)| == 2 {
      assert s[1..] == [s[1]] + more;
    }
  }

  /** Decoding the encoding of any text, followed by the closing delimiter,
      gives back exactly that text's characters and stops after the
      delimiter. */
  lemma {:induction false} BodyRoundTrip(q: Quote, t: JsString, rest: JsString)
    ensures DecodeBody(q, EncodeBody(q, t) + [Delimiter(q)] + rest)
         == Closed(TextChildren(t), |EncodeBody(q, t)| + 1)
    decreases |t|
  {
    var s := EncodeBody(q, t) + [Delimiter(q)] + rest;
    if |t| == 0 {
      assert s == [Delimiter(q)] + rest;
    } else {
      var e := EncodeUnit(q, t[0]);
      var more := EncodeBody(q, t[1..]) + [Delimiter(q)] + rest;
      assert EncodeBody(q, t) == e + EncodeBody(q, t[1..]);
      assert s == e + more;
      EncodeUnitDecodes(q, t[0], more);
      assert s[|e|..] == more;
      assert DecodeBody(q, s) == Shift(Text([t[0]]), |e|, DecodeBody(q, more));
      BodyRoundTrip(q, t[1..], rest);
      assert [Text([t[0]])] + TextChildren(t[1..]) == TextChildren(t);
    }
  }

  // ---------------------------------------------------------------------
  // Properties of the escape decoders

  /** Every code unit after a backslash falls in exactly one class: a single
      escape, a pass-through character, or one of the characters that start
      (or, for digits other than 0, line terminators and `x`/`u` without
      their digits, fail) the other alternatives. */
  lemma EscapeClasses(c: Unit)
    ensures SingleEscape(c).Some? ==> !IsNonEscape(c)
    ensures IsNonEscape(c) <==>
      (SingleEscape(c).None? && !(IsDecimalDigit(c) || c == 0x78 || c == 0x75
        || c == CR || c == LF || c == 0x28 || c == 0x7B))
  {
  }

  /** The eleven single escapes, read by the whole `EscapeSequence`: each
      stands for one fixed code unit and consumes one unit; no other code
      unit is a single escape. */
  lemma SingleEscapeTable(more: JsString)
    ensures DecodeEscape([0x60] + more) == Decoded(0x60, 1)
    ensures DecodeEscape([0x27] + more) == Decoded(0x27, 1)
    ensures DecodeEscape([0x22] + more) == Decoded(0x22, 1)
    ensures DecodeEscape([0x5C] + more) == Decoded(0x5C, 1)
    ensures DecodeEscape([0x62] + more) == Decoded(0x08, 1)
    ensures DecodeEscape([0x66] + more) == Decoded(0x0C, 1)
    ensures DecodeEscape([0x6E] + more) == Decoded(0x0A, 1)
    ensures DecodeEscape([0x72] + more) == Decoded(0x0D, 1)
    ensures DecodeEscape([0x74] + more) == Decoded(0x09, 1)
    ensures DecodeEscape([0x76] + more) == Decoded(0x0B, 1)
    ensures DecodeEscape([0x30] + more) == Decoded(0x00, 1)
    ensures forall c: Unit | SingleEscape(c).Some? ::
      c in {0x60, 0x27, 0x22, 0x5C, 0x62, 0x66, 0x6E, 0x72, 0x74, 0x76, 0x30}
  {
  }

  /** A pass-through character decodes to itself. */
  lemma NonEscapeIsItself(c: Unit, more: JsString)
    requires IsNonEscape(c)
    ensures DecodeEscape([c] + more) == Decoded(c, 1)
  {
  }

  /** `\xHH` with genuine digits is the code unit `16 * H1 + H2`. */
  lemma HexEscapeValue(d1: Unit, d2: Unit)
    requires IsRealHex(d1) && IsRealHex(d2)
    ensures HexEscapeUnit(d1, d2) == 16 * HexDigitValue(d1) + HexDigitValue(d2)
  {
    var ds: JsString := [d1, d2];
    assert Span(ds, 0, REAL_HEX) == 2 by {
      assert IsRealHex(ds[0]) && IsRealHex(ds[1]);
    }
    assert ds[..2] == ds && ds[..1] == [d1] && [d1][..0] == [];
    assert HexValue([d1]) == HexDigitValue(d1);
    assert HexValue(ds) == 16 * HexDigitValue(d1) + HexDigitValue(d2);
  }

  /** The hex escape does not strip `_`: `parseInt` stops at it, so `\x4_`
      is U+0004 and `\x_4` is NaN, which `fromCharCode` turns into U+0000. */
  lemma HexEscapeSeparator(d: Unit)
    requires IsRealHex(d)
    ensures HexEscapeUnit(0x5F, d) == 0
    ensures HexEscapeUnit(d, 0x5F) == HexDigitValue(d)
  {
    var ds: JsString := [d, 0x5F];
    assert Span(ds, 0, REAL_HEX) == 1 by {
      assert IsRealHex(ds[0]) && !IsRealHex(ds[1]);
    }
    assert ds[..1] == [d] && [d][..0] == [];
    assert HexValue([d]) == HexDigitValue(d);
  }

  /** Stripping distributes over concatenation. */
  lemma {:induction false} StripConcat(a: JsString, b: JsString)
    ensures StripNonHex(a + b) == StripNonHex(a) + StripNonHex(b)
    decreases |a|
  {
    if |a| > 0 {
      assert (a + b)[1..] == a[1..] + b;
      StripConcat(a[1..], b);
    } else {
      assert a + b == b;
    }
  }

  /** The unicode escape ignores separators: an `_` anywhere in its digits
      changes nothing, so `\u{41}` and `\u{4_1}` decode alike. */
  lemma UnicodeIgnoresSeparator(a: JsString, b: JsString)
    ensures UnicodeEscapeUnit(a + [0x5F] + b) == UnicodeEscapeUnit(a + b)
  {
    assert StripNonHex([0x5F]) == [] by {
      assert [0x5F][1..] == [];
    }
    StripConcat(a + [0x5F], b);
    StripConcat(a, [0x5F]);
    StripConcat(a, b);
    assert StripNonHex(a + [0x5F] + b) == StripNonHex(a + b);
  }

  /** `\uHHHH` with genuine digits is exactly the code unit they denote. */
  lemma UnicodeFourDigits(s: JsString)
    requires |s| >= 5 && s[0] == 0x75 && forall i | 1 <= i < 5 :: IsRealHex(s[i])
    ensures DecodeEscape(s).Decoded? && DecodeEscape(s).len == 5
    ensures DecodeEscape(s).unit == HexValue(s[1..5])
  {
    var text := s[..5];
    assert text == [s[0]] + s[1..5];
    assert StripNonHex([s[0]]) == [] by {
      assert [s[0]][1..] == [];
    }
    StripConcat([s[0]], s[1..5]);
    StripGenuine(s[1..5]);
    HexValueBound(s[1..5]);
    assert Pow16(4) == 0x1_0000 by {
      assert Pow16(2) == 256;
    }
  }

  /** The text `\u{` digits `}` spans. */
  lemma MatchBraces(ds: JsString, more: JsString)
    requires |ds| >= 1 && forall i | 0 <= i < |ds| :: IsHexDigit(ds[i])
    ensures MatchUnicode([0x75, 0x7B] + ds + [0x7D] + more) == Some(|ds| + 3)
  {
    var s := [0x75, 0x7B] + ds + [0x7D] + more;
    assert !IsHexDigit(s[1]);
    assert s[2..2 + |ds|] == ds;
    assert s[2 + |ds|] == 0x7D;
    SpanOver(s, 2, ds, HEX_DIGIT);
  }

  /** Stripping `u{`, the digits and `}` leaves the genuine digits. */
  lemma StripBraces(ds: JsString)
    ensures StripNonHex([0x75, 0x7B] + ds + [0x7D]) == StripNonHex(ds)
  {
    StripConcat([0x75, 0x7B] + ds, [0x7D]);
    StripConcat([0x75, 0x7B], ds);
    assert StripNonHex([0x75, 0x7B]) == [] by {
      assert [0x75, 0x7B][1..] == [0x7B];
      assert [0x7B][1..] == [];
    }
    assert StripNonHex([0x7D]) == [] by {
      assert [0x7D][1..] == [];
    }
  }

  /** An escape starting with `u` is decided by the unicode alternative alone. */
  lemma DecodeUnicode(s: JsString)
    requires |s| >= 1 && s[0] == 0x75 && MatchUnicode(s).Some?
    ensures DecodeEscape(s) == Decoded(UnicodeEscapeUnit(s[..MatchUnicode(s).value]), MatchUnicode(s).value)
  {
    assert SingleEscape(0x75).None? && !IsNonEscape(0x75);
  }

  /** `\u{H…}` with genuine digits is the number they denote modulo 2^16,
      so `\u{1F600}` is U+F600, not the code point U+1F600. */
  lemma UnicodeBraces(ds: JsString, more: JsString)
    requires |ds| >= 1 && forall i | 0 <= i < |ds| :: IsRealHex(ds[i])
    ensures var s := [0x75, 0x7B] + ds + [0x7D] + more;
      DecodeEscape(s) == Decoded(HexValue(ds) % 0x1_0000, |ds| + 3)
  {
    var s := [0x75, 0x7B] + ds + [0x7D] + more;
    MatchBraces(ds, more);
    DecodeUnicode(s);
    assert s[..|ds| + 3] == [0x75, 0x7B] + ds + [0x7D];
    StripBraces(ds);
    StripGenuine(ds);
    assert UnicodeEscapeUnit(s[..|ds| + 3]) == HexValue(ds) % 0x1_0000;
  }

  /** Three ways of writing `A` that decode alike: `\u0041`, `\u{41}`, `\u{4_1}`. */
  lemma UnicodeSpellingsOfA()
    ensures DecodeEscape([0x75, 0x30, 0x30, 0x34, 0x31]) == Decoded(0x41, 5)
    ensures DecodeEscape([0x75, 0x7B, 0x34, 0x31, 0x7D]) == Decoded(0x41, 5)
    ensures DecodeEscape([0x75, 0x7B, 0x34, 0x5F, 0x31, 0x7D]) == Decoded(0x41, 6)
  {
    FourDigitsOfA();
    BracesOfA();
    SeparatedA();
  }

  lemma HexValueOfA()
    ensures HexValue([0x34, 0x31]) == 0x41
    ensures HexValue([0x30, 0x30, 0x34, 0x31]) == 0x41
  {
    assert [0x34, 0x31][..1] == [0x34];
    assert [0x34][..0] == [];
    assert [0x30, 0x30, 0x34, 0x31][..3] == [0x30, 0x30, 0x34];
    assert [0x30, 0x30, 0x34][..2] == [0x30, 0x30];
    assert [0x30, 0x30][..1] == [0x30];
    assert [0x30][..0] == [];
  }

  lemma FourDigitsOfA()
    ensures DecodeEscape([0x75, 0x30, 0x30, 0x34, 0x31]) == Decoded(0x41, 5)
  {
    var a: JsString := [0x75, 0x30, 0x30, 0x34, 0x31];
    UnicodeFourDigits(a);
    assert a[1..5] == [0x30, 0x30, 0x34, 0x31];
    HexValueOfA();
  }

  lemma BracesOfA()
    ensures DecodeEscape([0x75, 0x7B, 0x34, 0x31, 0x7D]) == Decoded(0x41, 5)
  {
    var b: JsString := [0x34, 0x31];
    assert [0x75, 0x7B, 0x34, 0x31, 0x7D] == [0x75, 0x7B] + b + [0x7D] + [];
    UnicodeBraces(b, []);
    HexValueOfA();
  }

  lemma SeparatedA()
    ensures DecodeEscape([0x75, 0x7B, 0x34, 0x5F, 0x31, 0x7D]) == Decoded(0x41, 6)
  {
    var c: JsString := [0x75, 0x7B, 0x34, 0x5F, 0x31, 0x7D];
    var ds: JsString := [0x34, 0x5F, 0x31];
    assert c == [0x75, 0x7B] + ds + [0x7D] + [];
    MatchBraces(ds, []);
    DecodeUnicode(c);
    assert c[..6] == [0x75, 0x7B, 0x34] + [0x5F] + [0x31, 0x7D];
    UnicodeIgnoresSeparator([0x75, 0x7B, 0x34], [0x31, 0x7D]);
    var b: JsString := [0x34, 0x31];
    assert [0x75, 0x7B, 0x34] + [0x31, 0x7D] == [0x75, 0x7B] + b + [0x7D];
    StripBraces(b);
    StripGenuine(b);
    HexValueOfA();
  }

  lemma {:induction false} StripGenuine(ds: JsString)
    requires forall i | 0 <= i < |ds| :: IsRealHex(ds[i])
    ensures StripNonHex(ds) == ds
    decreases |ds|
  {
    if |ds| > 0 { StripGenuine(ds[1..]); }
  }

  lemma {:induction false} HexValueBound(ds: JsString)
    requires forall i | 0 <= i < |ds| :: IsRealHex(ds[i])
    ensures HexValue(ds) < Pow16(|ds|)
    decreases |ds|
  {
    if |ds| > 0 { HexValueBound(ds[..|ds| - 1]); }
  }

  /** Up to four hex digits fit in one code unit. */
  lemma FourDigitsFit(ds: JsString)
    requires forall i | 0 <= i < |ds| :: IsRealHex(ds[i])
    ensures |ds| <= 4 ==> HexValue(ds) < 0x1_0000
  {
    if |ds| <= 4 {
      HexValueBound(ds);
      assert Pow16(1) == 16 && Pow16(2) == 0x100 && Pow16(3) == 0x1000 && Pow16(4) == 0x1_0000;
    }
  }

  function Pow16(n: nat): nat {
    if n == 0 then 1 else 16 * Pow16(n - 1)
  }

  /** A span over a stretch of `p`-code units stops right after it. */
  lemma {:induction false} SpanOver(s: JsString, from: nat, ds: JsString, p: Class)
    requires from + |ds| < |s| && s[from..from + |ds|] == ds
    requires forall i | 0 <= i < |ds| :: In(p, ds[i])
    requires !In(p, s[from + |ds|])
    ensures Span(s, from, p) == |ds|
    decreases |ds|
  {
    if |ds| > 0 {
      assert s[from] == ds[0];
      assert s[from + 1..from + |ds|] == ds[1..];
      SpanOver(s, from + 1, ds[1..], p);
    }
  }

  /** A backslash before a line terminator: in quoted strings the line
      continuation keeps the terminator; in backtick strings CR and LF are
      no character at all there, while U+2028 and U+2029 still pass
      through as non-escape characters. */
  lemma LineContinuation(q: Quote, c: Unit, more: JsString)
    requires IsLineTerminator(c)
    ensures !q.Backtick? ==> StringCharacter(q, [BACKSLASH, c] + more) == Char(c, 2)
    ensures q.Backtick? && (c == LF || c == CR) ==> StringCharacter(q, [BACKSLASH, c] + more) == NoPiece
    ensures q.Backtick? && !(c == LF || c == CR) ==> StringCharacter(q, [BACKSLASH, c] + more) == Char(c, 2)
  {
    var s := [BACKSLASH, c] + more;
    assert s[1..] == [c] + more;
  }
}
