/** The token shapes of the script grammar: integer literals in four bases
    (each with a Big form), the word-boundary guard the `item` rule puts
    around numbers, and the name tokens (identifiers, variables, directives,
    plugin references and colours).

    Each grammar rule is modelled twice: as the language it accepts (a
    predicate on a whole token, "Shape") and as the matcher the parser runs
    anchored at the current position ("Match", returning the length of the
    match). The lemmas tie the two together. */
module Tokens {
  import opened Units

  // Character classes of the grammar's regular expressions.

  predicate IsNonZeroDigit(c: Unit) { 0x31 <= c <= 0x39 }
  predicate IsDigitOrSep(c: Unit) { IsDecimalDigit(c) || c == 0x5F }
  /** `[0-9a-fA-F]`: a genuine hexadecimal digit. */
  predicate IsRealHex(c: Unit) { IsDecimalDigit(c) || 0x41 <= c <= 0x46 || 0x61 <= c <= 0x66 }
  /** The `HexDigit` rule `[_0-9a-fA-F]`, which also admits the separator. */
  predicate IsHexDigit(c: Unit) { IsRealHex(c) || c == 0x5F }
  predicate IsOctal(c: Unit) { 0x30 <= c <= 0x37 }
  predicate IsOctalOrSep(c: Unit) { IsOctal(c) || c == 0x5F }
  predicate IsBinary(c: Unit) { c == 0x30 || c == 0x31 }
  predicate IsBinaryOrSep(c: Unit) { IsBinary(c) || c == 0x5F }
  predicate IsLetter(c: Unit) { 0x41 <= c <= 0x5A || 0x61 <= c <= 0x7A }
  /** `[a-zA-Z0-9_]`, which is also what a regular expression's `\b` calls a word character. */
  predicate IsWord(c: Unit) { IsLetter(c) || IsDecimalDigit(c) || c == 0x5F }
  /** `[a-zA-Z_]`: the characters of directive and plugin names. */
  predicate IsNameChar(c: Unit) { IsLetter(c) || c == 0x5F }

  /** The classes the matchers scan runs of, as sets of code units. */
  type Class = iset<Unit>

  const DIGIT_OR_SEP: Class := iset c: Unit | IsDigitOrSep(c)
  const REAL_HEX: Class := iset c: Unit | IsRealHex(c)
  const HEX_DIGIT: Class := iset c: Unit | IsHexDigit(c)
  const OCTAL_DIGIT: Class := iset c: Unit | IsOctal(c)
  const OCTAL_OR_SEP: Class := iset c: Unit | IsOctalOrSep(c)
  const BINARY_DIGIT: Class := iset c: Unit | IsBinary(c)
  const BINARY_OR_SEP: Class := iset c: Unit | IsBinaryOrSep(c)
  const WORD: Class := iset c: Unit | IsWord(c)
  const NAME_CHAR: Class := iset c: Unit | IsNameChar(c)

  predicate In(k: Class, c: Unit) { c in k }

  const HYPHEN: Unit := 0x2D

  /** How many code units from `from` on satisfy `p`, up to the first that does not. */
  function Span(s: JsString, from: nat, p: Class): (n: nat)
    requires from <= |s|
    ensures from + n <= |s|
    ensures forall i | from <= i < from + n :: In(p, s[i])
    ensures from + n == |s| || !In(p, s[from + n])
    decreases |s| - from
  {
    if from < |s| && In(p, s[from]) then 1 + Span(s, from + 1, p) else 0
  }

  /** The next code unit, if any (`None` stands for the end of the input). */
  function At(s: JsString, i: nat): Option<Unit> {
    if i < |s| then Some(s[i]) else None
  }

  // ---------------------------------------------------------------------
  // Integer literals

  datatype NumberForm =
    | BigHex | BigOctal | BigBinary | BigDecimal
    | Hex | Octal | Binary | DecimalInteger

  /** The forms in the order the `number` rule tries them. */
  const NUMBER_ORDER: seq<NumberForm> :=
    [BigHex, BigOctal, BigBinary, BigDecimal, Hex, Octal, Binary, DecimalInteger]

  predicate IsBig(f: NumberForm) { f.BigHex? || f.BigOctal? || f.BigBinary? || f.BigDecimal? }

  /** The base form a Big form extends. */
  function BaseForm(f: NumberForm): (b: NumberForm)
    ensures !IsBig(b)
  {
    match f
    case BigHex => Hex
    case BigOctal => Octal
    case BigBinary => Binary
    case BigDecimal => DecimalInteger
    case _ => f
  }

  /** `DecimalIntegerLiteral: Or('0', /[1-9][0-9_]*\/)`. */
  function MatchDecimalInteger(s: JsString): Option<nat> {
    if |s| > 0 && s[0] == 0x30 then Some(1)
    else if |s| > 0 && IsNonZeroDigit(s[0]) then Some(1 + Span(s, 1, DIGIT_OR_SEP))
    else None
  }

  /** `0`, a letter `x1`/`x2`, one digit satisfying `first`, then any run of `rest`. */
  function MatchPrefixed(s: JsString, x1: Unit, x2: Unit, first: Class, rest: Class): Option<nat> {
    if |s| >= 3 && s[0] == 0x30 && (s[1] == x1 || s[1] == x2) && In(first, s[2])
    then Some(3 + Span(s, 3, rest))
    else None
  }

  /** The matcher of one integer rule, tried on its own. The hexadecimal
      rules need a genuine digit after `0x` and then take `HexDigit`s, which
      admit `_`; octal and binary are single regular expressions. A Big form
      is its base form followed by `n`. */
  function MatchForm(f: NumberForm, s: JsString): (m: Option<nat>)
    ensures m.Some? ==> 1 <= m.value <= |s|
    decreases if IsBig(f) then 1 else 0
  {
    match f
    case DecimalInteger => MatchDecimalInteger(s)
    case Hex => MatchPrefixed(s, 0x78, 0x58, REAL_HEX, HEX_DIGIT)
    case Octal => MatchPrefixed(s, 0x6F, 0x4F, OCTAL_DIGIT, OCTAL_OR_SEP)
    case Binary => MatchPrefixed(s, 0x62, 0x42, BINARY_DIGIT, BINARY_OR_SEP)
    case _ =>
      var base := MatchForm(BaseForm(f), s);
      if base.Some? && base.value < |s| && s[base.value] == 0x6E then Some(base.value + 1) else None
  }

  /** The `number` rule: the first form, in `NUMBER_ORDER`, whose matcher succeeds. */
  function MatchNumber(s: JsString): (r: Option<(NumberForm, nat)>)
    ensures r.Some? ==> 1 <= r.value.1 <= |s| && MatchForm(r.value.0, s) == Some(r.value.1)
    ensures r.None? ==> forall j | 0 <= j < |NUMBER_ORDER| :: MatchForm(NUMBER_ORDER[j], s).None?
  {
    FirstForm(s, 0)
  }

  /** The ordered choice from alternative `k` on. */
  function FirstForm(s: JsString, k: nat): (r: Option<(NumberForm, nat)>)
    requires k <= |NUMBER_ORDER|
    ensures r.Some? ==> MatchForm(r.value.0, s) == Some(r.value.1)
    ensures r.None? ==> forall j | k <= j < |NUMBER_ORDER| :: MatchForm(NUMBER_ORDER[j], s).None?
    decreases |NUMBER_ORDER| - k
  {
    if k == |NUMBER_ORDER| then None
    else
      var m := MatchForm(NUMBER_ORDER[k], s);
      if m.Some? then Some((NUMBER_ORDER[k], m.value)) else FirstForm(s, k + 1)
  }

  /** The regular expression `\b` between two positions. */
  predicate Boundary(before: Option<Unit>, after: Option<Unit>) {
    (before.Some? && IsWord(before.value)) != (after.Some? && IsWord(after.value))
  }

  /** The number alternative of `item`: `And(Hide(/\b/), Rule('number'), Hide(/\b/))`,
      where `prev` is the code unit before the current position. */
  function MatchNumberItem(prev: Option<Unit>, s: JsString): (r: Option<(NumberForm, nat)>)
    ensures r.Some? ==> r == MatchNumber(s)
    ensures r.Some? <==>
      (MatchNumber(s).Some? && (prev.None? || !IsWord(prev.value))
       && (MatchNumber(s).value.1 == |s| || !IsWord(s[MatchNumber(s).value.1])))
  {
    if !Boundary(prev, At(s, 0)) then None
    else match MatchNumber(s)
      case None => None
      case Some((f, n)) =>
        NumberIsWord(f, s, n);
        if n > 0 && Boundary(Some(s[n - 1]), At(s, n)) then Some((f, n)) else None
  }

  // The languages of the integer rules.

  predicate DecimalIntegerShape(t: JsString) {
    t == [0x30] || (|t| >= 1 && IsNonZeroDigit(t[0]) && forall i | 1 <= i < |t| :: IsDigitOrSep(t[i]))
  }

  predicate PrefixedShape(t: JsString, x1: Unit, x2: Unit, first: Class, rest: Class) {
    |t| >= 3 && t[0] == 0x30 && (t[1] == x1 || t[1] == x2) && In(first, t[2])
    && forall i | 3 <= i < |t| :: In(rest, t[i])
  }

  predicate NumberShape(f: NumberForm, t: JsString)
    decreases if IsBig(f) then 1 else 0
  {
    match f
    case DecimalInteger => DecimalIntegerShape(t)
    case Hex => PrefixedShape(t, 0x78, 0x58, REAL_HEX, HEX_DIGIT)
    case Octal => PrefixedShape(t, 0x6F, 0x4F, OCTAL_DIGIT, OCTAL_OR_SEP)
    case Binary => PrefixedShape(t, 0x62, 0x42, BINARY_DIGIT, BINARY_OR_SEP)
    case _ => |t| >= 1 && t[|t| - 1] == 0x6E && NumberShape(BaseForm(f), t[..|t| - 1])
  }

  /** A form's matcher consumes a whole token exactly when the token has
      that form's shape: a decimal integer is `0` or `[1-9][0-9_]*`; hex,
      octal and binary need a genuine digit right after the prefix and then
      digits or `_`; a Big form is its base form plus a trailing `n`. */
  lemma {:induction false} ShapeExact(f: NumberForm, t: JsString)
    ensures MatchForm(f, t) == Some(|t|) <==> NumberShape(f, t)
    decreases if IsBig(f) then 1 else 0
  {
    if IsBig(f) {
      var b := BaseForm(f);
      if |t| >= 1 && t[|t| - 1] == 0x6E {
        var u := t[..|t| - 1];
        ShapeExact(b, u);
        MatchFormPrefix(b, u, t);
      }
    }
  }

  /** A non-Big form's match does not look past the end of its token, except
      to find where the token stops: extending the input by a code unit that
      the token's last class does not admit leaves the match unchanged.
      Here: `t` ends with `n`, which no non-Big form can consume. */
  lemma MatchFormPrefix(b: NumberForm, u: JsString, t: JsString)
    requires !IsBig(b) && |t| == |u| + 1 && t[..|u|] == u && t[|u|] == 0x6E
    ensures MatchForm(b, u) == Some(|u|) <==> MatchForm(b, t) == Some(|u|)
  {
    match b
    case DecimalInteger =>
      if |u| > 0 && IsNonZeroDigit(u[0]) {
        SpanExtend(u, t, 1, DIGIT_OR_SEP);
      }
    case Hex =>
      if |u| >= 3 { SpanExtend(u, t, 3, HEX_DIGIT); }
    case Octal =>
      if |u| >= 3 { SpanExtend(u, t, 3, OCTAL_OR_SEP); }
    case Binary =>
      if |u| >= 3 { SpanExtend(u, t, 3, BINARY_OR_SEP); }
  }

  /** Appending a code unit that `p` rejects does not change a span. */
  lemma {:induction false} SpanExtend(u: JsString, t: JsString, from: nat, p: Class)
    requires from <= |u| && |t| == |u| + 1 && t[..|u|] == u && !In(p, t[|u|])
    ensures Span(u, from, p) == Span(t, from, p)
    decreases |u| - from
  {
    if from < |u| {
      assert t[from] == u[from];
      SpanExtend(u, t, from + 1, p);
    }
  }

  /** What the `number` rule returns is the first form in order that matches,
      and the text it consumed has that form's shape. */
  lemma {:induction false} NumberSound(s: JsString, f: NumberForm, n: nat)
    requires MatchNumber(s) == Some((f, n))
    ensures 1 <= n <= |s| && MatchForm(f, s) == Some(n) && NumberShape(f, s[..n])
    ensures exists k | 0 <= k < |NUMBER_ORDER| ::
      (NUMBER_ORDER[k] == f && forall j | 0 <= j < k :: MatchForm(NUMBER_ORDER[j], s).None?)
  {
    var k := FirstFormSound(s, 0);
    MatchedShape(f, s, n);
  }

  lemma {:induction false} FirstFormSound(s: JsString, k0: nat) returns (k: nat)
    requires k0 <= |NUMBER_ORDER| && FirstForm(s, k0).Some?
    ensures k0 <= k < |NUMBER_ORDER|
    ensures MatchForm(NUMBER_ORDER[k], s).Some?
    ensures FirstForm(s, k0) == Some((NUMBER_ORDER[k], MatchForm(NUMBER_ORDER[k], s).value))
    ensures forall j | k0 <= j < k :: MatchForm(NUMBER_ORDER[j], s).None?
    decreases |NUMBER_ORDER| - k0
  {
    if MatchForm(NUMBER_ORDER[k0], s).Some? {
      k := k0;
    } else {
      k := FirstFormSound(s, k0 + 1);
    }
  }

  /** A successful matcher consumes a token of its form's shape. */
  lemma {:induction false} MatchedShape(f: NumberForm, s: JsString, n: nat)
    requires MatchForm(f, s) == Some(n)
    ensures n <= |s| && NumberShape(f, s[..n])
    decreases if IsBig(f) then 1 else 0
  {
    if IsBig(f) {
      var b := BaseForm(f);
      var m := MatchForm(b, s).value;
      MatchedShape(b, s, m);
      assert s[..n][..n - 1] == s[..m];
    } else if f.DecimalInteger? {
      if s[0] != 0x30 {
        assert forall i | 1 <= i < n :: s[..n][i] == s[i];
      }
    }
  }

  /** Every code unit of a number token is a word character: the `number`
      rule offers only integer forms, never a fraction or an exponent. */
  lemma {:induction false} NumberIsWord(f: NumberForm, s: JsString, n: nat)
    requires MatchForm(f, s) == Some(n)
    ensures forall i | 0 <= i < n :: IsWord(s[i])
    decreases if IsBig(f) then 1 else 0
  {
    if IsBig(f) {
      NumberIsWord(BaseForm(f), s, n - 1);
    }
  }

  /** The ordered choice picks a form as soon as every form before it fails. */
  lemma {:induction false} FirstFormAt(s: JsString, k0: nat, k: nat)
    requires k0 <= k < |NUMBER_ORDER|
    requires forall j | k0 <= j < k :: MatchForm(NUMBER_ORDER[j], s).None?
    requires MatchForm(NUMBER_ORDER[k], s).Some?
    ensures FirstForm(s, k0) == Some((NUMBER_ORDER[k], MatchForm(NUMBER_ORDER[k], s).value))
    decreases k - k0
  {
    if k0 < k {
      FirstFormAt(s, k0 + 1, k);
    }
  }

  /** The Big form that extends a base form. */
  function BigOf(f: NumberForm): (b: NumberForm)
    requires !IsBig(f)
    ensures IsBig(b) && BaseForm(b) == f
  {
    match f
    case Hex => BigHex
    case Octal => BigOctal
    case Binary => BigBinary
    case DecimalInteger => BigDecimal
  }

  /** The Big forms are tried first: a base literal followed by `n` is read
      as the Big literal of that base, never as the base literal alone. */
  lemma BigFormsFirst(f: NumberForm, s: JsString, n: nat)
    requires !IsBig(f) && MatchForm(f, s) == Some(n) && n < |s| && s[n] == 0x6E
    ensures MatchNumber(s) == Some((BigOf(f), n + 1))
  {
    match f
    case Hex => BigHexFirst(s, n);
    case Octal => BigOctalFirst(s, n);
    case Binary => BigBinaryFirst(s, n);
    case DecimalInteger => BigDecimalFirst(s, n);
  }

  lemma BigHexFirst(s: JsString, n: nat)
    requires MatchForm(Hex, s) == Some(n) && n < |s| && s[n] == 0x6E
    ensures MatchNumber(s) == Some((BigHex, n + 1))
  {
    BigExtendsBase(Hex, s, n);
    FirstFormHit(s, 0);
  }

  /** The Big forms tried before `BigOctal` need the letter `x`. */
  lemma BigOctalFirst(s: JsString, n: nat)
    requires MatchForm(Octal, s) == Some(n) && n < |s| && s[n] == 0x6E
    ensures MatchNumber(s) == Some((BigOctal, n + 1))
  {
    BigExtendsBase(Octal, s, n);
    BigFailsWithBase(BigHex, s);
    FirstFormSkip(s, 0);
    FirstFormHit(s, 1);
  }

  /** The Big forms tried before `BigBinary` need the letter `x` or `o`. */
  lemma BigBinaryFirst(s: JsString, n: nat)
    requires MatchForm(Binary, s) == Some(n) && n < |s| && s[n] == 0x6E
    ensures MatchNumber(s) == Some((BigBinary, n + 1))
  {
    BigExtendsBase(Binary, s, n);
    BigFailsWithBase(BigHex, s);
    BigFailsWithBase(BigOctal, s);
    FirstFormSkip(s, 0);
    FirstFormSkip(s, 1);
    FirstFormHit(s, 2);
  }

  lemma BigDecimalFirst(s: JsString, n: nat)
    requires MatchForm(DecimalInteger, s) == Some(n) && n < |s| && s[n] == 0x6E
    ensures MatchNumber(s) == Some((BigDecimal, n + 1))
  {
    DecimalNotPrefixed(s, n);
    BigExtendsBase(DecimalInteger, s, n);
    BigFailsWithBase(BigHex, s);
    BigFailsWithBase(BigOctal, s);
    BigFailsWithBase(BigBinary, s);
    FirstFormSkip(s, 0);
    FirstFormSkip(s, 1);
    FirstFormSkip(s, 2);
    FirstFormHit(s, 3);
  }

  /** A decimal literal followed by `n` is no hexadecimal, octal or binary
      one: after a leading `0` comes the `n` itself, not a prefix letter. */
  lemma DecimalNotPrefixed(s: JsString, n: nat)
    requires MatchForm(DecimalInteger, s) == Some(n) && n < |s| && s[n] == 0x6E
    ensures MatchForm(Hex, s).None? && MatchForm(Octal, s).None? && MatchForm(Binary, s).None?
  {
    if s[0] == 0x30 {
      assert n == 1;
    }
  }

  /** A base literal followed by `n` matches the Big form one code unit further. */
  lemma BigExtendsBase(f: NumberForm, s: JsString, n: nat)
    requires !IsBig(f) && MatchForm(f, s) == Some(n) && n < |s| && s[n] == 0x6E
    ensures MatchForm(BigOf(f), s) == Some(n + 1)
  {
  }

  /** A Big form fails where its base form does. */
  lemma BigFailsWithBase(f: NumberForm, s: JsString)
    requires IsBig(f) && MatchForm(BaseForm(f), s).None?
    ensures MatchForm(f, s).None?
  {
  }

  /** A form that fails passes the choice on to the next one. */
  lemma FirstFormSkip(s: JsString, k: nat)
    requires k < |NUMBER_ORDER| && MatchForm(NUMBER_ORDER[k], s).None?
    ensures FirstForm(s, k) == FirstForm(s, k + 1)
  {
  }

  /** A form that matches is the one chosen. */
  lemma FirstFormHit(s: JsString, k: nat)
    requires k < |NUMBER_ORDER| && MatchForm(NUMBER_ORDER[k], s).Some?
    ensures FirstForm(s, k) == Some((NUMBER_ORDER[k], MatchForm(NUMBER_ORDER[k], s).value))
  {
  }

  /** The boundary guard of `item` rejects a literal with a leading zero such
      as `007`: the decimal form stops after the `0`, and no boundary follows. */
  lemma LeadingZeroRejected(prev: Option<Unit>, s: JsString)
    requires |s| >= 2 && s[0] == 0x30 && IsDecimalDigit(s[1])
    ensures MatchNumberItem(prev, s).None?
  {
    assert MatchNumber(s) == Some((DecimalInteger, 1));
  }

  /** `0x_FF` is not a number: a genuine hexadecimal digit must follow `0x`. */
  lemma HexSeparatorFirstRejected(prev: Option<Unit>, s: JsString)
    requires |s| >= 3 && s[0] == 0x30 && s[1] == 0x78 && s[2] == 0x5F
    ensures MatchNumberItem(prev, s).None?
  {
    assert MatchNumber(s) == Some((DecimalInteger, 1));
  }

  /** A whole octal token is read as one octal literal: no earlier form
      matches, and its digit run reaches the end. */
  lemma OctalReadWhole(s: JsString)
    requires PrefixedShape(s, 0x6F, 0x4F, OCTAL_DIGIT, OCTAL_OR_SEP)
    ensures MatchNumber(s) == Some((Octal, |s|))
  {
    ShapeExact(Octal, s);
    assert MatchForm(Hex, s).None? && MatchForm(Binary, s).None?;
    assert MatchForm(DecimalInteger, s) == Some(1);
    BigFailsWithBase(BigHex, s);
    assert MatchForm(BigOctal, s).None?;
    BigFailsWithBase(BigBinary, s);
    assert MatchForm(BigDecimal, s).None?;
    FirstFormSkip(s, 0);
    FirstFormSkip(s, 1);
    FirstFormSkip(s, 2);
    FirstFormSkip(s, 3);
    FirstFormSkip(s, 4);
    FirstFormHit(s, 5);
  }

  /** `0o007` is an octal literal. */
  lemma OctalLeadingZeros()
    ensures MatchNumberItem(None, Lit("0o007")) == Some((Octal, 5))
  {
    var s := Lit("0o007");
    assert s[0] == 0x30 && s[1] == 0x6F && s[2] == 0x30 && s[3] == 0x30 && s[4] == 0x37;
    OctalReadWhole(s);
  }

  // ---------------------------------------------------------------------
  // Names

  /** `P+(?:-P+)*`: a non-empty run of `p`, and further runs each joined by
      a single hyphen. */
  predicate HyphenJoined(t: JsString, p: Class) {
    && |t| >= 1 && In(p, t[0]) && In(p, t[|t| - 1])
    && (forall i | 0 <= i < |t| :: In(p, t[i]) || t[i] == HYPHEN)
    && (forall i | 0 <= i < |t| - 1 :: t[i] == HYPHEN ==> t[i + 1] != HYPHEN)
  }

  /** Where the greedy match of `P+(?:-P+)*` that starts at `from` ends. */
  function SegmentsEnd(s: JsString, from: nat, p: Class): (e: nat)
    requires from < |s| && In(p, s[from]) && !In(p, HYPHEN)
    ensures from < e <= |s|
    decreases |s| - from
  {
    var k := from + Span(s, from, p);
    if k + 1 < |s| && s[k] == HYPHEN && In(p, s[k + 1]) then SegmentsEnd(s, k + 1, p) else k
  }

  /** The match of the name pattern `P+(?:-P+)*` behind an optional sigil, as a length. */
  function MatchName(s: JsString, sigil: Option<Unit>, p: Class): (r: Option<nat>)
    requires !In(p, HYPHEN)
    ensures var start := if sigil.Some? then 1 else 0;
      r.None? <==> !(|s| > start && (sigil.Some? ==> s[0] == sigil.value) && In(p, s[start]))
    ensures var start := if sigil.Some? then 1 else 0;
      r.Some? ==> start < r.value <= |s| && HyphenJoined(s[start..r.value], p)
  {
    var start := if sigil.Some? then 1 else 0;
    if |s| > start && (sigil.Some? ==> s[0] == sigil.value) && In(p, s[start])
    then SegmentsSound(s, start, p); Some(SegmentsEnd(s, start, p))
    else None
  }

  /** `identifier: /(?:[a-zA-Z0-9_]+(?:-[a-zA-Z0-9_]+)*)/` */
  function MatchIdentifier(s: JsString): (r: Option<nat>)
    ensures r.None? <==> |s| == 0 || !IsWord(s[0])
    ensures r.Some? ==> 0 < r.value <= |s| && HyphenJoined(s[0..r.value], WORD)
  { MatchName(s, None, WORD) }
  /** `variable`'s name: `/\$(?:[a-zA-Z0-9_]+(?:-[a-zA-Z0-9_]+)*)/` */
  function MatchVariableName(s: JsString): (r: Option<nat>)
    ensures r.None? <==> |s| < 2 || s[0] != 0x24 || !IsWord(s[1])
    ensures r.Some? ==> 1 < r.value <= |s| && HyphenJoined(s[1..r.value], WORD)
  { MatchName(s, Some(0x24), WORD) }
  /** `directive`'s name: `/#(?:[a-zA-Z_]+(?:-[a-zA-Z_]+)*)/` */
  function MatchDirectiveName(s: JsString): (r: Option<nat>)
    ensures r.None? <==> |s| < 2 || s[0] != 0x23 || !IsNameChar(s[1])
    ensures r.Some? ==> 1 < r.value <= |s| && HyphenJoined(s[1..r.value], NAME_CHAR)
  { MatchName(s, Some(0x23), NAME_CHAR) }
  /** `plugin`'s name: `/@(?:[a-zA-Z_]+(?:-[a-zA-Z_]+)*)/` */
  function MatchPluginName(s: JsString): (r: Option<nat>)
    ensures r.None? <==> |s| < 2 || s[0] != 0x40 || !IsNameChar(s[1])
    ensures r.Some? ==> 1 < r.value <= |s| && HyphenJoined(s[1..r.value], NAME_CHAR)
  { MatchName(s, Some(0x40), NAME_CHAR) }

  /** A colour token: `#` and three or six genuine hexadecimal digits. */
  predicate ColorShape(t: JsString) {
    (|t| == 4 || |t| == 7) && t[0] == 0x23 && forall i | 1 <= i < |t| :: IsRealHex(t[i])
  }

  /** `color: /#(?:[0-9a-fA-F]{3}){1,2}/`: six digits when there are, else three. */
  function MatchColor(s: JsString): (r: Option<nat>)
    ensures r.Some? ==> r.value <= |s| && ColorShape(s[..r.value])
    ensures r.None? ==> |s| < 4 || !ColorShape(s[..4])
    ensures r == Some(4) ==> |s| < 7 || !ColorShape(s[..7])
  {
    if |s| >= 7 && s[0] == 0x23 && forall i | 1 <= i < 7 :: IsRealHex(s[i]) then Some(7)
    else if |s| >= 4 && s[0] == 0x23 && forall i | 1 <= i < 4 :: IsRealHex(s[i]) then Some(4)
    else None
  }

  /** The greedy name match stops on a token of the name shape, and cannot
      be extended by another hyphen-joined run. */
  lemma {:induction false} SegmentsSound(s: JsString, from: nat, p: Class)
    requires from < |s| && In(p, s[from]) && !In(p, HYPHEN)
    ensures HyphenJoined(s[from..SegmentsEnd(s, from, p)], p)
    ensures var e := SegmentsEnd(s, from, p);
      e == |s| || (!In(p, s[e]) && !(e + 1 < |s| && s[e] == HYPHEN && In(p, s[e + 1])))
    decreases |s| - from
  {
    var k := from + Span(s, from, p);
    if k + 1 < |s| && s[k] == HYPHEN && In(p, s[k + 1]) {
      SegmentsSound(s, k + 1, p);
      assert SegmentsEnd(s, from, p) == SegmentsEnd(s, k + 1, p);
      JoinRun(s, from, k, SegmentsEnd(s, k + 1, p), p);
    } else {
      assert SegmentsEnd(s, from, p) == k;
      RunJoined(s, from, k, p);
    }
  }

  /** A run of `p` alone is a hyphen-joined token. */
  lemma RunJoined(s: JsString, from: nat, k: nat, p: Class)
    requires from < k <= |s| && !In(p, HYPHEN)
    requires forall i | from <= i < k :: In(p, s[i])
    ensures HyphenJoined(s[from..k], p)
  {
    var t := s[from..k];
    assert t[0] == s[from] && t[|t| - 1] == s[k - 1];
    assert forall i | 0 <= i < |t| :: t[i] == s[from + i];
  }

  /** A run of `p`, a hyphen, and a hyphen-joined token make one hyphen-joined token. */
  lemma JoinRun(s: JsString, from: nat, k: nat, e: nat, p: Class)
    requires from < k && k + 1 < e <= |s| && !In(p, HYPHEN)
    requires forall i | from <= i < k :: In(p, s[i])
    requires s[k] == HYPHEN && HyphenJoined(s[k + 1..e], p)
    ensures HyphenJoined(s[from..e], p)
  {
    var t := s[from..e];
    var t2 := s[k + 1..e];
    assert t[0] == s[from];
    assert t[|t| - 1] == t2[|t2| - 1];
    forall i | 0 <= i < |t| ensures In(p, t[i]) || t[i] == HYPHEN {
      if from + i > k { assert t[i] == t2[from + i - (k + 1)]; } else { assert t[i] == s[from + i]; }
    }
    forall i | 0 <= i < |t| - 1 ensures t[i] == HYPHEN ==> t[i + 1] != HYPHEN {
      if from + i > k {
        assert t[i] == t2[from + i - (k + 1)] && t[i + 1] == t2[from + i + 1 - (k + 1)];
      } else if from + i < k {
        assert t[i] == s[from + i];
      } else {
        assert t[i + 1] == t2[0];
      }
    }
  }

  /** The greedy name match covers every hyphen-joined token that fills the rest of the input. */
  lemma {:induction false} SegmentsComplete(s: JsString, from: nat, p: Class)
    requires from < |s| && !In(p, HYPHEN) && HyphenJoined(s[from..], p)
    ensures SegmentsEnd(s, from, p) == |s|
    decreases |s| - from
  {
    var t := s[from..];
    assert t[0] == s[from];
    var k := from + Span(s, from, p);
    if k < |s| {
      assert t[k - from] == s[k];
      assert s[k] == HYPHEN;
      assert k + 1 < |s| by { assert t[|t| - 1] == s[|s| - 1]; }
      assert t[k + 1 - from] == s[k + 1];
      assert In(p, s[k + 1]);
      var t2 := s[k + 1..];
      forall i | 0 <= i < |t2| ensures In(p, t2[i]) || t2[i] == HYPHEN {
        assert t2[i] == t[i + k + 1 - from];
      }
      forall i | 0 <= i < |t2| - 1 ensures t2[i] == HYPHEN ==> t2[i + 1] != HYPHEN {
        assert t2[i] == t[i + k + 1 - from] && t2[i + 1] == t[i + k + 2 - from];
      }
      assert t2[|t2| - 1] == s[|s| - 1];
      SegmentsComplete(s, k + 1, p);
    }
  }

  /** A name token is matched whole exactly when it is hyphen-joined runs of
      the name characters; this holds for identifiers, and so, behind their
      sigils, for variables, directives and plugin references. */
  lemma IdentifierExact(t: JsString)
    ensures MatchIdentifier(t) == Some(|t|) <==> HyphenJoined(t, WORD)
  {
    if MatchIdentifier(t) == Some(|t|) {
      SegmentsSound(t, 0, WORD);
      assert t[0..|t|] == t;
    }
    if HyphenJoined(t, WORD) {
      assert t[0..] == t;
      SegmentsComplete(t, 0, WORD);
    }
  }

  /** The name a walker takes from a directive or plugin token, the token
      without its sigil, is a hyphen-joined run of `[a-zA-Z_]`. */
  lemma SigilNameStripped(s: JsString, sigil: Unit, n: nat)
    requires MatchName(s, Some(sigil), NAME_CHAR) == Some(n)
    ensures 1 < n <= |s| && s[0] == sigil
    ensures HyphenJoined(Tail(s[..n]), NAME_CHAR)
  {
    SegmentsSound(s, 1, NAME_CHAR);
    assert Tail(s[..n]) == s[1..n];
  }

  /** In `item` the identifier alternative is tried before the number
      alternative and matches wherever a number does, at least as far. */
  lemma IdentifierCoversNumber(s: JsString, f: NumberForm, n: nat)
    requires MatchNumber(s) == Some((f, n))
    ensures MatchIdentifier(s).Some? && MatchIdentifier(s).value >= n
  {
    NumberSound(s, f, n);
    NumberIsWord(f, s, n);
    assert SegmentsEnd(s, 0, WORD) >= Span(s, 0, WORD);
  }

  /** In `item` the colour alternative comes first, so a directive whose
      name starts with three hexadecimal letters (`#fade`, `#add`) is read
      as a colour. */
  lemma ColorExact(t: JsString)
    ensures MatchColor(t) == Some(|t|) <==> ColorShape(t)
  {
    if MatchColor(t) == Some(|t|) {
      assert t[..|t|] == t;
    }
    if ColorShape(t) {
      assert t[..|t|] == t;
    }
  }

  lemma ColorCoversHexDirective(s: JsString)
    requires MatchDirectiveName(s).Some? && |s| >= 4
    requires forall i | 1 <= i < 4 :: IsRealHex(s[i])
    ensures MatchColor(s).Some?
  {
  }
}
