/** JavaScript strings as sequences of UTF-16 code units, with the few
    string operations the compiler front-end relies on. */
module Units {

  /** One UTF-16 code unit: what `String.fromCharCode` produces and what a
      JavaScript string is made of (lone surrogates included). */
  type Unit = u: int | 0 <= u < 0x1_0000

  type JsString = seq<Unit>

  datatype Option<+T> = None | Some(value: T)

  /** The code unit of a character of the Basic Multilingual Plane. */
  function U(ch: char): (u: Unit)
    requires (ch as int) < 0x1_0000
    ensures u as int == ch as int
  {
    ch as int
  }

  /** The code units of a string literal written in the model (ASCII). */
  function Lit(s: string): (r: JsString)
    requires forall i | 0 <= i < |s| :: (s[i] as int) < 0x1_0000
    ensures |r| == |s|
    ensures forall i | 0 <= i < |s| :: r[i] == s[i] as int
  {
    seq(|s|, i requires 0 <= i < |s| => U(s[i]))
  }

  const LF: Unit := 0x0A
  const CR: Unit := 0x0D
  const LINE_SEPARATOR: Unit := 0x2028
  const PARAGRAPH_SEPARATOR: Unit := 0x2029

  /** `s.slice(1)`: everything after the first code unit (empty stays empty). */
  function Tail(s: JsString): (r: JsString)
    ensures |s| > 0 ==> [s[0]] + r == s
    ensures |s| == 0 ==> r == []
  {
    if |s| == 0 then [] else s[1..]
  }

  /** `parts.join(sep)` for parts that are already strings. */
  function Join(parts: seq<JsString>, sep: JsString): (r: JsString)
    ensures |parts| == 1 ==> r == parts[0]
  {
    if |parts| == 0 then []
    else if |parts| == 1 then parts[0]
    else Join(parts[..|parts| - 1], sep) + sep + parts[|parts| - 1]
  }

  /** `parts.join('')`. */
  function Concat(parts: seq<JsString>): JsString
  {
    if |parts| == 0 then [] else Concat(parts[..|parts| - 1]) + parts[|parts| - 1]
  }

  /** A code unit in `0`..`9`. */
  predicate IsDecimalDigit(c: Unit) {
    0x30 <= c <= 0x39
  }

  /** The decimal rendering of a natural number, as `${n}` writes it. */
  function Decimal(n: nat): (r: JsString)
    ensures |r| >= 1
    ensures forall i | 0 <= i < |r| :: IsDecimalDigit(r[i])
    ensures |r| > 1 ==> r[0] != 0x30
    decreases n
  {
    if n < 10 then [0x30 + n] else Decimal(n / 10) + [0x30 + n % 10]
  }

  /** The number a string of decimal digits denotes. */
  function DecimalValue(s: JsString): nat
    requires forall i | 0 <= i < |s| :: IsDecimalDigit(s[i])
  {
    if |s| == 0 then 0
    else
      var last := s[|s| - 1];
      assert IsDecimalDigit(last);
      10 * DecimalValue(s[..|s| - 1]) + (last as int - 0x30)
  }

  /** Reading back a rendered number gives the number. */
  lemma {:induction false} DecimalRoundTrip(n: nat)
    ensures DecimalValue(Decimal(n)) == n
    decreases n
  {
    if n >= 10 {
      DecimalRoundTrip(n / 10);
      var r := Decimal(n);
      assert r[..|r| - 1] == Decimal(n / 10);
    }
  }

  /** Different numbers render differently. */
  lemma DecimalInjective(a: nat, b: nat)
    requires Decimal(a) == Decimal(b)
    ensures a == b
  {
    DecimalRoundTrip(a);
    DecimalRoundTrip(b);
  }
}
