/**
 * The Python values that reach pbs3's command layer, and the handful of
 * Python built-ins the command layer applies to them: truthiness, `==`,
 * `is True`, `str()`, `repr()`, `"%d" % n`, `str.replace("_", "-")`,
 * `" ".join(...)` and `str.encode()` (UTF-8).
 */
module PyValues {
  import opened Wrappers

  newtype byte = x: int | 0 <= x < 256

  /** The two built-in sequences an argument may be; `str()` brackets them differently. */
  datatype SequenceKind = List | Tuple

  /** How an object answers `if v:` and `v.encode`, the two uses the input option makes of it. */
  datatype ObjectKind =
      /** an object without `encode`, true or false by its own `__bool__` or `__len__` (`b""`, `{}` and `set()` are false) */
    | Plain(truthy: bool)
      /**
       * a `RunningCommand` whose child has run: its length is that of its output text,
       * and any attribute it does not define, `encode` included, is looked up on that text
       */
    | RunningOutput

  /** A Python value passed as an argument or as an option. */
  datatype Value =
    | Text(s: string)
    | Int(i: int)
    | Bool(b: bool)
    | NoneValue
      /** a list or a tuple */
    | Items(elems: seq<Value>, kind: SequenceKind)
      /** any other object: compared by identity, rendered by its own `__str__` and `__repr__` */
    | Object(id: nat, text: string, reprText: string, objectKind: ObjectKind)

  /** `os.environ`, the default of the `env` option; its contents are not modelled. */
  const ProcessEnvironment: Value := Object(0, "environ", "environ", Plain(true))

  /** An empty list or tuple, the argument `_compile_args` warns about. */
  predicate IsEmptySequence(v: Value) {
    v.Items? && v.elems == []
  }

  /** `v is True` */
  predicate IsTrue(v: Value) {
    v == Bool(true)
  }

  /** Python truthiness (`if v:`); a `RunningCommand` is true exactly when its output text is not empty. */
  predicate Truthy(v: Value) {
    match v
    case Text(s) => s != ""
    case Int(i) => i != 0
    case Bool(b) => b
    case NoneValue => false
    case Items(xs, _) => xs != []
    case Object(_, text, _, kind) => if kind.Plain? then kind.truthy else text != ""
  }

  /** The integer a bool or an int stands for in arithmetic and comparison. */
  function Numeric(v: Value): int
    requires v.Int? || v.Bool?
  {
    if v.Int? then v.i else if v.b then 1 else 0
  }

  /**
   * Python `a == b`: a bool equals the int it stands for; lists and tuples
   * compare element-wise, and a list never equals a tuple.
   */
  predicate PyEq(a: Value, b: Value)
    decreases a
  {
    match a
    case Text(s) => b.Text? && b.s == s
    case Int(_) => (b.Int? || b.Bool?) && Numeric(a) == Numeric(b)
    case Bool(_) => (b.Int? || b.Bool?) && Numeric(a) == Numeric(b)
    case NoneValue => b.NoneValue?
    case Items(xs, kind) =>
      b.Items? && b.kind == kind && |xs| == |b.elems| && forall k :: 0 <= k < |xs| ==> PyEq(xs[k], b.elems[k])
    case Object(id, _, _, _) => b.Object? && b.id == id
  }

  lemma {:induction false} PyEqReflexive(v: Value)
    ensures PyEq(v, v)
    decreases v
  {
    match v
    case Items(xs, _) =>
      forall k | 0 <= k < |xs|
        ensures PyEq(xs[k], xs[k])
      {
        PyEqReflexive(xs[k]);
      }
    case _ =>
  }

  lemma {:induction false} PyEqSymmetric(a: Value, b: Value)
    requires PyEq(a, b)
    ensures PyEq(b, a)
    decreases a
  {
    match a
    case Items(xs, _) =>
      forall k | 0 <= k < |xs|
        ensures PyEq(b.elems[k], xs[k])
      {
        PyEqSymmetric(xs[k], b.elems[k]);
      }
    case _ =>
  }

  // ---------------------------------------------------------------------------
  // Decimal rendering (`str(n)`, `"%d" % n`) and its inverse

  predicate IsDigit(c: char) {
    '0' <= c <= '9'
  }

  predicate AllDigits(s: string) {
    forall k :: 0 <= k < |s| ==> IsDigit(s[k])
  }

  function DigitChar(d: nat): (c: char)
    requires d < 10
    ensures IsDigit(c) && c as int - '0' as int == d
  {
    (d + '0' as int) as char
  }

  /** The decimal digits of `n`, most significant first, with no leading zero. */
  function NatToString(n: nat): string
    decreases n
  {
    if n < 10 then [DigitChar(n)] else NatToString(n / 10) + [DigitChar(n % 10)]
  }

  /** `str(i)` for a Python int: a minus sign before the digits of a negative number. */
  function IntToString(i: int): string {
    if i < 0 then "-" + NatToString(-i) else NatToString(i)
  }

  /** Reads a string of decimal digits back as a number. */
  function ParseNat(s: string): nat
    requires AllDigits(s)
  {
    if s == [] then 0 else ParseNat(s[..|s| - 1]) * 10 + (s[|s| - 1] as int - '0' as int)
  }

  function ParseInt(s: string): int
    requires s != [] && (if s[0] == '-' then AllDigits(s[1..]) else AllDigits(s))
  {
    if s[0] == '-' then 0 - ParseNat(s[1..]) as int else ParseNat(s)
  }

  /** Decimal rendering is read back exactly: `int(str(n)) == n`. */
  lemma {:induction false} NatToStringRoundTrip(n: nat)
    ensures NatToString(n) != [] && AllDigits(NatToString(n))
    ensures ParseNat(NatToString(n)) == n
    decreases n
  {
    if n >= 10 {
      var q, d := n / 10, n % 10;
      NatToStringRoundTrip(q);
      var init := NatToString(q);
      var s := NatToString(n);
      assert s == init + [DigitChar(d)];
      assert s[..|s| - 1] == init;
      assert ParseNat(s) == ParseNat(init) * 10 + d;
    }
  }

  lemma IntToStringRoundTrip(i: int)
    ensures var s := IntToString(i);
      s != [] && (if s[0] == '-' then AllDigits(s[1..]) else AllDigits(s)) && ParseInt(s) == i
  {
    var s := IntToString(i);
    if i < 0 {
      NatToStringRoundTrip(-i);
      assert s[1..] == NatToString(-i);
    } else {
      NatToStringRoundTrip(i);
    }
  }

  /** Distinct integers have distinct decimal forms. */
  lemma IntToStringInjective(i: int, j: int)
    requires i != j
    ensures IntToString(i) != IntToString(j)
  {
    IntToStringRoundTrip(i);
    IntToStringRoundTrip(j);
  }

  // ---------------------------------------------------------------------------
  // str() and repr()

  lemma Associative<T>(a: seq<T>, b: seq<T>, c: seq<T>)
    ensures (a + b) + c == a + (b + c)
  {
  }

  lemma MiddleSlice<T>(a: seq<T>, b: seq<T>, c: seq<T>)
    ensures (a + b + c)[|a|..|a| + |b|] == b
  {
  }

  /** `p + x + t == p + y + t` only when `x == y`. */
  lemma MiddleCancel<T>(p: seq<T>, x: seq<T>, y: seq<T>, t: seq<T>)
    requires p + x + t == p + y + t
    ensures x == y
  {
    assert |x| == |y|;
    MiddleSlice(p, x, t);
    MiddleSlice(p, y, t);
  }

  /** `sep.join(parts)` */
  function Join(parts: seq<string>, sep: string): string {
    if |parts| == 0 then ""
    else if |parts| == 1 then parts[0]
    else Join(parts[..|parts| - 1], sep) + sep + parts[|parts| - 1]
  }

  /** Joining two non-empty lists is joining each and putting one separator between them. */
  lemma {:induction false} JoinAppend(a: seq<string>, b: seq<string>, sep: string)
    requires a != [] && b != []
    ensures Join(a + b, sep) == Join(a, sep) + sep + Join(b, sep)
    decreases |b|
  {
    if |b| > 1 {
      var b' := b[..|b| - 1];
      assert (a + b)[..|a + b| - 1] == a + b';
      JoinAppend(a, b', sep);
    } else {
      assert (a + b)[..|a + b| - 1] == a;
    }
  }

  // ---------------------------------------------------------------------------
  // String literals: how `repr()` shows a string, and reading one back

  /**
   * The quote `repr()` puts around a string: the double quote when the string
   * holds a single quote and no double quote, the single quote otherwise.
   */
  function QuoteFor(s: string): char {
    if '\'' in s && '"' !in s then '"' else '\''
  }

  /** The characters of Latin-1 that Python does not print as they are: controls, no-break space, soft hyphen. */
  predicate NonPrintable(c: char) {
    c < ' ' || ('\U{7F}' <= c <= '\U{A0}') || c == '\U{AD}'
  }

  /** The lower-case hexadecimal digit of `d`. */
  function HexDigit(d: nat): char
    requires d < 16
  {
    if d < 10 then (d + '0' as int) as char else (d - 10 + 'a' as int) as char
  }

  predicate IsHexDigit(c: char) {
    '0' <= c <= '9' || 'a' <= c <= 'f'
  }

  function HexValue(c: char): (d: nat)
    requires IsHexDigit(c)
    ensures d < 16
  {
    if c <= '9' then c as int - '0' as int else c as int - 'a' as int + 10
  }

  /** How one character is written inside a literal delimited by `q`. */
  function EscapeChar(c: char, q: char): string {
    if c == q || c == '\\' then ['\\', c]
    else if c == '\t' then "\\t"
    else if c == '\n' then "\\n"
    else if c == '\r' then "\\r"
    else if NonPrintable(c) then ['\\', 'x', HexDigit(c as int / 16), HexDigit(c as int % 16)]
    else [c]
  }

  function Escape(s: string, q: char): string {
    if s == [] then [] else EscapeChar(s[0], q) + Escape(s[1..], q)
  }

  /** `repr(s)` for a string `s`. */
  function StrLiteral(s: string): string {
    var q := QuoteFor(s);
    [q] + Escape(s, q) + [q]
  }

  function Prepend(c: char, rest: Option<string>): Option<string> {
    if rest.Some? then Some([c] + rest.value) else None
  }

  /**
   * Reads the body of a literal delimited by `q` back into its string; an
   * unescaped delimiter or an unknown escape makes it fail.
   */
  function Unescape(e: string, q: char): Option<string>
    decreases |e|
  {
    if e == [] then Some([])
    else if e[0] == q then None
    else if e[0] != '\\' then Prepend(e[0], Unescape(e[1..], q))
    else if |e| < 2 then None
    else if e[1] == '\\' || e[1] == '\'' || e[1] == '"' then Prepend(e[1], Unescape(e[2..], q))
    else if e[1] == 't' then Prepend('\t', Unescape(e[2..], q))
    else if e[1] == 'n' then Prepend('\n', Unescape(e[2..], q))
    else if e[1] == 'r' then Prepend('\r', Unescape(e[2..], q))
    else if e[1] == 'x' && |e| >= 4 && IsHexDigit(e[2]) && IsHexDigit(e[3]) then
      Prepend((HexValue(e[2]) * 16 + HexValue(e[3])) as char, Unescape(e[4..], q))
    else None
  }

  /** Reads a quoted string literal back, as Python's parser would. */
  function ParseStrLiteral(lit: string): Option<string> {
    if |lit| >= 2 && (lit[0] == '\'' || lit[0] == '"') && lit[|lit| - 1] == lit[0] then
      Unescape(lit[1..|lit| - 1], lit[0])
    else None
  }

  lemma HexDigitValue(d: nat)
    requires d < 16
    ensures IsHexDigit(HexDigit(d)) && HexValue(HexDigit(d)) == d
  {
  }

  /** One escaped character followed by more text reads back as that character followed by the rest. */
  lemma UnescapeChar(c: char, q: char, rest: string)
    requires q == '\'' || q == '"'
    ensures Unescape(EscapeChar(c, q) + rest, q) == Prepend(c, Unescape(rest, q))
  {
    var e := EscapeChar(c, q) + rest;
    if c == q || c == '\\' || c == '\t' || c == '\n' || c == '\r' {
      assert e[2..] == rest;
    } else if NonPrintable(c) {
      var n := c as int;
      HexDigitValue(n / 16);
      HexDigitValue(n % 16);
      assert e[4..] == rest;
      assert (HexValue(e[2]) * 16 + HexValue(e[3])) as char == c;
    } else {
      assert e[1..] == rest;
    }
  }

  lemma {:induction false} EscapeRoundTrip(s: string, q: char)
    requires q == '\'' || q == '"'
    ensures Unescape(Escape(s, q), q) == Some(s)
    decreases |s|
  {
    if s != [] {
      EscapeRoundTrip(s[1..], q);
      UnescapeChar(s[0], q, Escape(s[1..], q));
      assert [s[0]] + s[1..] == s;
    }
  }

  /** `repr()` of a string is a literal that reads back as the same string. */
  lemma StrLiteralRoundTrip(s: string)
    ensures ParseStrLiteral(StrLiteral(s)) == Some(s)
  {
    var q := QuoteFor(s);
    var lit := StrLiteral(s);
    assert lit[1..|lit| - 1] == Escape(s, q);
    EscapeRoundTrip(s, q);
  }

  /** The delimiter is the double quote exactly when the string holds `'` and no `"`. */
  lemma StrLiteralQuote(s: string)
    ensures var lit := StrLiteral(s);
      |lit| >= 2 && lit[0] == lit[|lit| - 1] &&
      (lit[0] == '"' <==> '\'' in s && '"' !in s) && (lit[0] == '\'' <==> !('\'' in s && '"' !in s))
  {
  }

  // ---------------------------------------------------------------------------
  // str() and repr()

  /** `repr(v)`; a one-element tuple keeps its trailing comma. */
  function Repr(v: Value): (r: string)
    ensures v.Text? ==> ParseStrLiteral(r) == Some(v.s)
    ensures v.Items? ==> |r| >= 2 && (r[0] == '[' <==> v.kind == List) && (r[0] == '(' <==> v.kind == Tuple)
    ensures v.Items? && v.kind == List ==> r[|r| - 1] == ']'
    ensures v.Items? && v.kind == Tuple ==> r[|r| - 1] == ')'
    ensures v.Items? && v.kind == Tuple && |v.elems| == 1 ==> r[|r| - 2] == ','
    decreases v
  {
    match v
    case Text(s) =>
      StrLiteralRoundTrip(s);
      StrLiteral(s)
    case Int(i) => IntToString(i)
    case Bool(b) => if b then "True" else "False"
    case NoneValue => "None"
    case Items(xs, kind) =>
      var inner := Join(seq(|xs|, k requires 0 <= k < |xs| => Repr(xs[k])), ", ");
      var open := if kind == List then "[" else "(";
      var close := if kind == List then "]" else if |xs| == 1 then ",)" else ")";
      assert (open + inner + close)[0] == open[0];
      assert kind == Tuple ==> open[0] == '(';
      open + inner + close
    case Object(_, _, r, _) => r
  }

  /** `str(v)`: a string is itself, an object its own `__str__`, any other value its repr. */
  function Str(v: Value): (r: string)
    ensures v.Text? ==> r == v.s
    ensures v.Object? ==> r == v.text
    ensures !v.Text? && !v.Object? ==> r == Repr(v)
  {
    match v
    case Text(s) => s
    case Object(_, text, _, _) => text
    case _ => Repr(v)
  }

  /** A one-element list or tuple shows the repr of its element. */
  lemma SingletonStr(v: Value)
    ensures Str(Items([v], List)) == "[" + Repr(v) + "]"
    ensures Str(Items([v], Tuple)) == "(" + Repr(v) + ",)"
  {
    assert seq(1, k requires 0 <= k < 1 => Repr([v][k])) == [Repr(v)];
  }

  /** A tuple is shown in parentheses, a one-element tuple with its trailing comma. */
  lemma TupleStrExamples()
    ensures Str(Items([Int(1), Int(2)], Tuple)) == "(1, 2)"
    ensures Str(Items([Int(1)], Tuple)) == "(1,)"
  {
    assert Repr(Int(1)) == "1" by {
      assert NatToString(1) == "1";
    }
    assert Repr(Int(2)) == "2" by {
      assert NatToString(2) == "2";
    }
    assert seq(2, k requires 0 <= k < 2 => Repr([Int(1), Int(2)][k])) == ["1", "2"];
    assert Join(["1", "2"], ", ") == Join(["1"], ", ") + ", " + "2";
    SingletonStr(Int(1));
  }

  /** A string in a one-element list is shown as its literal. */
  lemma TextElementStr(s: string)
    ensures Str(Items([Text(s)], List)) == "[" + StrLiteral(s) + "]"
  {
    SingletonStr(Text(s));
  }

  /** A string holding `'` and no `"` is delimited by double quotes. */
  lemma DoubleQuotedLiteral()
    ensures StrLiteral("it's") == "\"it's\""
  {
    ItsQuote();
    ItsEscape();
    var body := Escape("it's", '"');
    assert StrLiteral("it's") == ['"'] + body + ['"'];
  }

  lemma ItsQuote()
    ensures QuoteFor("it's") == '"'
  {
    assert "it's"[2] == '\'';
  }

  lemma ItsEscape()
    ensures Escape("it's", '"') == "it's"
  {
    assert Escape("s", '"') == "s";
    assert Escape("'s", '"') == "'s";
    assert Escape("t's", '"') == "t's";
  }

  /** A string that holds `'` and no `"` is shown in a list between double quotes. */
  lemma DoubleQuotedElement(s: string)
    requires '\'' in s && '"' !in s
    ensures Str(Items([Text(s)], List)) == "[\"" + Escape(s, '"') + "\"]"
  {
    TextElementStr(s);
  }

  /** A tab is written as its escape. */
  lemma EscapedTabLiteral()
    ensures StrLiteral("a\tb") == "'a\\tb'"
  {
    assert QuoteFor("a\tb") == '\'';
    assert Escape("b", '\'') == "b";
    assert Escape("\tb", '\'') == "\\tb";
    assert Escape("a\tb", '\'') == "a\\tb";
  }

  lemma EscapedTabExample()
    ensures Str(Items([Text("a\tb")], List)) == "['a\\tb']"
  {
    EscapedTabLiteral();
    TextElementStr("a\tb");
  }

  /** An object inside a list is shown by its `__repr__`, on its own by its `__str__`. */
  lemma ObjectElementExample()
    ensures Str(Items([Object(1, "a", "PosixPath('a')", Plain(true))], List)) == "[PosixPath('a')]"
    ensures Str(Object(1, "a", "PosixPath('a')", Plain(true))) == "a"
  {
    SingletonStr(Object(1, "a", "PosixPath('a')", Plain(true)));
  }

  /** `s.replace("_", "-")` */
  function ReplaceUnderscores(s: string): (r: string)
    ensures |r| == |s| && '_' !in r
    ensures forall k :: 0 <= k < |s| ==> r[k] == (if s[k] == '_' then '-' else s[k])
  {
    seq(|s|, k requires 0 <= k < |s| => if s[k] == '_' then '-' else s[k])
  }

  // ---------------------------------------------------------------------------
  // str.encode(): UTF-8

  function EncodeChar(c: char): (r: seq<byte>)
    ensures 1 <= |r| <= 4
    ensures |r| == 1 <==> c as int < 0x80
  {
    var n := c as int;
    if n < 0x80 then [n as byte]
    else if n < 0x800 then [(0xC0 + n / 0x40) as byte, (0x80 + n % 0x40) as byte]
    else if n < 0x10000 then
      [(0xE0 + n / 0x1000) as byte, (0x80 + (n / 0x40) % 0x40) as byte, (0x80 + n % 0x40) as byte]
    else
      [(0xF0 + n / 0x40000) as byte, (0x80 + (n / 0x1000) % 0x40) as byte,
       (0x80 + (n / 0x40) % 0x40) as byte, (0x80 + n % 0x40) as byte]
  }

  function Utf8Encode(s: string): seq<byte> {
    if s == [] then [] else Utf8Encode(s[..|s| - 1]) + EncodeChar(s[|s| - 1])
  }

  predicate IsAscii(s: string) {
    forall k :: 0 <= k < |s| ==> s[k] as int < 0x80
  }

  /** An ASCII string encodes to one byte per character, each its code point. */
  lemma {:induction false} AsciiEncoding(s: string)
    requires IsAscii(s)
    ensures |Utf8Encode(s)| == |s|
    ensures forall k :: 0 <= k < |s| ==> Utf8Encode(s)[k] as int == s[k] as int
  {
    if s != [] {
      AsciiEncoding(s[..|s| - 1]);
    }
  }

  lemma {:induction false} Utf8EncodeAppend(a: string, b: string)
    ensures Utf8Encode(a + b) == Utf8Encode(a) + Utf8Encode(b)
    decreases |b|
  {
    if b != [] {
      var b', x := b[..|b| - 1], b[|b| - 1];
      assert (a + b)[..|a + b| - 1] == a + b' && (a + b)[|a + b| - 1] == x;
      assert Utf8Encode(a + b) == Utf8Encode(a + b') + EncodeChar(x);
      assert Utf8Encode(b) == Utf8Encode(b') + EncodeChar(x);
      Utf8EncodeAppend(a, b');
    } else {
      assert a + b == a;
    }
  }

  /** Each character takes one to four bytes. */
  lemma {:induction false} Utf8EncodeLength(s: string)
    ensures |s| <= |Utf8Encode(s)| <= 4 * |s|
  {
    if s != [] {
      Utf8EncodeLength(s[..|s| - 1]);
    }
  }

  // ---------------------------------------------------------------------------
  // bytes.decode(): strict UTF-8

  /** `bytes.decode()` with the strict error handler succeeds: the bytes are the encoding of some text. */
  ghost predicate Decodes(b: seq<byte>) {
    exists t :: Utf8Encode(t) == b
  }

  lemma EncodedDecodes(t: string)
    ensures Decodes(Utf8Encode(t))
  {
  }

  /** A byte that only continues a multi-byte character. */
  predicate IsContinuation(x: byte) {
    0x80 <= x < 0xC0
  }

  /** Every lead byte of a two-byte character is followed by a continuation byte. */
  predicate LeadsComplete(b: seq<byte>) {
    forall k :: 0 <= k < |b| && 0xC0 <= b[k] < 0xE0 ==> k + 1 < |b| && IsContinuation(b[k + 1])
  }

  /** An encoded character is a lead byte followed by continuation bytes. */
  lemma EncodeCharShape(c: char)
    ensures !IsContinuation(EncodeChar(c)[0])
    ensures forall i :: 1 <= i < |EncodeChar(c)| ==> IsContinuation(EncodeChar(c)[i])
    ensures 0xC0 <= EncodeChar(c)[0] < 0xE0 <==> |EncodeChar(c)| == 2
  {
  }

  /** Every encoded text has its two-byte characters whole. */
  lemma {:induction false} EncodedLeadsComplete(t: string)
    ensures LeadsComplete(Utf8Encode(t))
  {
    if t != [] {
      var c := t[|t| - 1];
      var e, x := Utf8Encode(t[..|t| - 1]), EncodeChar(c);
      EncodedLeadsComplete(t[..|t| - 1]);
      EncodeCharShape(c);
      var b := e + x;
      forall k | 0 <= k < |b| && 0xC0 <= b[k] < 0xE0
        ensures k + 1 < |b| && IsContinuation(b[k + 1])
      {
        if k < |e| {
          assert b[k] == e[k];
        } else {
          assert b[k] == x[k - |e|];
        }
      }
    }
  }

  /** Bytes with a two-byte lead cut short do not decode. */
  lemma NotDecodable(b: seq<byte>)
    requires !LeadsComplete(b)
    ensures !Decodes(b)
  {
    forall t
      ensures Utf8Encode(t) != b
    {
      EncodedLeadsComplete(t);
    }
  }

  /** Two decodable byte strings decode one after the other. */
  lemma DecodesConcat(x: seq<byte>, y: seq<byte>)
    requires Decodes(x) && Decodes(y)
    ensures Decodes(x + y)
  {
    var t :| Utf8Encode(t) == x;
    var u :| Utf8Encode(u) == y;
    Utf8EncodeAppend(t, u);
  }

  /** A prefix of an encoded text that ends where a character starts is an encoded text. */
  lemma {:induction false} EncodedPrefixDecodes(t: string, k: nat)
    requires k <= |Utf8Encode(t)|
    requires k == 0 || k == |Utf8Encode(t)| || !IsContinuation(Utf8Encode(t)[k])
    ensures Decodes(Utf8Encode(t)[..k])
    decreases |t|
  {
    var b := Utf8Encode(t);
    if k == |b| {
      assert b[..k] == Utf8Encode(t);
    } else if k == 0 {
      assert b[..k] == Utf8Encode([]);
    } else {
      var init, c := t[..|t| - 1], t[|t| - 1];
      var e := Utf8Encode(init);
      assert b == e + EncodeChar(c);
      EncodeCharShape(c);
      assert forall i :: |e| < i < |b| ==> b[i] == EncodeChar(c)[i - |e|];
      assert k <= |e|;
      assert b[..k] == e[..k];
      if k < |e| {
        assert e[k] == b[k];
      }
      EncodedPrefixDecodes(init, k);
    }
  }

  // ---------------------------------------------------------------------------
  // A strict UTF-8 decoder

  /**
   * The first character of `b` and the number of bytes it takes, when `b`
   * starts with a well-formed one: continuation bytes where the lead byte
   * asks for them, no overlong form, no surrogate, nothing above U+10FFFF.
   */
  function DecodeFirst(b: seq<byte>): (r: Option<(char, nat)>)
    requires b != []
    ensures r.Some? ==> 1 <= r.value.1 <= |b| && r.value.1 <= 4
  {
    var b0 := b[0] as int;
    if b0 < 0x80 then Some((b0 as char, 1))
    else if b0 < 0xC0 then None
    else if b0 < 0xE0 then
      if |b| < 2 || !IsContinuation(b[1]) then None
      else
        var n := (b0 - 0xC0) * 0x40 + (b[1] as int - 0x80);
        if n < 0x80 then None else Some((n as char, 2))
    else if b0 < 0xF0 then
      if |b| < 3 || !IsContinuation(b[1]) || !IsContinuation(b[2]) then None
      else
        var n := (b0 - 0xE0) * 0x1000 + (b[1] as int - 0x80) * 0x40 + (b[2] as int - 0x80);
        if n < 0x800 || 0xD800 <= n < 0xE000 then None else Some((n as char, 3))
    else if b0 < 0xF8 then
      if |b| < 4 || !IsContinuation(b[1]) || !IsContinuation(b[2]) || !IsContinuation(b[3]) then None
      else
        var n := (b0 - 0xF0) * 0x40000 + (b[1] as int - 0x80) * 0x1000 + (b[2] as int - 0x80) * 0x40
                 + (b[3] as int - 0x80);
        if n < 0x10000 || n >= 0x110000 then None else Some((n as char, 4))
    else None
  }

  /** `b.decode()` with the strict error handler: the text, or `None` where Python raises `UnicodeDecodeError`. */
  function Utf8Decode(b: seq<byte>): Option<string>
    decreases |b|
  {
    if b == [] then Some([])
    else
      match DecodeFirst(b)
      case None => None
      case Some((c, k)) => Prepend(c, Utf8Decode(b[k..]))
  }

  /** A number as the base-64 digits the encoder spreads over three bytes. */
  lemma Base64Digits(n: int, a: int, x: int, y: int)
    requires 0 <= x < 0x40 && 0 <= y < 0x40 && a >= 0
    requires n == a * 0x1000 + x * 0x40 + y
    ensures n / 0x40 == a * 0x40 + x && n % 0x40 == y
    ensures (n / 0x40) % 0x40 == x && n / 0x1000 == a
  {
    assert n == (a * 0x40 + x) * 0x40 + y;
  }

  /** A number as the base-64 digits the encoder spreads over four bytes. */
  lemma Base64Digits4(n: int, a: int, x: int, y: int, z: int)
    requires 0 <= x < 0x40 && 0 <= y < 0x40 && 0 <= z < 0x40 && a >= 0
    requires n == a * 0x40000 + x * 0x1000 + y * 0x40 + z
    ensures n / 0x40000 == a && (n / 0x1000) % 0x40 == x && (n / 0x40) % 0x40 == y && n % 0x40 == z
  {
    Base64Digits(n, a * 0x40 + x, y, z);
    assert n / 0x1000 == a * 0x40 + x;
  }

  /** Every natural number below `0x110000` splits into those digits. */
  lemma Base64Split(n: int)
    requires n >= 0
    ensures n == (n / 0x40000) * 0x40000 + ((n / 0x1000) % 0x40) * 0x1000 + ((n / 0x40) % 0x40) * 0x40 + n % 0x40
    ensures n == (n / 0x1000) * 0x1000 + ((n / 0x40) % 0x40) * 0x40 + n % 0x40
  {
    var d1 := n / 0x40;
    var d2 := d1 / 0x40;
    var d3 := d2 / 0x40;
    assert n == d1 * 0x40 + n % 0x40;
    assert d1 == d2 * 0x40 + d1 % 0x40;
    assert d2 == d3 * 0x40 + d2 % 0x40;
    assert n == d2 * 0x1000 + (d1 % 0x40) * 0x40 + n % 0x40;
    assert n / 0x1000 == d2;
    assert n == d3 * 0x40000 + (d2 % 0x40) * 0x1000 + (d1 % 0x40) * 0x40 + n % 0x40;
    assert n / 0x40000 == d3;
  }

  /** Decoding the encoding of a character gives the character back, and says how many bytes it took. */
  lemma DecodeFirstEncodeChar(c: char, rest: seq<byte>)
    ensures DecodeFirst(EncodeChar(c) + rest) == Some((c, |EncodeChar(c)|))
  {
    var n := c as int;
    var e := EncodeChar(c);
    var b := e + rest;
    if n < 0x80 {
    } else if n < 0x800 {
      assert b[0] as int == 0xC0 + n / 0x40 && b[1] as int == 0x80 + n % 0x40;
    } else if n < 0x10000 {
      Base64Split(n);
      assert b[0] as int == 0xE0 + n / 0x1000;
    } else {
      Base64Split(n);
      assert b[0] as int == 0xF0 + n / 0x40000;
    }
  }

  /** What the decoder reads off the front of `b` is the encoding of the character it returns. */
  lemma DecodeFirstEncoded(b: seq<byte>)
    requires b != [] && DecodeFirst(b).Some?
    ensures var (c, k) := DecodeFirst(b).value; b[..k] == EncodeChar(c)
  {
    var (c, k) := DecodeFirst(b).value;
    var n := c as int;
    var b0 := b[0] as int;
    if k == 2 {
      assert n == (b0 - 0xC0) * 0x40 + (b[1] as int - 0x80);
    } else if k == 3 {
      Base64Digits(n, b0 - 0xE0, b[1] as int - 0x80, b[2] as int - 0x80);
    } else if k == 4 {
      Base64Digits4(n, b0 - 0xF0, b[1] as int - 0x80, b[2] as int - 0x80, b[3] as int - 0x80);
    }
  }

  lemma EncodeSingle(c: char)
    ensures Utf8Encode([c]) == EncodeChar(c)
  {
    assert [c][..0] == [];
  }

  lemma EncodeFront(t: string)
    requires t != []
    ensures Utf8Encode(t) == EncodeChar(t[0]) + Utf8Encode(t[1..])
  {
    var c, rest := t[0], t[1..];
    assert [c] + rest == t;
    Utf8EncodeAppend([c], rest);
    EncodeSingle(c);
  }

  /** Strict decoding undoes encoding: `s.encode().decode() == s`. */
  lemma {:induction false} DecodeEncoded(t: string)
    ensures Utf8Decode(Utf8Encode(t)) == Some(t)
    decreases |t|
  {
    if t != [] {
      var e := EncodeChar(t[0]);
      EncodeFront(t);
      DecodeFirstEncodeChar(t[0], Utf8Encode(t[1..]));
      assert Utf8Encode(t)[|e|..] == Utf8Encode(t[1..]);
      DecodeEncoded(t[1..]);
      assert [t[0]] + t[1..] == t;
    }
  }

  /** What strict decoding returns encodes back to the same bytes. */
  lemma {:induction false} EncodeDecoded(b: seq<byte>)
    requires Utf8Decode(b).Some?
    ensures Utf8Encode(Utf8Decode(b).value) == b
    decreases |b|
  {
    if b != [] {
      var c, k := DecodeStep(b);
      EncodeDecoded(b[k..]);
      var t := [c] + Utf8Decode(b[k..]).value;
      assert t[0] == c && t[1..] == Utf8Decode(b[k..]).value;
      EncodeFront(t);
      assert b == b[..k] + b[k..];
    }
  }

  /** A successful decode is the first character's bytes, then a successful decode of the rest. */
  lemma DecodeStep(b: seq<byte>) returns (c: char, k: nat)
    requires b != [] && Utf8Decode(b).Some?
    ensures 1 <= k <= |b| && b[..k] == EncodeChar(c)
    ensures Utf8Decode(b[k..]).Some? && Utf8Decode(b).value == [c] + Utf8Decode(b[k..]).value
  {
    DecodeFirstEncoded(b);
    c, k := DecodeFirst(b).value.0, DecodeFirst(b).value.1;
  }

  /** Strict decoding succeeds exactly on the bytes that are the encoding of some text. */
  lemma DecodesIff(b: seq<byte>)
    ensures Decodes(b) <==> Utf8Decode(b).Some?
  {
    if Utf8Decode(b).Some? {
      EncodeDecoded(b);
    }
    if Decodes(b) {
      var t :| Utf8Encode(t) == b;
      DecodeEncoded(t);
    }
  }
}
