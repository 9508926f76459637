/** The slice of Python's run-time semantics both plugins lean on: the values
    a stored plugin configuration holds, their truthiness, `dict.get`,
    `int(...)` on such a value, and the prefix slice `s[:stop]`. */
module Py {
  import opened Decimal

  datatype Option<+T> = None | Some(value: T)

  /** A value of a plugin's stored (JSON) configuration. */
  datatype Value = Null | Bool(b: bool) | Int(i: int) | Str(s: string)

  /** Python truthiness: `None`, `False`, `0` and `""` are false. */
  predicate Truthy(v: Value) {
    match v
    case Null => false
    case Bool(b) => b
    case Int(i) => i != 0
    case Str(s) => s != ""
  }

  type Config = map<string, Value>

  /** `if config:` for an optional dict: absent and empty are both false. */
  predicate HasConfig(config: Option<Config>) {
    config.Some? && |config.value| > 0
  }

  /** `config.get(key, default)`. */
  function Get(config: Config, key: string, default: Value): Value {
    if key in config then config[key] else default
  }

  /** Python's `s[:stop]`: a non-negative stop counts from the front, a
      negative one from the back, and both are clamped to the sequence. */
  function SliceTo<T>(s: seq<T>, stop: int): (r: seq<T>)
    ensures |r| <= |s| && r == s[..|r|]
    ensures 0 <= stop ==> |r| == (if stop <= |s| then stop else |s|)
    ensures stop < 0 ==> |r| == (if -stop <= |s| then |s| + stop else 0)
  {
    if 0 <= stop then
      (if stop <= |s| then s[..stop] else s)
    else
      (if -stop <= |s| then s[..|s| + stop] else [])
  }

  // ---------------------------------------------------------------------
  // int(...)

  /** CPython's default limit on the number of digits `int()` converts
      from text (3.11 and later); longer inputs raise ValueError. */
  const MaxStrDigits := 4300

  /** The characters `int()` strips around its argument: ASCII blanks and
      the Unicode space separators. */
  predicate IsSpace(c: char) {
    || c == ' '
    || '\t' <= c <= '\r'
    || c == '\U{85}' || c == '\U{A0}' || c == '\U{1680}'
    || '\U{2000}' <= c <= '\U{200A}'
    || c == '\U{2028}' || c == '\U{2029}' || c == '\U{202F}'
    || c == '\U{205F}' || c == '\U{3000}'
  }

  function StripLeft(s: string): (t: string)
    ensures |t| <= |s| && t == s[|s| - |t|..]
    ensures |t| > 0 ==> !IsSpace(t[0])
  {
    if |s| > 0 && IsSpace(s[0]) then StripLeft(s[1..]) else s
  }

  function StripRight(s: string): (t: string)
    ensures |t| <= |s| && t == s[..|t|]
    ensures |t| > 0 ==> !IsSpace(t[|t| - 1])
  {
    if |s| > 0 && IsSpace(s[|s| - 1]) then StripRight(s[..|s| - 1]) else s
  }

  function Strip(s: string): string {
    StripRight(StripLeft(s))
  }

  /** A base-10 integer body: digits, with single underscores allowed
      between two digits. */
  predicate IsDigitGroups(s: string) {
    && 0 < |s|
    && IsDigit(s[0])
    && IsDigit(s[|s| - 1])
    && (forall i :: 0 <= i < |s| ==> IsDigit(s[i]) || s[i] == '_')
    && (forall i :: 0 <= i < |s| - 1 ==> s[i] == '_' ==> s[i + 1] != '_')
  }

  function DropUnderscores(s: string): (d: string)
    requires forall i :: 0 <= i < |s| ==> IsDigit(s[i]) || s[i] == '_'
    ensures AllDigits(d)
    ensures |d| <= |s|
  {
    if |s| == 0 then ""
    else if s[0] == '_' then DropUnderscores(s[1..])
    else [s[0]] + DropUnderscores(s[1..])
  }

  /** `int(text)` in base 10: `None` stands for the ValueError. Blank
      text is refused, and only a leading minus gives a negative number. */
  function ParseIntText(text: string): (r: Option<int>)
    ensures Strip(text) == "" ==> r.None?
    ensures r.Some? && r.value < 0 ==> Strip(text)[0] == '-'
  {
    ParseSigned(Strip(text))
  }

  /** `int()` on text without surrounding blanks: an optional sign, then
      the digit groups. */
  function ParseSigned(t: string): (r: Option<int>)
    ensures t == "" ==> r.None?
    ensures r.Some? && r.value < 0 ==> t[0] == '-'
  {
    var (sign, body) := SplitSign(t);
    match ParseDigitGroups(body)
    case Some(n) => Some(if sign == "-" then -(n as int) else n)
    case None => None
  }

  /** Where `int()` splits its text: a leading sign, if any, and the rest. */
  function SplitSign(u: string): (r: (string, string))
    ensures u == r.0 + r.1
    ensures r.0 == "" || r.0 == "-" || r.0 == "+"
    ensures r.0 == "" ==> r.1 == u && (|u| == 0 || (u[0] != '-' && u[0] != '+'))
    ensures r.0 != "" ==> 0 < |u| && r.0 == [u[0]] && r.1 == u[1..]
  {
    if 0 < |u| && (u[0] == '-' || u[0] == '+') then ([u[0]], u[1..]) else ("", u)
  }

  /** An unsigned integer body: refused unless it is digit groups of at
      most `MaxStrDigits` digits. */
  function ParseDigitGroups(body: string): (r: Option<nat>)
    ensures body == "" ==> r.None?
    ensures r.Some? ==> IsDigitGroups(body)
  {
    if !IsDigitGroups(body) then None
    else
      var digits := DropUnderscores(body);
      if |digits| > MaxStrDigits then None
      else Some(ValueOf(digits))
  }

  datatype IntResult = IntValue(n: int) | ValueError | TypeError

  /** `int(v)` for a configuration value. */
  function ToInt(v: Value): (r: IntResult)
    ensures r.TypeError? <==> v.Null?
    ensures v.Int? ==> r == IntValue(v.i)
    ensures v.Bool? ==> r == IntValue(if v.b then 1 else 0)
    ensures r.ValueError? ==> v.Str?
    ensures v.Str? ==> (r.ValueError? <==> ParseIntText(v.s).None?)
    ensures v.Str? && r.IntValue? ==> Some(r.n) == ParseIntText(v.s)
  {
    match v
    case Null => TypeError
    case Bool(b) => IntValue(if b then 1 else 0)
    case Int(i) => IntValue(i)
    case Str(s) =>
      match ParseIntText(s)
      case Some(n) => IntValue(n)
      case None => ValueError
  }

  // ---------------------------------------------------------------------
  // The integer literals `int()` accepts, stated apart from the parser

  /** `u` is an optional sign followed by `body`, a run of digit groups of
      at most `MaxStrDigits` digits. */
  predicate IntLiteral(u: string, sign: string, body: string) {
    && (sign == "" || sign == "-" || sign == "+")
    && u == sign + body
    && IsDigitGroups(body)
    && |DropUnderscores(body)| <= MaxStrDigits
  }

  /** The number a literal denotes: its digits without the underscores,
      negated after a minus. */
  function LiteralValue(sign: string, body: string): int
    requires IsDigitGroups(body)
  {
    var n := ValueOf(DropUnderscores(body));
    if sign == "-" then -(n as int) else n
  }

  /** Every literal is accepted, whatever blanks surround it, with the value
      it denotes. */
  lemma ParseIntTextComplete(t: string, sign: string, body: string)
    requires IntLiteral(Strip(t), sign, body)
    ensures ParseIntText(t) == Some(LiteralValue(sign, body))
  {
    var u := Strip(t);
    if sign == "" {
      assert u == body;
      PlainBody(u, LiteralValue(sign, body));
    } else {
      assert u[0] == sign[0] && u[1..] == body;
      if sign == "-" {
        MinusBody(u, ValueOf(DropUnderscores(body)));
      } else {
        PlusBody(u, ValueOf(DropUnderscores(body)));
      }
    }
  }

  /** Nothing but a literal is accepted: text `int()` turns into a number
      is, once stripped, a sign and digit groups that denote that number.
      So `"5.0"`, `"five"`, `"1__0"` and `""` all raise. */
  lemma ParseIntTextSound(t: string)
    requires ParseIntText(t).Some?
    ensures exists sign, body :: IntLiteral(Strip(t), sign, body)
                                  && ParseIntText(t).value == LiteralValue(sign, body)
  {
    var u := Strip(t);
    var (sign, body) := SplitSign(u);
    SignedIsLiteral(u, sign, body);
  }

  lemma SignedIsLiteral(u: string, sign: string, body: string)
    requires ParseSigned(u).Some? && (sign, body) == SplitSign(u)
    ensures IntLiteral(u, sign, body) && ParseSigned(u).value == LiteralValue(sign, body)
  {
    if sign == "-" {
      assert u[1..] == body;
    } else if sign == "+" {
      assert u[1..] == body;
    }
  }

  /** A leading plus leaves the body's value as it is. */
  lemma PlusBody(t: string, v: nat)
    requires 0 < |t| && t[0] == '+' && ParseDigitGroups(t[1..]) == Some(v)
    ensures ParseSigned(t) == Some(v)
  {
  }

  /** Unsigned digit groups are read as their value. */
  lemma PlainBody(t: string, v: nat)
    requires IsDigitGroups(t) && |DropUnderscores(t)| <= MaxStrDigits && v == ValueOf(DropUnderscores(t))
    ensures ParseSigned(t) == Some(v)
  {
    assert IsDigit(t[0]);
  }

  /** A decimal point is refused: `int("5.0")` raises. */
  lemma DecimalPointRefused()
    ensures ParseIntText("5.0").None?
  {
    var u := "5.0";
    assert Strip(u) == u by { StripNonBlank(u); }
    assert ParseDigitGroups(u).None? by { assert u[1] == '.'; }
    assert ParseSigned(u).None?;
  }

  /** A word is refused: `int("five")` raises. */
  lemma WordRefused()
    ensures ParseIntText("five").None?
  {
    var u := "five";
    assert Strip(u) == u by { StripNonBlank(u); }
    assert ParseDigitGroups(u).None? by { assert u[0] == 'f'; }
    assert ParseSigned(u).None?;
  }

  /** Surrounding blanks are ignored: `int(" 7 ")` is `int("7")`, and so
      for any text that neither starts nor ends with a blank. */
  lemma BlanksIgnored(t: string)
    requires 0 < |t| && !IsSpace(t[0]) && !IsSpace(t[|t| - 1])
    ensures ParseIntText([' '] + t + [' ']) == ParseIntText(t)
  {
    StripOneBlankEach(t);
    StripNonBlank(t);
    StrippedTo([' '] + t + [' '], t);
    StrippedTo(t, t);
  }

  /** One blank on each side of non-blank text is stripped. */
  lemma StripOneBlankEach(s: string)
    requires 0 < |s| && !IsSpace(s[0]) && !IsSpace(s[|s| - 1])
    ensures Strip([' '] + s + [' ']) == s
  {
    var t := [' '] + s + [' '];
    var r := s + [' '];
    assert t[1..] == r && r[0] == s[0];
    assert StripLeft(t) == StripLeft(r) == r;
    assert r[..|r| - 1] == s;
    assert StripRight(r) == StripRight(s) == s;
  }

  /** Text is parsed as what stripping leaves of it. */
  lemma StrippedTo(t: string, u: string)
    requires Strip(t) == u
    ensures ParseIntText(t) == ParseSigned(u)
  {
  }

  /** A leading plus is allowed: `int("+3")` is 3. */
  lemma PlusSignAccepted()
    ensures ParseIntText("+3") == Some(3)
  {
    var u := "+3";
    assert Strip(u) == u by { StripNonBlank(u); }
    assert ParseDigitGroups(u[1..]) == Some(3) by {
      assert u[1..] == "3";
      ParseDigitsOnly("3");
      assert ValueOf("3") == 3;
    }
    assert ParseSigned(u) == Some(3) by { PlusBody(u, 3); }
  }

  /** Underscores between digits are dropped: `int("1_000")` is 1000. */
  lemma UnderscoresDropped()
    ensures ParseIntText("1_000") == Some(1000)
  {
    var u := "1_000";
    assert Strip(u) == u by { StripNonBlank(u); }
    assert ParseDigitGroups(u) == Some(1000) by {
      assert IsDigitGroups(u);
      assert DropUnderscores(u) == "1000" by {
        assert u[1..] == "_000" && "_000"[1..] == "000";
        DropUnderscoresOfDigits("000");
      }
      assert ValueOf("1000") == 1000 by {
        assert "1000"[..3] == "100" && "100"[..2] == "10" && "10"[..1] == "1";
      }
    }
    assert ParseSigned(u) == Some(1000) by { UnsignedBody(u, 1000); }
  }

  lemma {:induction false} DropUnderscoresOfDigits(s: string)
    requires AllDigits(s)
    ensures DropUnderscores(s) == s
  {
    if |s| > 0 {
      DropUnderscoresOfDigits(s[1..]);
    }
  }

  lemma DigitsAreDigitGroups(s: string)
    requires 0 < |s| && AllDigits(s)
    ensures IsDigitGroups(s)
  {
  }

  lemma StripNonBlank(s: string)
    requires 0 < |s| && !IsSpace(s[0]) && !IsSpace(s[|s| - 1])
    ensures Strip(s) == s
  {
    assert StripLeft(s) == s;
    assert StripRight(s) == s;
  }

  /** A plain digit string within the limit is read as its value. */
  lemma ParseDigitsOnly(s: string)
    requires 0 < |s| <= MaxStrDigits && AllDigits(s)
    ensures ParseDigitGroups(s) == Some(ValueOf(s))
  {
    DigitsAreDigitGroups(s);
    DropUnderscoresOfDigits(s);
  }

  /** `int(str(n))` gives back `n`, and `int("-" + str(n))` gives `-n`, for
      every number within the digit limit. */
  lemma ParseIntTextOfNat(n: nat)
    requires |NatToString(n)| <= MaxStrDigits
    ensures ParseIntText(NatToString(n)) == Some(n)
    ensures ParseIntText("-" + NatToString(n)) == Some(-(n as int))
  {
    ParseUnsigned(n);
    ParseNegated(n);
  }

  lemma ParseUnsigned(n: nat)
    requires |NatToString(n)| <= MaxStrDigits
    ensures ParseIntText(NatToString(n)) == Some(n)
  {
    var s := NatToString(n);
    StripNonBlank(s);
    ParseDigitsOnly(s);
    ValueOfNatToString(n);
    UnsignedBody(s, n);
  }

  lemma ParseNegated(n: nat)
    requires |NatToString(n)| <= MaxStrDigits
    ensures ParseIntText("-" + NatToString(n)) == Some(-(n as int))
  {
    var s := NatToString(n);
    ValueOfNatToString(n);
    ParseNegatedOf(s, n);
  }

  /** `int("-" + s)` for digits `s` that spell `n`. */
  lemma ParseNegatedOf(s: string, n: nat)
    requires 0 < |s| <= MaxStrDigits && AllDigits(s) && ValueOf(s) == n
    ensures ParseIntText("-" + s) == Some(-(n as int))
  {
    var m := "-" + s;
    StripMinus(s, m);
    NegatedSigned(s, n, m);
    StrippedTo(m, m);
  }

  lemma StripMinus(s: string, m: string)
    requires 0 < |s| && AllDigits(s) && m == "-" + s
    ensures Strip(m) == m
  {
    assert m[|m| - 1] == s[|s| - 1];
    StripNonBlank(m);
  }

  /** The signed parse of `"-" + s`. */
  lemma NegatedSigned(s: string, n: nat, m: string)
    requires 0 < |s| <= MaxStrDigits && AllDigits(s) && ValueOf(s) == n && m == "-" + s
    ensures ParseSigned(m) == Some(-(n as int))
  {
    ParseDigitsOnly(s);
    assert m[0] == '-' && m[1..] == s;
    MinusBody(m, n);
  }

  /** A leading minus negates the body's value. */
  lemma MinusBody(t: string, v: nat)
    requires 0 < |t| && t[0] == '-' && ParseDigitGroups(t[1..]) == Some(v)
    ensures ParseSigned(t) == Some(-(v as int))
  {
  }

  /** Without a sign the body is the whole text. */
  lemma UnsignedBody(t: string, v: nat)
    requires 0 < |t| && IsDigit(t[0]) && ParseDigitGroups(t) == Some(v)
    ensures ParseSigned(t) == Some(v)
  {
  }
}
