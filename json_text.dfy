/**
 * JSON texts (RFC 8259) and the values they denote.
 *
 * `Encode` writes the compact form JSON.stringify produces (no whitespace,
 * the escapes of ECMA-262 QuoteJSONString); `Decode` reads any JSON text, as
 * JSON.parse does. Numbers are integers here: a well-formed number whose value
 * is not integral is reported as `OutsideModel`, as is a `\u` escape naming a
 * lone surrogate.
 */
module JsonText {
  import opened JsValues
  import opened Numbers

  datatype JsonValue =
    | JNull
    | JBool(b: bool)
    | JNumber(n: int)
    | JString(s: string)
    | JArray(items: seq<JsonValue>)
    | JObject(members: seq<JMember>)

  datatype JMember = JMember(name: string, value: JsonValue)

  /** A parse result: the value read and the text after it. */
  datatype Parsed<+T> = Parsed(value: T, rest: string)

  // ---------------------------------------------------------------------------
  // Writing

  /** The compact JSON text of `v`. */
  function Encode(v: JsonValue): (r: string)
    ensures |r| >= 1 && StartsValue(r[0])
    ensures r != "undefined"
  {
    EncodeStart(v, "");
    EncodeTo(v, "")
  }

  /** The text of `v` followed by `rest`. */
  function EncodeTo(v: JsonValue, rest: string): string
  {
    match v
    case JNull => "null" + rest
    case JBool(b) => (if b then "true" else "false") + rest
    case JNumber(n) => IntText(n) + rest
    case JString(s) => QuoteTo(s, rest)
    case JArray(items) => ['['] + (if items == [] then [']'] + rest else ItemsTo(items, [']'] + rest))
    case JObject(members) => ['{'] + (if members == [] then ['}'] + rest else MembersTo(members, ['}'] + rest))
  }

  /** Comma-separated elements followed by `rest`. */
  function ItemsTo(items: seq<JsonValue>, rest: string): string
    requires items != []
  {
    EncodeTo(items[0], if |items| == 1 then rest else [','] + ItemsTo(items[1..], rest))
  }

  /** Comma-separated `"name":value` members followed by `rest`. */
  function MembersTo(members: seq<JMember>, rest: string): string
    requires members != []
  {
    var after := if |members| == 1 then rest else [','] + MembersTo(members[1..], rest);
    QuoteTo(members[0].name, [':'] + EncodeTo(members[0].value, after))
  }

  /** A quoted, escaped string followed by `rest`. */
  function QuoteTo(s: string, rest: string): string
  {
    ['"'] + EscapeTo(s, ['"'] + rest)
  }

  function EscapeTo(s: string, rest: string): string
  {
    if s == [] then rest else EscapeChar(s[0]) + EscapeTo(s[1..], rest)
  }

  function HexDigit(d: nat): (c: char)
    requires d < 16
    ensures HexValue(c) == Some(d)
  {
    if d < 10 then ('0' as int + d) as char else ('a' as int + d - 10) as char
  }

  /** One character of a JSON string, escaped as QuoteJSONString escapes it. */
  function EscapeChar(c: char): string
  {
    if c == '"' then "\\\""
    else if c == '\\' then "\\\\"
    else if c as int == 0x08 then "\\b"
    else if c as int == 0x0C then "\\f"
    else if c == '\n' then "\\n"
    else if c == '\r' then "\\r"
    else if c == '\t' then "\\t"
    else if c as int < 0x20 then "\\u00" + [HexDigit(c as int / 16), HexDigit(c as int % 16)]
    else [c]
  }

  // ---------------------------------------------------------------------------
  // Reading

  predicate IsWs(c: char)
  {
    c == ' ' || c == '\t' || c == '\n' || c == '\r'
  }

  function SkipWs(s: string): (t: string)
    ensures |t| <= |s|
    ensures t == [] || !IsWs(t[0])
    ensures s != [] && !IsWs(s[0]) ==> t == s
  {
    if s != [] && IsWs(s[0]) then SkipWs(s[1..]) else s
  }

  function HexValue(c: char): (r: Option<nat>)
    ensures r.Some? ==> r.value < 16
  {
    if '0' <= c <= '9' then Some(c as int - '0' as int)
    else if 'a' <= c <= 'f' then Some(c as int - 'a' as int + 10)
    else if 'A' <= c <= 'F' then Some(c as int - 'A' as int + 10)
    else None
  }

  function Literal(s: string, word: string, v: JsonValue): (r: Result<Parsed<JsonValue>>)
    requires |word| >= 1
    ensures r.Ok? ==> |r.value.rest| < |s|
  {
    if |s| >= |word| && s[..|word|] == word then Ok(Parsed(v, s[|word|..])) else Err(SyntaxError)
  }

  /** A value at the very start of `s` (no leading whitespace). */
  function ParseValue(s: string): (r: Result<Parsed<JsonValue>>)
    ensures r.Ok? ==> |r.value.rest| < |s|
    decreases |s|, 2
  {
    if s == [] then Err(SyntaxError)
    else match LeadOf(s[0])
      case LiteralLead => ParseLiteral(s)
      case StringLead => ParseStringValue(s)
      case ArrayLead => ParseArray(s)
      case ObjectLead => ParseObject(s)
      case NumberLead => ParseNumberValue(s)
      case NoValue => Err(SyntaxError)
  }

  /** The kind of value a first character announces. */
  datatype Lead = LiteralLead | StringLead | ArrayLead | ObjectLead | NumberLead | NoValue

  function LeadOf(c: char): Lead
  {
    if c == 'n' || c == 't' || c == 'f' then LiteralLead
    else if c == '"' then StringLead
    else if c == '[' then ArrayLead
    else if c == '{' then ObjectLead
    else if c == '-' || IsDigit(c) then NumberLead
    else NoValue
  }

  /** `null`, `true` or `false`. */
  function ParseLiteral(s: string): (r: Result<Parsed<JsonValue>>)
    requires s != []
    ensures r.Ok? ==> |r.value.rest| < |s|
  {
    if s[0] == 'n' then Literal(s, "null", JNull)
    else if s[0] == 't' then Literal(s, "true", JBool(true))
    else Literal(s, "false", JBool(false))
  }

  function ParseStringValue(s: string): (r: Result<Parsed<JsonValue>>)
    requires s != []
    ensures r.Ok? ==> |r.value.rest| < |s|
  {
    match ParseString(s[1..])
    case Err(e) => Err(e)
    case Ok(p) => Ok(Parsed(JString(p.value), p.rest))
  }

  function ParseNumberValue(s: string): (r: Result<Parsed<JsonValue>>)
    ensures r.Ok? ==> |r.value.rest| < |s|
  {
    match ParseNumber(s)
    case Err(e) => Err(e)
    case Ok(p) => Ok(Parsed(JNumber(p.value), p.rest))
  }

  /** An array, from its `[`. */
  function ParseArray(s: string): (r: Result<Parsed<JsonValue>>)
    requires s != []
    ensures r.Ok? ==> |r.value.rest| < |s|
    decreases |s|, 1
  {
    var t := SkipWs(s[1..]);
    if t != [] && t[0] == ']' then Ok(Parsed(JArray([]), t[1..])) else ParseItems(t, [])
  }

  /** An object, from its `{`. */
  function ParseObject(s: string): (r: Result<Parsed<JsonValue>>)
    requires s != []
    ensures r.Ok? ==> |r.value.rest| < |s|
    decreases |s|, 1
  {
    var t := SkipWs(s[1..]);
    if t != [] && t[0] == '}' then Ok(Parsed(JObject([]), t[1..])) else ParseMembers(t, [])
  }

  /** The elements of a non-empty array after `[`, up to and including `]`. */
  function ParseItems(s: string, done: seq<JsonValue>): (r: Result<Parsed<JsonValue>>)
    ensures r.Ok? ==> |r.value.rest| < |s|
    decreases |s|, 3
  {
    match ParseValue(s)
    case Err(e) => Err(e)
    case Ok(p) =>
      var t := SkipWs(p.rest);
      if t != [] && t[0] == ',' then ParseItems(SkipWs(t[1..]), done + [p.value])
      else if t != [] && t[0] == ']' then Ok(Parsed(JArray(done + [p.value]), t[1..]))
      else Err(SyntaxError)
  }

  /** The members of a non-empty object after `{`, up to and including `}`. */
  function ParseMembers(s: string, done: seq<JMember>): (r: Result<Parsed<JsonValue>>)
    ensures r.Ok? ==> |r.value.rest| < |s|
    decreases |s|, 4
  {
    match ParseMember(s)
    case Err(e) => Err(e)
    case Ok(p) =>
      var t := SkipWs(p.rest);
      if t != [] && t[0] == ',' then ParseMembers(SkipWs(t[1..]), done + [p.value])
      else if t != [] && t[0] == '}' then Ok(Parsed(JObject(done + [p.value]), t[1..]))
      else Err(SyntaxError)
  }

  /** One member: a string, a colon and a value. */
  function ParseMember(s: string): (r: Result<Parsed<JMember>>)
    ensures r.Ok? ==> |r.value.rest| < |s|
    decreases |s|, 3
  {
    if s == [] || s[0] != '"' then Err(SyntaxError)
    else
      match ParseString(s[1..])
      case Err(e) => Err(e)
      case Ok(k) =>
        var t := SkipWs(k.rest);
        if t == [] || t[0] != ':' then Err(SyntaxError)
        else
          match ParseValue(SkipWs(t[1..]))
          case Err(e) => Err(e)
          case Ok(p) => Ok(Parsed(JMember(k.value, p.value), p.rest))
  }

  /** The characters of a string after its opening quote, up to and including the closing one. */
  function ParseString(s: string): (r: Result<Parsed<string>>)
    ensures r.Ok? ==> |r.value.rest| < |s|
  {
    if s == [] then Err(SyntaxError)
    else if s[0] == '"' then Ok(Parsed("", s[1..]))
    else if s[0] == '\\' then
      match ParseEscape(s[1..])
      case Err(e) => Err(e)
      case Ok(c) =>
        match ParseString(c.rest)
        case Err(e) => Err(e)
        case Ok(p) => Ok(Parsed([c.value] + p.value, p.rest))
    else if s[0] as int < 0x20 then Err(SyntaxError)
    else
      match ParseString(s[1..])
      case Err(e) => Err(e)
      case Ok(p) => Ok(Parsed([s[0]] + p.value, p.rest))
  }

  /** An escape sequence after its backslash. */
  function ParseEscape(s: string): (r: Result<Parsed<char>>)
    ensures r.Ok? ==> |r.value.rest| < |s|
  {
    if s == [] then Err(SyntaxError)
    else if s[0] == '"' || s[0] == '\\' || s[0] == '/' then Ok(Parsed(s[0], s[1..]))
    else if s[0] == 'b' then Ok(Parsed(0x08 as char, s[1..]))
    else if s[0] == 'f' then Ok(Parsed(0x0C as char, s[1..]))
    else if s[0] == 'n' then Ok(Parsed('\n', s[1..]))
    else if s[0] == 'r' then Ok(Parsed('\r', s[1..]))
    else if s[0] == 't' then Ok(Parsed('\t', s[1..]))
    else if s[0] == 'u' && |s| >= 5
         && HexValue(s[1]).Some? && HexValue(s[2]).Some? && HexValue(s[3]).Some? && HexValue(s[4]).Some? then
      var code := ((HexValue(s[1]).value * 16 + HexValue(s[2]).value) * 16 + HexValue(s[3]).value) * 16
                  + HexValue(s[4]).value;
      if 0xD800 <= code < 0xE000 then Err(OutsideModel) else Ok(Parsed(code as char, s[5..]))
    else Err(SyntaxError)
  }

  /** The length of the run of digits that `s` starts with. */
  function DigitRun(s: string): (k: nat)
    ensures k <= |s| && AllDigits(s[..k])
    ensures k == |s| || !IsDigit(s[k])
  {
    if s != [] && IsDigit(s[0]) then
      var k := 1 + DigitRun(s[1..]);
      assert s[..k] == [s[0]] + s[1..][..k - 1];
      k
    else 0
  }

  /** An optional fraction `.digits`: the digits and the text after them. */
  function ParseFraction(s: string): (r: Result<Parsed<string>>)
    ensures r.Ok? ==> AllDigits(r.value.value) && |r.value.rest| <= |s|
  {
    if s != [] && s[0] == '.' then
      var k := DigitRun(s[1..]);
      if k == 0 then Err(SyntaxError) else Ok(Parsed(s[1..][..k], s[1..][k..]))
    else Ok(Parsed("", s))
  }

  /** An optional exponent `e[+-]digits`: its value and the text after it. */
  function ParseExponent(s: string): (r: Result<Parsed<int>>)
    ensures r.Ok? ==> |r.value.rest| <= |s|
  {
    if s != [] && (s[0] == 'e' || s[0] == 'E') then
      var t := s[1..];
      var neg := t != [] && t[0] == '-';
      var u := if t != [] && (t[0] == '-' || t[0] == '+') then t[1..] else t;
      var k := DigitRun(u);
      if k == 0 then Err(SyntaxError)
      else
        var e: int := DigitsValue(u[..k]);
        Ok(Parsed(if neg then -e else e, u[k..]))
    else Ok(Parsed(0, s))
  }

  /** The integer part of a number: `0`, or a digit run that does not start with `0`. */
  function ParseWhole(t: string): (r: Result<Parsed<nat>>)
    ensures r.Ok? ==> |r.value.rest| < |t|
  {
    if t == [] || !IsDigit(t[0]) then Err(SyntaxError)
    else
      var k := if t[0] == '0' then 1 else DigitRun(t);
      assert AllDigits(t[..k]) by {
        if t[0] == '0' {
          assert t[..k] == [t[0]];
        }
      }
      Ok(Parsed(DigitsValue(t[..k]), t[k..]))
  }

  /** The value (whole.fraction) * 10^exponent, when it is an integer. */
  function ScaleValue(whole: nat, fraction: string, exponent: int): (r: Result<nat>)
    requires AllDigits(fraction)
  {
    var mantissa := whole * Pow10(|fraction|) + DigitsValue(fraction);
    var scale := exponent - |fraction|;
    if scale >= 0 then Ok(mantissa * Pow10(scale))
    else if mantissa % Pow10(-scale) == 0 then Ok(mantissa / Pow10(-scale))
    else Err(OutsideModel)
  }

  /** A number: `-`? int frac? exp?, whose value must be an integer here. */
  function ParseNumber(s: string): (r: Result<Parsed<int>>)
    ensures r.Ok? ==> |r.value.rest| < |s|
  {
    var neg := s != [] && s[0] == '-';
    match ParseWhole(if neg then s[1..] else s)
    case Err(e) => Err(e)
    case Ok(w) =>
      match ParseFraction(w.rest)
      case Err(e) => Err(e)
      case Ok(f) =>
        match ParseExponent(f.rest)
        case Err(e) => Err(e)
        case Ok(x) =>
          match ScaleValue(w.value, f.value, x.value)
          case Err(e) => Err(e)
          case Ok(m) =>
            var n: int := m;
            Ok(Parsed(if neg then -n else n, x.rest))
  }

  /** JSON-text = ws value ws (section 2 of RFC 8259). */
  function Decode(text: string): (r: Result<JsonValue>)
    ensures SkipWs(text) == [] ==> r == Err(SyntaxError)
  {
    match ParseValue(SkipWs(text))
    case Err(e) => Err(e)
    case Ok(p) => if SkipWs(p.rest) == [] then Ok(p.value) else Err(SyntaxError)
  }

  // ---------------------------------------------------------------------------
  // The round trip

  /** The characters that can begin a value's encoding. */
  predicate StartsValue(c: char)
  {
    c == 'n' || c == 't' || c == 'f' || c == '"' || c == '[' || c == '{' || c == '-' || IsDigit(c)
  }

  /** What may follow a value inside the compact encoding: the end, a comma or a closing bracket. */
  predicate Delimits(rest: string)
  {
    rest == [] || rest[0] == ',' || rest[0] == ']' || rest[0] == '}'
  }

  lemma EncodeStart(v: JsonValue, rest: string)
    ensures |EncodeTo(v, rest)| >= 1 && StartsValue(EncodeTo(v, rest)[0])
  {
  }

  lemma {:induction false} DigitRunOver(ds: string, rest: string)
    requires AllDigits(ds)
    requires rest == [] || !IsDigit(rest[0])
    ensures DigitRun(ds + rest) == |ds|
  {
    if ds != [] {
      assert (ds + rest)[1..] == ds[1..] + rest;
      DigitRunOver(ds[1..], rest);
    }
  }

  lemma ParseWholeNatText(m: nat, rest: string)
    requires Delimits(rest)
    ensures ParseWhole(NatText(m) + rest) == Ok(Parsed(m, rest))
  {
    var t := NatText(m) + rest;
    var k := if t[0] == '0' then 1 else DigitRun(t);
    if m == 0 {
      assert t[..k] == "0";
    } else {
      DigitRunOver(NatText(m), rest);
    }
    assert t[..k] == NatText(m);
    assert t[k..] == rest;
    NatTextValue(m);
  }

  /** After the integer part, a delimiter means no fraction and no exponent. */
  lemma ParseNumberStep(s: string, m: nat, rest: string)
    requires Delimits(rest)
    requires ParseWhole(if s != [] && s[0] == '-' then s[1..] else s) == Ok(Parsed(m, rest))
    ensures ParseNumber(s) == Ok(Parsed(if s != [] && s[0] == '-' then -(m as int) else m, rest))
  {
    assert ParseFraction(rest) == Ok(Parsed("", rest));
    assert ParseExponent(rest) == Ok(Parsed(0, rest));
    assert ScaleValue(m, "", 0) == Ok(m);
  }

  lemma ParseNumberEncode(n: int, rest: string)
    requires Delimits(rest)
    ensures ParseNumber(IntText(n) + rest) == Ok(Parsed(n, rest))
  {
    var m: nat := if n < 0 then -n else n;
    var s := IntText(n) + rest;
    IntTextUnsigned(n, rest);
    ParseWholeNatText(m, rest);
    ParseNumberStep(s, m, rest);
  }

  /** The digits of `IntText(n)`, once its sign is dropped, are those of `|n|`. */
  lemma IntTextUnsigned(n: int, rest: string)
    ensures var s := IntText(n) + rest;
            s != [] && (s[0] == '-' <==> n < 0)
            && (if s[0] == '-' then s[1..] else s) == NatText(if n < 0 then -n else n) + rest
  {
    var s := IntText(n) + rest;
    if n < 0 {
      assert s == "-" + (NatText(-n) + rest);
      ConsTail('-', NatText(-n) + rest);
    }
  }

  /** A backslash escape inside a string. */
  lemma ParseStringEscapeStep(s: string, c: char, after: string)
    requires s != [] && s[0] == '\\' && ParseEscape(s[1..]) == Ok(Parsed(c, after))
    requires ParseString(after).Ok?
    ensures ParseString(s) == Ok(Parsed([c] + ParseString(after).value.value, ParseString(after).value.rest))
  {
  }

  /** A character that stands for itself inside a string. */
  lemma ParseStringPlainStep(s: string)
    requires s != [] && s[0] != '"' && s[0] != '\\' && s[0] as int >= 0x20
    requires ParseString(s[1..]).Ok?
    ensures ParseString(s) == Ok(Parsed([s[0]] + ParseString(s[1..]).value.value, ParseString(s[1..]).value.rest))
  {
  }

  predicate ShortEscaped(c: char)
  {
    c == '"' || c == '\\' || c as int == 0x08 || c as int == 0x0C || c == '\n' || c == '\r' || c == '\t'
  }

  lemma ShortEscapeParses(c: char, tail: string)
    requires ShortEscaped(c)
    ensures var s := EscapeChar(c) + tail; s[0] == '\\' && ParseEscape(s[1..]) == Ok(Parsed(c, tail))
  {
    var s := EscapeChar(c) + tail;
    assert s[1..][1..] == tail;
  }

  lemma UnicodeEscapeParses(c: char, tail: string)
    requires !ShortEscaped(c) && c as int < 0x20
    ensures var s := EscapeChar(c) + tail; s[0] == '\\' && ParseEscape(s[1..]) == Ok(Parsed(c, tail))
  {
    var s := EscapeChar(c) + tail;
    var hi, lo := c as int / 16, c as int % 16;
    assert s[1..][5..] == tail;
    assert s[1..][1] == '0' && s[1..][2] == '0' && s[1..][3] == HexDigit(hi) && s[1..][4] == HexDigit(lo);
    assert ((0 * 16 + 0) * 16 + hi) * 16 + lo == c as int;
  }

  /** One escaped character is read back as that character. */
  lemma ParseEscapedChar(c: char, tail: string)
    requires ParseString(tail).Ok?
    ensures ParseString(EscapeChar(c) + tail)
            == Ok(Parsed([c] + ParseString(tail).value.value, ParseString(tail).value.rest))
  {
    var s := EscapeChar(c) + tail;
    if ShortEscaped(c) {
      ShortEscapeParses(c, tail);
      ParseStringEscapeStep(s, c, tail);
    } else if c as int < 0x20 {
      UnicodeEscapeParses(c, tail);
      ParseStringEscapeStep(s, c, tail);
    } else {
      assert s == [c] + tail && s[1..] == tail;
      ParseStringPlainStep(s);
    }
  }

  lemma {:induction false} ParseStringEscape(s: string, rest: string)
    ensures ParseString(EscapeTo(s, ['"'] + rest)) == Ok(Parsed(s, rest))
  {
    if s != [] {
      var tail := EscapeTo(s[1..], ['"'] + rest);
      ParseStringEscape(s[1..], rest);
      ParseEscapedChar(s[0], tail);
      assert [s[0]] + s[1..] == s;
    }
  }

  /** Reading the encoding of `v` gives back `v`, leaving what follows untouched. */
  lemma {:induction false} ParseValueEncode(v: JsonValue, rest: string)
    requires Delimits(rest)
    ensures ParseValue(EncodeTo(v, rest)) == Ok(Parsed(v, rest))
    decreases v, 3
  {
    match v
    case JNull => ParseLiteralEncode(v, rest);
    case JBool(_) => ParseLiteralEncode(v, rest);
    case JNumber(n) => ParseNumberValueEncode(n, rest);
    case JString(str) => ParseStringValueEncode(str, rest);
    case JArray(items) => ParseArrayEncode(items, rest);
    case JObject(members) => ParseObjectEncode(members, rest);
  }

  lemma ParseLiteralEncode(v: JsonValue, rest: string)
    requires v.JNull? || v.JBool?
    ensures ParseValue(EncodeTo(v, rest)) == Ok(Parsed(v, rest))
  {
    var s := EncodeTo(v, rest);
    if v.JNull? {
      assert s[0] == 'n' && s[..4] == "null" && s[4..] == rest;
    } else if v.b {
      assert s[0] == 't' && s[..4] == "true" && s[4..] == rest;
    } else {
      assert s[0] == 'f' && s[..5] == "false" && s[5..] == rest;
    }
  }

  lemma ParseStringValueEncode(str: string, rest: string)
    ensures ParseValue(EncodeTo(JString(str), rest)) == Ok(Parsed(JString(str), rest))
  {
    var s := EncodeTo(JString(str), rest);
    assert s[0] == '"' && s[1..] == EscapeTo(str, ['"'] + rest);
    ParseStringEscape(str, rest);
  }

  lemma ParseNumberValueEncode(n: int, rest: string)
    requires Delimits(rest)
    ensures ParseValue(EncodeTo(JNumber(n), rest)) == Ok(Parsed(JNumber(n), rest))
  {
    var s := EncodeTo(JNumber(n), rest);
    assert s == IntText(n) + rest;
    NatTextStart(n);
    ParseNumberEncode(n, rest);
    ParseValueNumberStep(s);
  }

  lemma NatTextStart(n: int)
    ensures LeadOf(IntText(n)[0]) == NumberLead
  {
    assert IntText(n)[0] == '-' || IsDigit(IntText(n)[0]);
  }

  lemma ItemsToStart(items: seq<JsonValue>, rest: string)
    requires items != []
    ensures |ItemsTo(items, rest)| >= 1 && StartsValue(ItemsTo(items, rest)[0])
  {
    EncodeStart(items[0], if |items| == 1 then rest else [','] + ItemsTo(items[1..], rest));
  }

  lemma MembersToStart(members: seq<JMember>, rest: string)
    requires members != []
    ensures |MembersTo(members, rest)| >= 1 && MembersTo(members, rest)[0] == '"'
  {
  }

  /** `[` followed by a body that starts with no whitespace. */
  lemma ParseArrayOpen(s: string, body: string)
    requires s == ['['] + body && body != [] && !IsWs(body[0])
    ensures ParseArray(s) == if body[0] == ']' then Ok(Parsed(JArray([]), body[1..])) else ParseItems(body, [])
  {
    assert s[1..] == body;
  }

  /** `{` followed by a body that starts with no whitespace. */
  lemma ParseObjectOpen(s: string, body: string)
    requires s == ['{'] + body && body != [] && !IsWs(body[0])
    ensures ParseObject(s) == if body[0] == '}' then Ok(Parsed(JObject([]), body[1..])) else ParseMembers(body, [])
  {
    assert s[1..] == body;
  }

  lemma ParseArrayEncode(items: seq<JsonValue>, rest: string)
    requires Delimits(rest)
    ensures ParseValue(EncodeTo(JArray(items), rest)) == Ok(Parsed(JArray(items), rest))
    decreases items, 2
  {
    var s := EncodeTo(JArray(items), rest);
    if items == [] {
      ParseArrayOpen(s, [']'] + rest);
      ParseValueArrayStep(s);
      assert ([']'] + rest)[1..] == rest;
    } else {
      ItemsToStart(items, [']'] + rest);
      ParseArrayOpen(s, ItemsTo(items, [']'] + rest));
      ParseValueArrayStep(s);
      ParseItemsEncode(items, [], rest);
      EmptyAppend(items);
    }
  }

  lemma ParseObjectEncode(members: seq<JMember>, rest: string)
    requires Delimits(rest)
    ensures ParseValue(EncodeTo(JObject(members), rest)) == Ok(Parsed(JObject(members), rest))
    decreases members, 2
  {
    var s := EncodeTo(JObject(members), rest);
    if members == [] {
      ParseObjectOpen(s, ['}'] + rest);
      ParseValueObjectStep(s);
      assert (['}'] + rest)[1..] == rest;
    } else {
      MembersToStart(members, ['}'] + rest);
      ParseObjectOpen(s, MembersTo(members, ['}'] + rest));
      ParseValueObjectStep(s);
      ParseMembersEncode(members, [], rest);
      EmptyAppend(members);
    }
  }

  lemma ConsTail<T>(c: T, xs: seq<T>)
    ensures ([c] + xs)[1..] == xs
  {
  }

  /** A value never starts with whitespace, so skipping whitespace before it does nothing. */
  lemma NoWsStart(s: string)
    requires s != [] && StartsValue(s[0])
    ensures SkipWs(s) == s
  {
  }

  lemma ParseValueArrayStep(s: string)
    requires s != [] && s[0] == '['
    ensures ParseValue(s) == ParseArray(s)
  {
    assert LeadOf(s[0]) == ArrayLead;
  }

  lemma ParseValueObjectStep(s: string)
    requires s != [] && s[0] == '{'
    ensures ParseValue(s) == ParseObject(s)
  {
    assert LeadOf(s[0]) == ObjectLead;
  }

  lemma ParseValueNumberStep(s: string)
    requires s != [] && LeadOf(s[0]) == NumberLead
    ensures ParseValue(s) == ParseNumberValue(s)
  {
  }

  lemma AppendOnly<T>(done: seq<T>, xs: seq<T>)
    requires |xs| == 1
    ensures done + [xs[0]] == done + xs
  {
    assert xs == [xs[0]];
  }

  lemma AppendHead<T>(done: seq<T>, xs: seq<T>)
    requires xs != []
    ensures done + [xs[0]] + xs[1..] == done + xs
  {
    assert xs == [xs[0]] + xs[1..];
  }

  lemma EmptyAppend<T>(xs: seq<T>)
    ensures [] + xs == xs
  {
  }

  /** After an element: a comma and the next element. */
  lemma ParseItemsComma(s: string, done: seq<JsonValue>, x: JsonValue, inner: string)
    requires ParseValue(s) == Ok(Parsed(x, [','] + inner))
    requires inner != [] && !IsWs(inner[0])
    ensures ParseItems(s, done) == ParseItems(inner, done + [x])
  {
    var tail := [','] + inner;
    assert SkipWs(tail) == tail && tail[1..] == inner;
  }

  /** After the last element: the closing bracket. */
  lemma ParseItemsClose(s: string, done: seq<JsonValue>, x: JsonValue, rest: string)
    requires ParseValue(s) == Ok(Parsed(x, [']'] + rest))
    ensures ParseItems(s, done) == Ok(Parsed(JArray(done + [x]), rest))
  {
    var tail := [']'] + rest;
    assert SkipWs(tail) == tail && tail[1..] == rest;
  }

  lemma {:induction false} ParseItemsEncode(items: seq<JsonValue>, done: seq<JsonValue>, rest: string)
    requires items != []
    ensures ParseItems(ItemsTo(items, [']'] + rest), done) == Ok(Parsed(JArray(done + items), rest))
    decreases items, 1
  {
    if |items| == 1 {
      ParseLastItemEncode(items, done, rest);
    } else {
      ParseMoreItemsEncode(items, done, rest);
    }
  }

  lemma ParseLastItemEncode(items: seq<JsonValue>, done: seq<JsonValue>, rest: string)
    requires |items| == 1
    ensures ParseItems(ItemsTo(items, [']'] + rest), done) == Ok(Parsed(JArray(done + items), rest))
    decreases items, 0
  {
    var x := items[0];
    assert ItemsTo(items, [']'] + rest) == EncodeTo(x, [']'] + rest);
    ParseValueEncode(x, [']'] + rest);
    ParseItemsClose(ItemsTo(items, [']'] + rest), done, x, rest);
    AppendOnly(done, items);
  }

  lemma ParseMoreItemsEncode(items: seq<JsonValue>, done: seq<JsonValue>, rest: string)
    requires |items| > 1
    ensures ParseItems(ItemsTo(items, [']'] + rest), done) == Ok(Parsed(JArray(done + items), rest))
    decreases items, 0
  {
    var x := items[0];
    var inner := ItemsTo(items[1..], [']'] + rest);
    assert ItemsTo(items, [']'] + rest) == EncodeTo(x, [','] + inner);
    ParseValueEncode(x, [','] + inner);
    ItemsToStart(items[1..], [']'] + rest);
    ParseItemsComma(ItemsTo(items, [']'] + rest), done, x, inner);
    ParseItemsEncode(items[1..], done + [x], rest);
    AppendHead(done, items);
  }

  lemma ParseMemberStep(s: string, name: string, after: string, v: JsonValue, tail: string)
    requires s != [] && s[0] == '"'
    requires ParseString(s[1..]) == Ok(Parsed(name, after))
    requires after != [] && after[0] == ':'
    requires ParseValue(SkipWs(after[1..])) == Ok(Parsed(v, tail))
    ensures ParseMember(s) == Ok(Parsed(JMember(name, v), tail))
  {
  }

  lemma {:induction false} ParseMemberEncode(m: JMember, tail: string)
    requires Delimits(tail)
    ensures ParseMember(QuoteTo(m.name, [':'] + EncodeTo(m.value, tail))) == Ok(Parsed(m, tail))
    decreases m
  {
    var text := EncodeTo(m.value, tail);
    var after := [':'] + text;
    var s := QuoteTo(m.name, after);
    ConsTail('"', EscapeTo(m.name, ['"'] + after));
    ParseStringEscape(m.name, after);
    ConsTail(':', text);
    EncodeStart(m.value, tail);
    NoWsStart(text);
    ParseValueEncode(m.value, tail);
    ParseMemberStep(s, m.name, after, m.value, tail);
  }

  /** After a member: a comma and the next member. */
  lemma ParseMembersComma(s: string, done: seq<JMember>, m: JMember, inner: string)
    requires ParseMember(s) == Ok(Parsed(m, [','] + inner))
    requires inner != [] && !IsWs(inner[0])
    ensures ParseMembers(s, done) == ParseMembers(inner, done + [m])
  {
    var tail := [','] + inner;
    assert SkipWs(tail) == tail && tail[1..] == inner;
  }

  /** After the last member: the closing brace. */
  lemma ParseMembersClose(s: string, done: seq<JMember>, m: JMember, rest: string)
    requires ParseMember(s) == Ok(Parsed(m, ['}'] + rest))
    ensures ParseMembers(s, done) == Ok(Parsed(JObject(done + [m]), rest))
  {
    var tail := ['}'] + rest;
    assert SkipWs(tail) == tail && tail[1..] == rest;
  }

  lemma {:induction false} ParseMembersEncode(members: seq<JMember>, done: seq<JMember>, rest: string)
    requires members != []
    ensures ParseMembers(MembersTo(members, ['}'] + rest), done) == Ok(Parsed(JObject(done + members), rest))
    decreases members, 1
  {
    if |members| == 1 {
      ParseLastMemberEncode(members, done, rest);
    } else {
      ParseMoreMembersEncode(members, done, rest);
    }
  }

  lemma ParseLastMemberEncode(members: seq<JMember>, done: seq<JMember>, rest: string)
    requires |members| == 1
    ensures ParseMembers(MembersTo(members, ['}'] + rest), done) == Ok(Parsed(JObject(done + members), rest))
    decreases members, 0
  {
    var m := members[0];
    var tail := ['}'] + rest;
    assert MembersTo(members, tail) == QuoteTo(m.name, [':'] + EncodeTo(m.value, tail));
    ParseMemberEncode(m, tail);
    ParseMembersClose(MembersTo(members, tail), done, m, rest);
    AppendOnly(done, members);
  }

  lemma ParseMoreMembersEncode(members: seq<JMember>, done: seq<JMember>, rest: string)
    requires |members| > 1
    ensures ParseMembers(MembersTo(members, ['}'] + rest), done) == Ok(Parsed(JObject(done + members), rest))
    decreases members, 0
  {
    var m := members[0];
    var inner := MembersTo(members[1..], ['}'] + rest);
    assert MembersTo(members, ['}'] + rest) == QuoteTo(m.name, [':'] + EncodeTo(m.value, [','] + inner));
    ParseMemberEncode(m, [','] + inner);
    MembersToStart(members[1..], ['}'] + rest);
    ParseMembersComma(MembersTo(members, ['}'] + rest), done, m, inner);
    ParseMembersEncode(members[1..], done + [m], rest);
    AppendHead(done, members);
  }

  /** JSON.parse(JSON.stringify(v)) gives back v, for every value of the model. */
  lemma DecodeEncode(v: JsonValue)
    ensures Decode(Encode(v)) == Ok(v)
  {
    EncodeStart(v, "");
    ParseValueEncode(v, "");
  }

  /**
   * Text that begins with a letter that cannot start a JSON value (anything but
   * the `n`, `t` and `f` of the three literals) is a syntax error for JSON.parse.
   */
  lemma PlainWordIsSyntaxError(text: string)
    requires |text| >= 1 && ('a' <= text[0] <= 'z' || 'A' <= text[0] <= 'Z')
    requires text[0] != 'n' && text[0] != 't' && text[0] != 'f'
    ensures Decode(text) == Err(SyntaxError)
  {
  }
}
