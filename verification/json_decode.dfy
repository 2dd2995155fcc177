/** Reading JSON text into a dynamic value, the way Go's `json.Unmarshal`
    fills an `interface{}`: insignificant whitespace is skipped, string
    escapes (including surrogate pairs) are resolved, objects become maps in
    which a repeated key keeps its last value, and anything after the
    top-level value other than whitespace is an error. Numbers are read as
    integers only; see the README for what that leaves out. */
module JsonDecode {
  import opened Outcomes
  import opened JsonValue

  /** A decoded prefix and the text after it. */
  datatype Parsed<T> = Parsed(value: T, rest: string)

  const ReplacementChar: char := 0xFFFD as char

  /** What a successful decode may produce: a value with canonical objects
      and nothing `json.Marshal` would refuse. */
  predicate Decoded(v: Value) {
    WellFormed(v) && Encodable(v)
  }

  function Fail<T>(message: string): Result<T> {
    Failure(UnmarshalError(message))
  }

  predicate IsWhitespace(c: char) {
    c == ' ' || c == '\t' || c == '\n' || c == '\r'
  }

  function SkipWhitespace(s: string): (t: string)
    ensures |t| <= |s|
    ensures |t| > 0 ==> !IsWhitespace(t[0])
    ensures forall i :: 0 <= i < |s| - |t| ==> IsWhitespace(s[i])
  {
    if |s| > 0 && IsWhitespace(s[0]) then
      var t := SkipWhitespace(s[1..]);
      assert forall i :: 1 <= i < |s| - |t| ==> s[i] == s[1..][i - 1];
      t
    else s
  }

  predicate IsDigit(c: char) {
    '0' <= c <= '9'
  }

  function DigitValue(c: char): nat
    requires IsDigit(c)
  {
    c as int - '0' as int
  }

  /** Length of the run of decimal digits at the head of `s`. */
  function DigitRun(s: string): (n: nat)
    ensures n <= |s|
    ensures forall i :: 0 <= i < n ==> IsDigit(s[i])
    ensures n < |s| ==> !IsDigit(s[n])
  {
    if |s| > 0 && IsDigit(s[0]) then 1 + DigitRun(s[1..]) else 0
  }

  /** The number written by a run of decimal digits. */
  function DecimalValue(ds: string): nat
    requires forall i :: 0 <= i < |ds| ==> IsDigit(ds[i])
  {
    if |ds| == 0 then 0 else DecimalValue(ds[..|ds| - 1]) * 10 + DigitValue(ds[|ds| - 1])
  }

  /** The unsigned part of a JSON number at the head of `u`: `0`, or a digit
      run that does not start with `0`. */
  function ParseUnsigned(u: string): (r: Result<Parsed<nat>>)
    ensures r.Success? ==> |r.value.rest| < |u|
  {
    if |u| == 0 || !IsDigit(u[0]) then Fail("invalid character in numeric literal")
    else
      var k := if u[0] == '0' then 1 else DigitRun(u);
      Success(Parsed(DecimalValue(u[..k]), u[k..]))
  }

  /** A JSON number at the head of `s` (which starts with `-` or a digit).
      Only integers are accepted. */
  function ParseNumber(s: string): (r: Result<Parsed<Value>>)
    requires |s| > 0
    ensures r.Success? ==> |r.value.rest| < |s| && r.value.value.Number?
  {
    var negative := s[0] == '-';
    var magnitude :- ParseUnsigned(if negative then s[1..] else s);
    var rest := magnitude.rest;
    if |rest| > 0 && (rest[0] == '.' || rest[0] == 'e' || rest[0] == 'E') then
      Fail("number with a fraction or exponent")
    else
      var m: int := magnitude.value;
      Success(Parsed(Number(if negative then -m else m), rest))
  }

  predicate IsHexDigit(c: char) {
    IsDigit(c) || 'a' <= c <= 'f' || 'A' <= c <= 'F'
  }

  function HexValue(c: char): (d: nat)
    requires IsHexDigit(c)
    ensures d < 16
  {
    if IsDigit(c) then DigitValue(c)
    else if 'a' <= c <= 'f' then c as int - 'a' as int + 10
    else c as int - 'A' as int + 10
  }

  /** The code unit of a `\uXXXX` escape at the head of `s`, if there is one. */
  function UnicodeEscape(s: string): (u: Option<nat>)
    ensures u.Some? ==> |s| >= 6 && u.value < 0x10000
  {
    if |s| >= 6 && s[0] == '\\' && s[1] == 'u'
       && IsHexDigit(s[2]) && IsHexDigit(s[3]) && IsHexDigit(s[4]) && IsHexDigit(s[5])
    then Some(((HexValue(s[2]) * 16 + HexValue(s[3])) * 16 + HexValue(s[4])) * 16 + HexValue(s[5]))
    else None
  }

  predicate IsSurrogate(u: nat) {
    0xD800 <= u < 0xE000
  }

  /** A `\u` escape at the head of `s`. A surrogate pair written as two escapes
      is one character; a surrogate that is not part of a valid pair becomes
      U+FFFD, as Go's decoder does. */
  function DecodeUnicodeEscape(s: string): (r: Result<Parsed<char>>)
    ensures r.Success? ==> |r.value.rest| < |s|
  {
    match UnicodeEscape(s)
    case None => Fail("invalid character in \\u hexadecimal character escape")
    case Some(high) =>
      if !IsSurrogate(high) then Success(Parsed(high as char, s[6..]))
      else match UnicodeEscape(s[6..])
        case Some(low) =>
          if high < 0xDC00 && 0xDC00 <= low < 0xE000 then
            Success(Parsed((0x10000 + (high - 0xD800) * 0x400 + (low - 0xDC00)) as char, s[12..]))
          else Success(Parsed(ReplacementChar, s[6..]))
        case None => Success(Parsed(ReplacementChar, s[6..]))
  }

  /** One character of a string literal's body, written plainly or escaped.
      Unescaped control characters are not allowed. */
  function DecodeChar(s: string): (r: Result<Parsed<char>>)
    requires |s| > 0
    ensures r.Success? ==> |r.value.rest| < |s|
  {
    if s[0] == '\\' then
      if |s| < 2 then Fail("unexpected end of JSON input")
      else if s[1] == '"' then Success(Parsed('"', s[2..]))
      else if s[1] == '\\' then Success(Parsed('\\', s[2..]))
      else if s[1] == '/' then Success(Parsed('/', s[2..]))
      else if s[1] == 'b' then Success(Parsed(8 as char, s[2..]))
      else if s[1] == 'f' then Success(Parsed(12 as char, s[2..]))
      else if s[1] == 'n' then Success(Parsed('\n', s[2..]))
      else if s[1] == 'r' then Success(Parsed('\r', s[2..]))
      else if s[1] == 't' then Success(Parsed('\t', s[2..]))
      else if s[1] == 'u' then DecodeUnicodeEscape(s)
      else Fail("invalid character in string escape code")
    else if s[0] < ' ' then Fail("invalid character in string literal")
    else Success(Parsed(s[0], s[1..]))
  }

  /** The body of a string literal up to and including its closing quote. */
  function ParseStringBody(s: string): (r: Result<Parsed<string>>)
    ensures r.Success? ==> |r.value.rest| < |s|
    decreases |s|
  {
    if |s| == 0 then Fail("unexpected end of JSON input")
    else if s[0] == '"' then Success(Parsed("", s[1..]))
    else
      var c :- DecodeChar(s);
      var tail :- ParseStringBody(c.rest);
      Success(Parsed([c.value] + tail.value, tail.rest))
  }

  /** A literal word (`null`, `true`, `false`) at the head of `s`. */
  function ParseLiteral(s: string, word: string, v: Value): (r: Result<Parsed<Value>>)
    requires |word| > 0
    ensures r.Success? ==> |s| >= |word| && r.value == Parsed(v, s[|word|..])
  {
    if |s| >= |word| && s[..|word|] == word then Success(Parsed(v, s[|word|..]))
    else Fail("invalid character in literal")
  }

  /** One JSON value, after optional leading whitespace. */
  function ParseValue(s: string): (r: Result<Parsed<Value>>)
    ensures r.Success? ==> |r.value.rest| < |s| && Decoded(r.value.value)
    decreases |s|, 1
  {
    var t := SkipWhitespace(s);
    if |t| == 0 then Fail("unexpected end of JSON input") else ParseToken(t)
  }

  /** One JSON value starting at the first character of `t`; the character
      decides which kind of value it is. */
  function ParseToken(t: string): (r: Result<Parsed<Value>>)
    requires |t| > 0
    ensures r.Success? ==> |r.value.rest| < |t| && Decoded(r.value.value)
    decreases |t|, 0
  {
    if t[0] == '-' || IsDigit(t[0]) then ParseNumber(t)
    else match t[0]
      case '{' => ParseObject(t[1..])
      case '[' => ParseArray(t[1..])
      case '"' => ParseString(t[1..])
      case 'n' => ParseLiteral(t, "null", Null)
      case 't' => ParseLiteral(t, "true", Bool(true))
      case 'f' => ParseLiteral(t, "false", Bool(false))
      case _ => Fail("invalid character looking for beginning of value")
  }

  /** A string value; `s` follows the opening quote. */
  function ParseString(s: string): (r: Result<Parsed<Value>>)
    ensures r.Success? ==> |r.value.rest| < |s| && r.value.value.String?
  {
    var str :- ParseStringBody(s);
    Success(Parsed(String(str.value), str.rest))
  }

  /** An array's elements and closing bracket; `s` follows the `[`. */
  function ParseArray(s: string): (r: Result<Parsed<Value>>)
    ensures r.Success? ==> |r.value.rest| < |s| && Decoded(r.value.value)
    decreases |s|, 3
  {
    var t := SkipWhitespace(s);
    if |t| > 0 && t[0] == ']' then Success(Parsed(Array([]), t[1..]))
    else ParseItems(t, [])
  }

  /** The elements from the next one on; `acc` holds those already read. */
  function ParseItems(s: string, acc: seq<Value>): (r: Result<Parsed<Value>>)
    requires forall i :: 0 <= i < |acc| ==> Decoded(acc[i])
    ensures r.Success? ==> |r.value.rest| < |s| && Decoded(r.value.value)
    decreases |s|, 2
  {
    var item :- ParseValue(s);
    var items := acc + [item.value];
    ItemsExtend(acc, item.value);
    var t := SkipWhitespace(item.rest);
    if |t| == 0 then Fail("unexpected end of JSON input")
    else if t[0] == ',' then ParseItems(t[1..], items)
    else if t[0] == ']' then
      Success(Parsed(Array(items), t[1..]))
    else Fail("invalid character after array element")
  }

  /** An object's members and closing brace; `s` follows the `{`. */
  function ParseObject(s: string): (r: Result<Parsed<Value>>)
    ensures r.Success? ==> |r.value.rest| < |s| && Decoded(r.value.value)
    decreases |s|, 4
  {
    var t := SkipWhitespace(s);
    if |t| > 0 && t[0] == '}' then Success(Parsed(Object([]), t[1..]))
    else ParseMembers(t, [])
  }

  /** One `"key": value` pair, after optional leading whitespace. */
  function ParseMember(s: string): (r: Result<Parsed<Member>>)
    ensures r.Success? ==> |r.value.rest| < |s| && Decoded(r.value.value.value)
    decreases |s|, 2
  {
    var t := SkipWhitespace(s);
    if |t| == 0 || t[0] != '"' then Fail("invalid character looking for beginning of object key string")
    else
      var key :- ParseStringBody(t[1..]);
      var u := SkipWhitespace(key.rest);
      if |u| == 0 || u[0] != ':' then Fail("invalid character after object key")
      else
        var val :- ParseValue(u[1..]);
        Success(Parsed(Member(key.value, val.value), val.rest))
  }

  /** The members from the next pair on; `acc` holds those already read, in
      text order and with any repeated keys. */
  function ParseMembers(s: string, acc: seq<Member>): (r: Result<Parsed<Value>>)
    requires forall i :: 0 <= i < |acc| ==> Decoded(acc[i].value)
    ensures r.Success? ==> |r.value.rest| < |s| && Decoded(r.value.value)
    decreases |s|, 3
  {
    var member :- ParseMember(s);
    var members := acc + [member.value];
    MembersExtend(acc, member.value);
    var w := SkipWhitespace(member.rest);
    if |w| == 0 then Fail("unexpected end of JSON input")
    else if w[0] == ',' then ParseMembers(w[1..], members)
    else if w[0] == '}' then
      CanonicalizeDecoded(members);
      Success(Parsed(Object(Canonicalize(members)), w[1..]))
    else Fail("invalid character after object key:value pair")
  }

  lemma ItemsExtend(acc: seq<Value>, v: Value)
    requires forall i :: 0 <= i < |acc| ==> Decoded(acc[i])
    requires Decoded(v)
    ensures forall i :: 0 <= i < |acc + [v]| ==> Decoded((acc + [v])[i])
    ensures Decoded(Array(acc + [v]))
  {
  }

  lemma MembersExtend(acc: seq<Member>, m: Member)
    requires forall i :: 0 <= i < |acc| ==> Decoded(acc[i].value)
    requires Decoded(m.value)
    ensures forall i :: 0 <= i < |acc + [m]| ==> Decoded((acc + [m])[i].value)
  {
  }

  lemma DecodedMember(raw: seq<Member>, m: Member)
    requires forall i :: 0 <= i < |raw| ==> Decoded(raw[i].value)
    requires m in raw
    ensures Decoded(m.value)
  {
    var j :| 0 <= j < |raw| && raw[j] == m;
  }

  /** Canonicalizing decoded members gives a decoded object. */
  lemma CanonicalizeDecoded(raw: seq<Member>)
    requires forall i :: 0 <= i < |raw| ==> Decoded(raw[i].value)
    ensures Decoded(Object(Canonicalize(raw)))
  {
    var ms := Canonicalize(raw);
    forall i | 0 <= i < |ms|
      ensures Decoded(ms[i].value)
    {
      DecodedMember(raw, ms[i]);
    }
    assert Ascending(ms);
    assert WellFormed(Object(ms));
    assert Encodable(Object(ms));
  }

  /** `json.Unmarshal` into an `interface{}`: exactly one value, surrounded by
      nothing but whitespace. */
  function Unmarshal(text: string): (r: Result<Value>)
    ensures r.Success? ==> Decoded(r.value)
    ensures r.Failure? ==> r.error.UnmarshalError?
  {
    match ParseValue(text)
    case Failure(e) => Fail(e.message)
    case Success(p) =>
      if |SkipWhitespace(p.rest)| == 0 then Success(p.value)
      else Fail("invalid character after top-level value")
  }
}
