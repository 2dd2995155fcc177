/** Writing a dynamic value as JSON text (RFC 8259), the way Go's
    `json.Marshal` lays out the value model's shapes: no insignificant
    whitespace, object members in key order, integers in plain decimal, and
    strings escaped with the HTML-safe rules of `encoding/json`. */
module JsonEncode {
  import opened Outcomes
  import opened JsonValue

  const LineSeparator: char := 0x2028 as char
  const ParagraphSeparator: char := 0x2029 as char

  /** Lower-case hexadecimal digit for `d`. */
  function HexDigit(d: nat): (c: char)
    requires d < 16
    ensures '0' <= c <= '9' || 'a' <= c <= 'f'
  {
    if d < 10 then ('0' as int + d) as char else ('a' as int + d - 10) as char
  }

  /** The four hexadecimal digits of a `\uXXXX` escape. */
  function Hex4(code: nat): (h: string)
    requires code < 0x10000
    ensures |h| == 4
  {
    [HexDigit(code / 0x1000), HexDigit(code / 0x100 % 16), HexDigit(code / 0x10 % 16), HexDigit(code % 16)]
  }

  /** Characters written as a `\u` escape: control characters without a short
      escape, the HTML-sensitive `<`, `>`, `&`, and U+2028/U+2029. */
  predicate NeedsUnicodeEscape(c: char) {
    (c < ' ' && c != '\n' && c != '\r' && c != '\t')
    || c == '<' || c == '>' || c == '&'
    || c == LineSeparator || c == ParagraphSeparator
  }

  /** How one character of a string is written inside the quotes, as
      `encoding/json` does up to Go 1.21: backspace and form feed take the
      `\u00XX` form like every other control character. */
  function EscapeChar(c: char): (e: string)
    ensures |e| > 0 && e[0] != '"'
    ensures e[0] == '\\' || (e == [c] && ' ' <= c)
  {
    if c == '"' then "\\\""
    else if c == '\\' then "\\\\"
    else if c == '\n' then "\\n"
    else if c == '\r' then "\\r"
    else if c == '\t' then "\\t"
    else if NeedsUnicodeEscape(c) then "\\u" + Hex4(c as int)
    else [c]
  }

  function Escape(s: string): string
  {
    if |s| == 0 then "" else EscapeChar(s[0]) + Escape(s[1..])
  }

  /** A string value as a JSON string literal. */
  function Quote(s: string): (q: string)
    ensures |q| >= 2 && q[0] == '"'
  {
    "\"" + Escape(s) + "\""
  }

  function DigitChar(d: nat): (c: char)
    requires d < 10
    ensures '0' <= c <= '9'
  {
    ('0' as int + d) as char
  }

  /** Decimal digits of `m`, most significant first, no leading zeros. */
  function Digits(m: nat): (ds: string)
    ensures |ds| > 0
    ensures forall i :: 0 <= i < |ds| ==> '0' <= ds[i] <= '9'
    ensures ds[0] == '0' <==> m == 0
  {
    if m < 10 then [DigitChar(m)] else Digits(m / 10) + [DigitChar(m % 10)]
  }

  function EncodeInt(n: int): (t: string)
    ensures |t| > 0
    ensures t[0] == '-' <==> n < 0
  {
    if n < 0 then "-" + Digits(-n) else Digits(n)
  }

  function Encode(v: Value): (t: string)
    requires Encodable(v)
    ensures |t| > 0
    ensures t[0] in "ntf\"[{-0123456789"
    decreases v
  {
    match v
    case Null => "null"
    case Bool(b) => if b then "true" else "false"
    case Number(n) => EncodeInt(n)
    case String(s) => Quote(s)
    case Array(items) => "[" + EncodeItems(items) + "]"
    case Object(ms) => "{" + EncodeMembers(ms) + "}"
  }

  /** Array elements separated by commas. */
  function EncodeItems(items: seq<Value>): string
    requires forall i :: 0 <= i < |items| ==> Encodable(items[i])
    decreases items
  {
    if |items| == 0 then ""
    else if |items| == 1 then Encode(items[0])
    else Encode(items[0]) + "," + EncodeItems(items[1..])
  }

  function EncodeMember(m: Member): string
    requires Encodable(m.value)
    decreases m
  {
    Quote(m.key) + ":" + Encode(m.value)
  }

  /** Object members separated by commas, in the order given. */
  function EncodeMembers(ms: seq<Member>): string
    requires forall i :: 0 <= i < |ms| ==> Encodable(ms[i].value)
    decreases ms
  {
    if |ms| == 0 then ""
    else if |ms| == 1 then EncodeMember(ms[0])
    else EncodeMember(ms[0]) + "," + EncodeMembers(ms[1..])
  }

  /** The type name of the first value `json.Marshal` meets that it cannot
      encode, in the order it walks the value (array order, key order). */
  function FirstUnsupported(v: Value): (t: Option<string>)
    ensures t.None? <==> Encodable(v)
    decreases v
  {
    match v
    case Unsupported(name) => Some(name)
    case Array(items) => FirstUnsupportedItem(items)
    case Object(ms) => FirstUnsupportedMember(ms)
    case _ => None
  }

  function FirstUnsupportedItem(items: seq<Value>): (t: Option<string>)
    ensures t.None? <==> forall i :: 0 <= i < |items| ==> Encodable(items[i])
    decreases items
  {
    if |items| == 0 then None
    else match FirstUnsupported(items[0])
      case Some(name) => Some(name)
      case None =>
        var t := FirstUnsupportedItem(items[1..]);
        assert t.None? ==> forall i :: 0 <= i < |items| ==> Encodable(items[i]) by {
          if t.None? {
            forall i | 0 <= i < |items|
              ensures Encodable(items[i])
            {
              if i > 0 {
                assert items[i] == items[1..][i - 1];
              }
            }
          }
        }
        t
  }

  function FirstUnsupportedMember(ms: seq<Member>): (t: Option<string>)
    ensures t.None? <==> forall i :: 0 <= i < |ms| ==> Encodable(ms[i].value)
    decreases ms
  {
    if |ms| == 0 then None
    else match FirstUnsupported(ms[0].value)
      case Some(name) => Some(name)
      case None =>
        var t := FirstUnsupportedMember(ms[1..]);
        assert t.None? ==> forall i :: 0 <= i < |ms| ==> Encodable(ms[i].value) by {
          if t.None? {
            forall i | 0 <= i < |ms|
              ensures Encodable(ms[i].value)
            {
              if i > 0 {
                assert ms[i] == ms[1..][i - 1];
              }
            }
          }
        }
        t
  }

  /** `json.Marshal`: the JSON text of the value, or the error naming the
      first type it cannot encode. */
  function Marshal(v: Value): (r: Result<string>)
    ensures r.Success? <==> Encodable(v)
    ensures r.Success? ==> r.value == Encode(v)
    ensures r.Failure? ==> r.error.MarshalError?
  {
    match FirstUnsupported(v)
    case None => Success(Encode(v))
    case Some(name) => Failure(MarshalError("json: unsupported type: " + name))
  }
}
