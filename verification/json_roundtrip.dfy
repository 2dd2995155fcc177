/** The codec's round-trip law: a value `json.Marshal` accepts comes back
    unchanged from `json.Unmarshal` of the text it wrote, provided the value
    is in the canonical form every Go value has. Together with
    `Unmarshal`'s own contract (it only ever yields such values) this makes
    the two functions inverse on decoded values. */
module JsonRoundTrip {
  import opened Outcomes
  import opened JsonValue
  import opened JsonEncode
  import opened JsonDecode

  /** What can follow a value inside encoded text: nothing, a comma, or the
      bracket or brace closing the enclosing array or object. */
  predicate FollowsValue(rest: string) {
    |rest| == 0 || rest[0] == ',' || rest[0] == ']' || rest[0] == '}'
  }

  lemma {:induction false} DecimalValueOfDigits(m: nat)
    ensures DecimalValue(Digits(m)) == m
    decreases m
  {
    if m >= 10 {
      DecimalValueOfDigits(m / 10);
      var ds := Digits(m);
      assert ds[..|ds| - 1] == Digits(m / 10);
    }
  }

  lemma {:induction false} DigitRunOfDigits(ds: string, rest: string)
    requires forall i :: 0 <= i < |ds| ==> IsDigit(ds[i])
    requires |rest| == 0 || !IsDigit(rest[0])
    ensures DigitRun(ds + rest) == |ds|
    decreases |ds|
  {
    if |ds| > 0 {
      assert (ds + rest)[1..] == ds[1..] + rest;
      DigitRunOfDigits(ds[1..], rest);
    }
  }

  /** The digits written for `m` read back as `m`. */
  lemma UnsignedRoundTrip(m: nat, rest: string)
    requires FollowsValue(rest)
    ensures ParseUnsigned(Digits(m) + rest) == Success(Parsed(m, rest))
  {
    var ds := Digits(m);
    var u := ds + rest;
    DecimalValueOfDigits(m);
    if m == 0 {
      assert u[..1] == ds && u[1..] == rest;
    } else {
      DigitRunOfDigits(ds, rest);
      assert u[..|ds|] == ds && u[|ds|..] == rest;
    }
  }

  /** How a number's sign combines with its unsigned part. */
  lemma ParseNumberOfParts(s: string, m: nat, rest: string)
    requires |s| > 0
    requires ParseUnsigned(if s[0] == '-' then s[1..] else s) == Success(Parsed(m, rest))
    requires FollowsValue(rest)
    ensures ParseNumber(s) == Success(Parsed(Number(if s[0] == '-' then -(m as int) else m), rest))
  {
  }

  lemma NegativeRoundTrip(n: int, rest: string)
    requires n < 0 && FollowsValue(rest)
    ensures ParseNumber(EncodeInt(n) + rest) == Success(Parsed(Number(n), rest))
  {
    var m: nat := -n;
    var u := Digits(m) + rest;
    var s := EncodeInt(n) + rest;
    assert EncodeInt(n) == "-" + Digits(m);
    UnsignedRoundTrip(m, rest);
    Assoc("-", Digits(m), rest);
    DropHead("-", u);
    assert s[0] == '-' && s[1..] == u;
    ParseNumberOfParts(s, m, rest);
  }

  lemma NonNegativeRoundTrip(n: int, rest: string)
    requires n >= 0 && FollowsValue(rest)
    ensures ParseNumber(EncodeInt(n) + rest) == Success(Parsed(Number(n), rest))
  {
    var m: nat := n;
    var s := EncodeInt(n) + rest;
    assert EncodeInt(n) == Digits(m);
    UnsignedRoundTrip(m, rest);
    assert s[0] == Digits(m)[0];
    ParseNumberOfParts(s, m, rest);
  }

  /** Integers are read back exactly, whatever closes them. */
  lemma NumberRoundTrip(n: int, rest: string)
    requires FollowsValue(rest)
    ensures ParseNumber(EncodeInt(n) + rest) == Success(Parsed(Number(n), rest))
  {
    if n < 0 {
      NegativeRoundTrip(n, rest);
    } else {
      NonNegativeRoundTrip(n, rest);
    }
  }

  lemma HexDigitValue(d: nat)
    requires d < 16
    ensures IsHexDigit(HexDigit(d)) && HexValue(HexDigit(d)) == d
  {
  }

  /** The four digits of `Hex4`, weighted by powers of sixteen, give the
      code unit back. */
  lemma Hex4Weights(code: nat)
    requires code < 0x10000
    ensures ((code / 0x1000 * 16 + code / 0x100 % 16) * 16 + code / 0x10 % 16) * 16 + code % 16 == code
  {
    assert code / 0x100 == (code / 0x1000) * 16 + code / 0x100 % 16;
    assert code / 0x10 == (code / 0x100) * 16 + code / 0x10 % 16;
  }

  /** A `\uXXXX` escape written for a code unit reads back as that unit. */
  lemma UnicodeEscapeOfHex4(code: nat, x: string)
    requires code < 0x10000
    ensures UnicodeEscape("\\u" + Hex4(code) + x) == Some(code)
  {
    var s := "\\u" + Hex4(code) + x;
    var h := Hex4(code);
    HexDigitValue(code / 0x1000);
    HexDigitValue(code / 0x100 % 16);
    HexDigitValue(code / 0x10 % 16);
    HexDigitValue(code % 16);
    assert s[2] == h[0] && s[3] == h[1] && s[4] == h[2] && s[5] == h[3];
    Hex4Weights(code);
  }

  /** Each escaped character decodes to itself. */
  lemma EscapeCharRoundTrip(c: char, x: string)
    ensures DecodeChar(EscapeChar(c) + x) == Success(Parsed(c, x))
  {
    var e := EscapeChar(c);
    var s := e + x;
    if c == '"' || c == '\\' || c == '\n' || c == '\r' || c == '\t' {
      assert s[2..] == x;
    } else if NeedsUnicodeEscape(c) {
      UnicodeEscapeOfHex4(c as int, x);
      assert s[1] == 'u';
      assert s[6..] == x;
    } else {
      assert s[1..] == x;
    }
  }

  /** A string's escaped body, followed by the closing quote, decodes to the
      string and stops right after the quote. */
  lemma {:induction false} StringBodyRoundTrip(s: string, rest: string)
    ensures ParseStringBody(Escape(s) + "\"" + rest) == Success(Parsed(s, rest))
    decreases |s|
  {
    var t := Escape(s) + "\"" + rest;
    if |s| == 0 {
      assert t == "\"" + rest;
      assert t[1..] == rest;
    } else {
      var tail := Escape(s[1..]) + "\"" + rest;
      assert t == EscapeChar(s[0]) + tail;
      EscapeCharRoundTrip(s[0], tail);
      StringBodyRoundTrip(s[1..], rest);
      assert [s[0]] + s[1..] == s;
    }
  }

  lemma SkipNoWhitespace(t: string)
    requires |t| > 0 && !IsWhitespace(t[0])
    ensures SkipWhitespace(t) == t
  {
  }

  // One step of the decoder each: how ParseValue, ParseArray, ParseItems,
  // ParseObject and ParseMembers continue on text of a known shape.

  /** ParseValue on text without leading whitespace is ParseToken. */
  lemma ParseValueNoWhitespace(t: string)
    requires |t| > 0 && !IsWhitespace(t[0])
    ensures ParseValue(t) == ParseToken(t)
  {
    SkipNoWhitespace(t);
  }

  lemma ParseArrayOnItems(s: string)
    requires |s| > 0 && !IsWhitespace(s[0])
    ensures s[0] == ']' ==> ParseArray(s) == Success(Parsed(Array([]), s[1..]))
    ensures s[0] != ']' ==> ParseArray(s) == ParseItems(s, [])
  {
    SkipNoWhitespace(s);
  }

  lemma ParseObjectOnMembers(s: string)
    requires |s| > 0 && !IsWhitespace(s[0])
    ensures s[0] == '}' ==> ParseObject(s) == Success(Parsed(Object([]), s[1..]))
    ensures s[0] != '}' ==> ParseObject(s) == ParseMembers(s, [])
  {
    SkipNoWhitespace(s);
  }

  lemma ParseItemsStep(s: string, acc: seq<Value>, v: Value, rest: string)
    requires forall i :: 0 <= i < |acc| ==> Decoded(acc[i])
    requires ParseValue(s) == Success(Parsed(v, rest))
    requires |rest| > 0 && (rest[0] == ',' || rest[0] == ']')
    ensures rest[0] == ',' ==> ParseItems(s, acc) == ParseItems(rest[1..], acc + [v])
    ensures rest[0] == ']' ==> ParseItems(s, acc) == Success(Parsed(Array(acc + [v]), rest[1..]))
  {
    SkipNoWhitespace(rest);
  }

  lemma ParseMembersStep(s: string, acc: seq<Member>, m: Member, rest: string)
    requires forall i :: 0 <= i < |acc| ==> Decoded(acc[i].value)
    requires ParseMember(s) == Success(Parsed(m, rest))
    requires |rest| > 0 && (rest[0] == ',' || rest[0] == '}')
    ensures rest[0] == ',' ==> ParseMembers(s, acc) == ParseMembers(rest[1..], acc + [m])
    ensures rest[0] == '}' ==> ParseMembers(s, acc) == Success(Parsed(Object(Canonicalize(acc + [m])), rest[1..]))
  {
    SkipNoWhitespace(rest);
  }

  lemma LiteralRoundTrip(word: string, v: Value, rest: string)
    requires |word| > 0
    ensures ParseLiteral(word + rest, word, v) == Success(Parsed(v, rest))
  {
    var s := word + rest;
    assert s[..|word|] == word && s[|word|..] == rest;
  }

  // How ParseToken dispatches on the first character of each kind of
  // encoded value.

  lemma ParseTokenOnLetter(t: string)
    requires |t| > 0
    ensures t[0] == 'n' ==> ParseToken(t) == ParseLiteral(t, "null", Null)
    ensures t[0] == 't' ==> ParseToken(t) == ParseLiteral(t, "true", Bool(true))
    ensures t[0] == 'f' ==> ParseToken(t) == ParseLiteral(t, "false", Bool(false))
  {
  }

  lemma NullToken(v: Value, rest: string)
    requires v.Null?
    ensures ParseToken(Encode(v) + rest) == Success(Parsed(v, rest))
  {
    var t := "null" + rest;
    assert Encode(v) == "null";
    assert t[0] == 'n';
    ParseTokenOnLetter(t);
    LiteralRoundTrip("null", Null, rest);
  }

  lemma BoolToken(v: Value, rest: string)
    requires v.Bool?
    ensures ParseToken(Encode(v) + rest) == Success(Parsed(v, rest))
  {
    if v.b {
      var t := "true" + rest;
      assert Encode(v) == "true";
      assert t[0] == 't';
      ParseTokenOnLetter(t);
      LiteralRoundTrip("true", v, rest);
    } else {
      var t := "false" + rest;
      assert Encode(v) == "false";
      assert t[0] == 'f';
      ParseTokenOnLetter(t);
      LiteralRoundTrip("false", v, rest);
    }
  }

  lemma EncodeIntStart(n: int)
    ensures EncodeInt(n)[0] == '-' || IsDigit(EncodeInt(n)[0])
  {
    if n >= 0 {
      assert EncodeInt(n) == Digits(n);
    }
  }

  lemma ParseTokenOnNumber(t: string)
    requires |t| > 0 && (t[0] == '-' || IsDigit(t[0]))
    ensures ParseToken(t) == ParseNumber(t)
  {
  }

  lemma NumberToken(v: Value, rest: string)
    requires v.Number? && FollowsValue(rest)
    ensures ParseToken(Encode(v) + rest) == Success(Parsed(v, rest))
  {
    var e := EncodeInt(v.n);
    assert Encode(v) == e;
    EncodeIntStart(v.n);
    assert (e + rest)[0] == e[0];
    ParseTokenOnNumber(e + rest);
    NumberRoundTrip(v.n, rest);
  }

  lemma ParseTokenOnString(t: string)
    requires |t| > 0 && t[0] == '"'
    ensures ParseToken(t) == ParseString(t[1..])
  {
  }

  lemma StringToken(v: Value, rest: string)
    requires v.String?
    ensures ParseToken(Encode(v) + rest) == Success(Parsed(v, rest))
  {
    var e := Escape(v.s);
    var body := e + "\"" + rest;
    var t := Quote(v.s) + rest;
    assert Encode(v) == Quote(v.s);
    Assoc("\"" + e, "\"", rest);
    Assoc("\"", e, "\"" + rest);
    Assoc(e, "\"", rest);
    assert t == "\"" + body;
    DropHead("\"", body);
    ParseTokenOnString(t);
    StringBodyRoundTrip(v.s, rest);
  }

  lemma ArrayToken(v: Value, rest: string)
    requires v.Array? && Encodable(v)
    ensures ParseToken(Encode(v) + rest) == ParseArray(EncodeItems(v.items) + "]" + rest)
  {
    var body := EncodeItems(v.items) + "]";
    Assoc("[", EncodeItems(v.items), "]");
    Assoc("[", body, rest);
    DropHead("[", body + rest);
  }

  lemma ObjectToken(v: Value, rest: string)
    requires v.Object? && Encodable(v)
    ensures ParseToken(Encode(v) + rest) == ParseObject(EncodeMembers(v.members) + "}" + rest)
  {
    var body := EncodeMembers(v.members) + "}";
    Assoc("{", EncodeMembers(v.members), "}");
    Assoc("{", body, rest);
    DropHead("{", body + rest);
  }

  /** The decoder reads back every value the encoder writes, and stops
      exactly where the encoded text ends. */
  lemma {:induction false} ValueRoundTrip(v: Value, rest: string)
    requires WellFormed(v) && Encodable(v)
    requires FollowsValue(rest)
    ensures ParseValue(Encode(v) + rest) == Success(Parsed(v, rest))
    decreases v
  {
    var t := Encode(v) + rest;
    assert t[0] == Encode(v)[0];
    ParseValueNoWhitespace(t);
    match v
    case Null => NullToken(v, rest);
    case Bool(_) => BoolToken(v, rest);
    case Number(_) => NumberToken(v, rest);
    case String(_) => StringToken(v, rest);
    case Array(items) =>
      ArrayToken(v, rest);
      ArrayRoundTrip(items, rest);
    case Object(ms) =>
      ObjectToken(v, rest);
      ObjectRoundTrip(ms, rest);
  }

  // Concatenation facts the solver does not find on its own in a context
  // holding the encoder's and decoder's definitions.

  lemma Assoc(a: string, b: string, c: string)
    ensures a + b + c == a + (b + c)
  {
  }

  lemma DropHead(c: string, x: string)
    requires |c| == 1
    ensures (c + x)[1..] == x
  {
  }

  lemma CommaText(a: string, b: string, close: string)
    ensures a + "," + b + close == a + ("," + (b + close))
  {
    Assoc(a + ",", b, close);
    Assoc(a, ",", b + close);
  }

  /** Where the first element's text ends inside an array's encoding. */
  lemma ItemsText(items: seq<Value>, close: string)
    requires |items| > 1
    requires forall i :: 0 <= i < |items| ==> Encodable(items[i])
    ensures EncodeItems(items) + close == Encode(items[0]) + ("," + (EncodeItems(items[1..]) + close))
  {
    var a := Encode(items[0]);
    var b := EncodeItems(items[1..]);
    assert EncodeItems(items) == a + "," + b;
    CommaText(a, b, close);
  }

  /** Where the first member's text ends inside an object's encoding. */
  lemma MembersText(ms: seq<Member>, close: string)
    requires |ms| > 1
    requires forall i :: 0 <= i < |ms| ==> Encodable(ms[i].value)
    ensures EncodeMembers(ms) + close == EncodeMember(ms[0]) + ("," + (EncodeMembers(ms[1..]) + close))
  {
    var a := EncodeMember(ms[0]);
    var b := EncodeMembers(ms[1..]);
    assert EncodeMembers(ms) == a + "," + b;
    CommaText(a, b, close);
  }

  /** The text of one member, split where the decoder reads it. */
  lemma MemberText(m: Member, x: string)
    requires Encodable(m.value)
    ensures EncodeMember(m) + x == "\"" + (Escape(m.key) + "\"" + (":" + (Encode(m.value) + x)))
  {
    var k := Escape(m.key);
    var e := Encode(m.value);
    Assoc("\"" + k + "\"" + ":", e, x);
    Assoc("\"" + k + "\"", ":", e + x);
    Assoc("\"" + k, "\"", ":" + (e + x));
    Assoc("\"", k, "\"" + (":" + (e + x)));
    Assoc(k, "\"", ":" + (e + x));
  }

  lemma AppendFirst<T>(acc: seq<T>, xs: seq<T>)
    requires |xs| > 0
    ensures |xs| == 1 ==> acc + [xs[0]] == acc + xs
    ensures acc + [xs[0]] + xs[1..] == acc + xs
  {
  }

  /** The first character of an encoded value opens a token. */
  lemma EncodeStart(v: Value)
    requires Encodable(v)
    ensures !IsWhitespace(Encode(v)[0]) && Encode(v)[0] != ']' && Encode(v)[0] != '}'
  {
    if v.Number? {
      EncodeIntStart(v.n);
    }
  }

  lemma ItemsHead(items: seq<Value>, close: string)
    requires |items| > 0
    requires forall i :: 0 <= i < |items| ==> Encodable(items[i])
    ensures |EncodeItems(items)| > 0 && (EncodeItems(items) + close)[0] == Encode(items[0])[0]
  {
    if |items| > 1 {
      ItemsText(items, close);
    } else {
      assert EncodeItems(items) == Encode(items[0]);
    }
  }

  lemma MembersHead(ms: seq<Member>, close: string)
    requires |ms| > 0
    requires forall i :: 0 <= i < |ms| ==> Encodable(ms[i].value)
    ensures |EncodeMembers(ms)| > 0 && (EncodeMembers(ms) + close)[0] == '"'
  {
    if |ms| > 1 {
      MembersText(ms, close);
    } else {
      assert EncodeMembers(ms) == EncodeMember(ms[0]);
    }
    assert EncodeMember(ms[0])[0] == '"';
  }

  /** After the first element is read, the rest are still decodable and the
      values read so far are decoded. */
  lemma ItemsAfterFirst(items: seq<Value>, acc: seq<Value>)
    requires |items| > 0
    requires forall i :: 0 <= i < |items| ==> WellFormed(items[i]) && Encodable(items[i])
    requires forall i :: 0 <= i < |acc| ==> Decoded(acc[i])
    ensures forall i :: 0 <= i < |items[1..]| ==> WellFormed(items[1..][i]) && Encodable(items[1..][i])
    ensures forall i :: 0 <= i < |acc + [items[0]]| ==> Decoded((acc + [items[0]])[i])
  {
  }

  lemma MembersAfterFirst(ms: seq<Member>, acc: seq<Member>)
    requires |ms| > 0
    requires forall i :: 0 <= i < |ms| ==> WellFormed(ms[i].value) && Encodable(ms[i].value)
    requires forall i :: 0 <= i < |acc| ==> Decoded(acc[i].value)
    ensures forall i :: 0 <= i < |ms[1..]| ==> WellFormed(ms[1..][i].value) && Encodable(ms[1..][i].value)
    ensures forall i :: 0 <= i < |acc + [ms[0]]| ==> Decoded((acc + [ms[0]])[i].value)
  {
  }

  lemma EmptyPrefix<T>(xs: seq<T>)
    ensures [] + xs == xs
  {
  }

  lemma {:induction false} ArrayRoundTrip(items: seq<Value>, rest: string)
    requires forall i :: 0 <= i < |items| ==> WellFormed(items[i]) && Encodable(items[i])
    ensures ParseArray(EncodeItems(items) + "]" + rest) == Success(Parsed(Array(items), rest))
    decreases items, 2
  {
    var s := EncodeItems(items) + "]" + rest;
    if |items| == 0 {
      assert s == "]" + rest;
      ParseArrayOnItems(s);
      DropHead("]", rest);
    } else {
      Assoc(EncodeItems(items), "]", rest);
      ItemsHead(items, "]" + rest);
      EncodeStart(items[0]);
      ParseArrayOnItems(s);
      ItemsRoundTrip(items, [], rest);
      EmptyPrefix(items);
    }
  }

  lemma {:induction false} ObjectRoundTrip(ms: seq<Member>, rest: string)
    requires Ascending(ms)
    requires forall i :: 0 <= i < |ms| ==> WellFormed(ms[i].value) && Encodable(ms[i].value)
    ensures ParseObject(EncodeMembers(ms) + "}" + rest) == Success(Parsed(Object(ms), rest))
    decreases ms, 2
  {
    var s := EncodeMembers(ms) + "}" + rest;
    if |ms| == 0 {
      assert s == "}" + rest;
      ParseObjectOnMembers(s);
      DropHead("}", rest);
    } else {
      Assoc(EncodeMembers(ms), "}", rest);
      MembersHead(ms, "}" + rest);
      ParseObjectOnMembers(s);
      MembersRoundTrip(ms, [], rest);
      EmptyPrefix(ms);
      CanonicalizeAscending(ms);
    }
  }

  /** The elements after `[`, read onto the values already decoded. */
  lemma {:induction false} ItemsRoundTrip(items: seq<Value>, acc: seq<Value>, rest: string)
    requires |items| > 0
    requires forall i :: 0 <= i < |items| ==> WellFormed(items[i]) && Encodable(items[i])
    requires forall i :: 0 <= i < |acc| ==> Decoded(acc[i])
    ensures ParseItems(EncodeItems(items) + "]" + rest, acc) == Success(Parsed(Array(acc + items), rest))
    decreases items, 1
  {
    if |items| == 1 {
      LastItemRoundTrip(items, acc, rest);
    } else {
      MoreItemsRoundTrip(items, acc, rest);
    }
  }

  lemma {:induction false} LastItemRoundTrip(items: seq<Value>, acc: seq<Value>, rest: string)
    requires |items| == 1
    requires WellFormed(items[0]) && Encodable(items[0])
    requires forall i :: 0 <= i < |acc| ==> Decoded(acc[i])
    ensures ParseItems(EncodeItems(items) + "]" + rest, acc) == Success(Parsed(Array(acc + items), rest))
    decreases items, 0
  {
    var x := items[0];
    var tail := "]" + rest;
    var s := EncodeItems(items) + "]" + rest;
    assert EncodeItems(items) == Encode(x);
    Assoc(Encode(x), "]", rest);
    assert s == Encode(x) + tail;
    ValueRoundTrip(x, tail);
    ParseItemsStep(s, acc, x, tail);
    DropHead("]", rest);
    AppendFirst(acc, items);
  }

  lemma {:induction false} MoreItemsRoundTrip(items: seq<Value>, acc: seq<Value>, rest: string)
    requires |items| > 1
    requires forall i :: 0 <= i < |items| ==> WellFormed(items[i]) && Encodable(items[i])
    requires forall i :: 0 <= i < |acc| ==> Decoded(acc[i])
    ensures ParseItems(EncodeItems(items) + "]" + rest, acc) == Success(Parsed(Array(acc + items), rest))
    decreases items, 0
  {
    var x := items[0];
    var more := items[1..];
    var y := EncodeItems(more) + ("]" + rest);
    var s := EncodeItems(items) + "]" + rest;
    Assoc(EncodeItems(items), "]", rest);
    ItemsText(items, "]" + rest);
    assert s == Encode(x) + ("," + y);
    ValueRoundTrip(x, "," + y);
    ParseItemsStep(s, acc, x, "," + y);
    DropHead(",", y);
    Assoc(EncodeItems(more), "]", rest);
    assert y == EncodeItems(more) + "]" + rest;
    ItemsAfterFirst(items, acc);
    ItemsRoundTrip(more, acc + [x], rest);
    AppendFirst(acc, items);
  }

  lemma {:induction false} MemberRoundTrip(m: Member, x: string)
    requires WellFormed(m.value) && Encodable(m.value)
    requires FollowsValue(x)
    ensures ParseMember(EncodeMember(m) + x) == Success(Parsed(m, x))
    decreases m
  {
    var s := EncodeMember(m) + x;
    var after := ":" + (Encode(m.value) + x);
    MemberText(m, x);
    SkipNoWhitespace(s);
    DropHead("\"", Escape(m.key) + "\"" + after);
    StringBodyRoundTrip(m.key, after);
    SkipNoWhitespace(after);
    DropHead(":", Encode(m.value) + x);
    ValueRoundTrip(m.value, x);
  }

  /** The members after `{`, read onto the members already decoded. */
  lemma {:induction false} MembersRoundTrip(ms: seq<Member>, acc: seq<Member>, rest: string)
    requires |ms| > 0
    requires forall i :: 0 <= i < |ms| ==> WellFormed(ms[i].value) && Encodable(ms[i].value)
    requires forall i :: 0 <= i < |acc| ==> Decoded(acc[i].value)
    ensures ParseMembers(EncodeMembers(ms) + "}" + rest, acc)
            == Success(Parsed(Object(Canonicalize(acc + ms)), rest))
    decreases ms, 1
  {
    if |ms| == 1 {
      LastMemberRoundTrip(ms, acc, rest);
    } else {
      MoreMembersRoundTrip(ms, acc, rest);
    }
  }

  lemma {:induction false} LastMemberRoundTrip(ms: seq<Member>, acc: seq<Member>, rest: string)
    requires |ms| == 1
    requires WellFormed(ms[0].value) && Encodable(ms[0].value)
    requires forall i :: 0 <= i < |acc| ==> Decoded(acc[i].value)
    ensures ParseMembers(EncodeMembers(ms) + "}" + rest, acc)
            == Success(Parsed(Object(Canonicalize(acc + ms)), rest))
    decreases ms, 0
  {
    var m := ms[0];
    var tail := "}" + rest;
    var s := EncodeMembers(ms) + "}" + rest;
    assert EncodeMembers(ms) == EncodeMember(m);
    Assoc(EncodeMember(m), "}", rest);
    assert s == EncodeMember(m) + tail;
    MemberRoundTrip(m, tail);
    ParseMembersStep(s, acc, m, tail);
    DropHead("}", rest);
    AppendFirst(acc, ms);
  }

  lemma {:induction false} MoreMembersRoundTrip(ms: seq<Member>, acc: seq<Member>, rest: string)
    requires |ms| > 1
    requires forall i :: 0 <= i < |ms| ==> WellFormed(ms[i].value) && Encodable(ms[i].value)
    requires forall i :: 0 <= i < |acc| ==> Decoded(acc[i].value)
    ensures ParseMembers(EncodeMembers(ms) + "}" + rest, acc)
            == Success(Parsed(Object(Canonicalize(acc + ms)), rest))
    decreases ms, 0
  {
    var m := ms[0];
    var more := ms[1..];
    var y := EncodeMembers(more) + ("}" + rest);
    var s := EncodeMembers(ms) + "}" + rest;
    Assoc(EncodeMembers(ms), "}", rest);
    MembersText(ms, "}" + rest);
    assert s == EncodeMember(m) + ("," + y);
    MemberRoundTrip(m, "," + y);
    ParseMembersStep(s, acc, m, "," + y);
    DropHead(",", y);
    Assoc(EncodeMembers(more), "}", rest);
    assert y == EncodeMembers(more) + "}" + rest;
    MembersAfterFirst(ms, acc);
    MembersRoundTrip(more, acc + [m], rest);
    AppendFirst(acc, ms);
  }

  /** `json.Unmarshal(json.Marshal(v))` gives `v` back for every value that is
      the image of a Go value and that `json.Marshal` accepts. */
  lemma MarshalUnmarshal(v: Value)
    requires WellFormed(v) && Encodable(v)
    ensures Marshal(v).Success?
    ensures Unmarshal(Marshal(v).value) == Success(v)
  {
    ValueRoundTrip(v, "");
    assert Encode(v) + "" == Encode(v);
  }

  /** Whatever `json.Unmarshal` produces can be written again, and the text
      written reads back as the same value. */
  lemma UnmarshalMarshal(text: string)
    requires Unmarshal(text).Success?
    ensures Marshal(Unmarshal(text).value).Success?
    ensures Unmarshal(Marshal(Unmarshal(text).value).value) == Unmarshal(text)
  {
    MarshalUnmarshal(Unmarshal(text).value);
  }
}
