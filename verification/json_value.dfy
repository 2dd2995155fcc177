/** The dynamic value that crosses the adapter boundary: what Go holds in an
    `interface{}` attribute value or filter-state entry, in the shapes
    `encoding/json` knows (null, bool, number, string, array, object), plus the
    values it refuses to encode (channels, functions, complex numbers).

    A Go map has no order. An object is represented here by its members in
    ascending key order, which is also the order `json.Marshal` writes them
    in; `WellFormed` states that every object in a value has this canonical
    shape, so every Go value has exactly one well-formed representation. */
module JsonValue {
  import opened Outcomes

  datatype Value =
    | Null
    | Bool(b: bool)
    | Number(n: int)
    | String(s: string)
    | Array(items: seq<Value>)
    | Object(members: seq<Member>)
    | Unsupported(typeName: string)  // a Go value of a kind JSON cannot hold, by type name

  datatype Member = Member(key: string, value: Value)

  /** True iff the value holds nothing `json.Marshal` would reject. */
  predicate Encodable(v: Value) {
    match v
    case Unsupported(_) => false
    case Array(items) => forall i :: 0 <= i < |items| ==> Encodable(items[i])
    case Object(ms) => forall i :: 0 <= i < |ms| ==> Encodable(ms[i].value)
    case _ => true
  }

  /** Strict order on keys: lexicographic by code point, which agrees with
      Go's byte-wise comparison of the keys' UTF-8 encodings. */
  predicate KeyLess(a: string, b: string)
    decreases |a|
  {
    |b| > 0 && (|a| == 0 || a[0] < b[0] || (a[0] == b[0] && KeyLess(a[1..], b[1..])))
  }

  lemma {:induction false} KeyLessIrreflexive(a: string)
    ensures !KeyLess(a, a)
    decreases |a|
  {
    if |a| > 0 {
      KeyLessIrreflexive(a[1..]);
    }
  }

  lemma {:induction false} KeyLessTransitive(a: string, b: string, c: string)
    requires KeyLess(a, b) && KeyLess(b, c)
    ensures KeyLess(a, c)
    decreases |a|
  {
    if |a| > 0 && a[0] == b[0] && b[0] == c[0] {
      KeyLessTransitive(a[1..], b[1..], c[1..]);
    }
  }

  lemma {:induction false} KeyLessTotal(a: string, b: string)
    requires a != b
    ensures KeyLess(a, b) || KeyLess(b, a)
    decreases |a|
  {
    if |a| > 0 && |b| > 0 && a[0] == b[0] {
      assert a == [a[0]] + a[1..] && b == [b[0]] + b[1..];
      KeyLessTotal(a[1..], b[1..]);
    }
  }

  lemma KeyLessAsymmetric(a: string, b: string)
    requires KeyLess(a, b)
    ensures !KeyLess(b, a)
  {
    if KeyLess(b, a) {
      KeyLessTransitive(a, b, a);
      KeyLessIrreflexive(a);
    }
  }

  /** Keys strictly ascending: the members of one Go map, in marshal order. */
  predicate Ascending(ms: seq<Member>) {
    forall i, j :: 0 <= i < j < |ms| ==> KeyLess(ms[i].key, ms[j].key)
  }

  /** Every object inside `v` is in canonical (ascending, duplicate-free) form. */
  predicate WellFormed(v: Value) {
    match v
    case Array(items) => forall i :: 0 <= i < |items| ==> WellFormed(items[i])
    case Object(ms) => Ascending(ms) && forall i :: 0 <= i < |ms| ==> WellFormed(ms[i].value)
    case _ => true
  }

  /** The value stored under `key` in an object's members (the first match). */
  function Lookup(ms: seq<Member>, key: string): Option<Value>
  {
    if |ms| == 0 then None
    else if ms[0].key == key then Some(ms[0].value)
    else Lookup(ms[1..], key)
  }

  /** The value a Go map ends up with for `key` after the members were stored
      one after another: the last one wins. */
  function LastLookup(raw: seq<Member>, key: string): Option<Value>
  {
    if |raw| == 0 then None
    else if raw[|raw| - 1].key == key then Some(raw[|raw| - 1].value)
    else LastLookup(raw[..|raw| - 1], key)
  }

  /** Stores `m` in a canonical member list, replacing an existing entry with
      the same key: Go's `mapValue[key] = value`. */
  function Insert(ms: seq<Member>, m: Member): (r: seq<Member>)
    requires Ascending(ms)
    ensures Ascending(r)
    ensures Lookup(r, m.key) == Some(m.value)
    ensures forall k :: k != m.key ==> Lookup(r, k) == Lookup(ms, k)
    ensures forall i :: 0 <= i < |r| ==> r[i] == m || r[i] in ms
    decreases |ms|
  {
    if |ms| == 0 then [m]
    else if ms[0].key == m.key then
      assert forall i :: 1 <= i < |ms| ==> KeyLess(m.key, ms[i].key);
      [m] + ms[1..]
    else if KeyLess(m.key, ms[0].key) then
      assert forall i :: 0 < i < |ms| ==> KeyLess(m.key, ms[i].key) by {
        forall i | 0 < i < |ms| {
          KeyLessTransitive(m.key, ms[0].key, ms[i].key);
        }
      }
      [m] + ms
    else
      KeyLessTotal(m.key, ms[0].key);
      var rest := Insert(ms[1..], m);
      assert forall i :: 0 <= i < |rest| ==> KeyLess(ms[0].key, rest[i].key) by {
        forall i | 0 <= i < |rest|
          ensures KeyLess(ms[0].key, rest[i].key)
        {
          if rest[i] != m {
            var j :| 0 <= j < |ms[1..]| && ms[1..][j] == rest[i];
            assert ms[j + 1] == rest[i];
          }
        }
      }
      [ms[0]] + rest
  }

  /** A decoded object's member list as Go's map would hold it: members stored
      in text order, duplicates overwritten, then laid out in key order. */
  function Canonicalize(raw: seq<Member>): (ms: seq<Member>)
    ensures Ascending(ms)
    ensures forall k :: Lookup(ms, k) == LastLookup(raw, k)
    ensures forall i :: 0 <= i < |ms| ==> ms[i] in raw
    decreases |raw|
  {
    if |raw| == 0 then []
    else
      var prefix := Canonicalize(raw[..|raw| - 1]);
      var r := Insert(prefix, raw[|raw| - 1]);
      assert forall i :: 0 <= i < |r| ==> r[i] in raw by {
        forall i | 0 <= i < |r|
          ensures r[i] in raw
        {
          if r[i] != raw[|raw| - 1] {
            assert r[i] in prefix;
            var j :| 0 <= j < |prefix| && prefix[j] == r[i];
            assert prefix[j] in raw[..|raw| - 1];
          }
        }
      }
      r
  }

  lemma GreatestTail(ms: seq<Member>, m: Member)
    requires |ms| > 0 && Ascending(ms)
    requires forall i :: 0 <= i < |ms| ==> KeyLess(ms[i].key, m.key)
    ensures Ascending(ms[1..])
    ensures forall i :: 0 <= i < |ms[1..]| ==> KeyLess(ms[1..][i].key, m.key)
  {
  }

  lemma ConsAppend<T>(xs: seq<T>, y: T)
    requires |xs| > 0
    ensures [xs[0]] + (xs[1..] + [y]) == xs + [y]
  {
  }

  /** Storing a key larger than every present key appends it. */
  lemma {:induction false} InsertGreatest(ms: seq<Member>, m: Member)
    requires Ascending(ms)
    requires forall i :: 0 <= i < |ms| ==> KeyLess(ms[i].key, m.key)
    ensures Insert(ms, m) == ms + [m]
    decreases |ms|
  {
    if |ms| > 0 {
      assert KeyLess(ms[0].key, m.key);
      KeyLessIrreflexive(m.key);
      KeyLessAsymmetric(ms[0].key, m.key);
      assert Insert(ms, m) == [ms[0]] + Insert(ms[1..], m);
      GreatestTail(ms, m);
      InsertGreatest(ms[1..], m);
      ConsAppend(ms, m);
    }
  }

  /** A member list that is already canonical is left as it is. */
  lemma {:induction false} CanonicalizeAscending(ms: seq<Member>)
    requires Ascending(ms)
    ensures Canonicalize(ms) == ms
    decreases |ms|
  {
    if |ms| > 0 {
      var n := |ms| - 1;
      CanonicalizeAscending(ms[..n]);
      InsertGreatest(ms[..n], ms[n]);
      assert ms[..n] + [ms[n]] == ms;
    }
  }
}
