/**
 The canonical serializer: plugin/autoskill/src/raw-vault.js, canonicalJson.

 Strings are sequences of UTF-16 code units, as in JavaScript. A number is its own serialization: the
 text that JSON.stringify prints for it. Object members keep the order they were inserted in.
 */
module RawVault {
  type Unit = u: int | 0 <= u < 0x1_0000
  type Text = seq<Unit>

  const QUOTE: Unit := 0x22
  const COMMA: Unit := 0x2c
  const COLON: Unit := 0x3a
  const BACKSLASH: Unit := 0x5c
  const LBRACKET: Unit := 0x5b
  const RBRACKET: Unit := 0x5d
  const LBRACE: Unit := 0x7b
  const RBRACE: Unit := 0x7d
  const NULL: Text := [0x6e, 0x75, 0x6c, 0x6c]
  const TRUE: Text := [0x74, 0x72, 0x75, 0x65]
  const FALSE: Text := [0x66, 0x61, 0x6c, 0x73, 0x65]

  predicate Digit(u: Unit) {
    0x30 <= u <= 0x39
  }

  /** The units of a number's text: digits, signs, the point and the exponent mark. */
  predicate NumberUnit(u: Unit) {
    Digit(u) || u == 0x2b || u == 0x2d || u == 0x2e || u == 0x65
  }

  predicate NumberText(t: Text) {
    t != [] && (Digit(t[0]) || t[0] == 0x2d) && forall i | 0 <= i < |t| :: NumberUnit(t[i])
  }

  type Number = t: Text | NumberText(t) witness [0x30]

  datatype Json =
    | Null | Bool(b: bool) | Num(number: Number) | Str(s: Text) | Arr(items: seq<Json>) | Obj(members: seq<Member>)

  datatype Member = Member(key: Text, value: Json)

  predicate DistinctKeys(ms: seq<Member>) {
    forall i, j | 0 <= i < j < |ms| :: ms[i].key != ms[j].key
  }

  /** No object holds a key twice. */
  predicate WellFormed(v: Json) {
    match v
    case Arr(items) => forall i | 0 <= i < |items| :: WellFormed(items[i])
    case Obj(ms) => DistinctKeys(ms) && forall i | 0 <= i < |ms| :: WellFormed(ms[i].value)
    case _ => true
  }

  predicate HasKey(ms: seq<Member>, key: Text) {
    exists i | 0 <= i < |ms| :: ms[i].key == key
  }

  /** value[key]. */
  function Lookup(ms: seq<Member>, key: Text): (v: Json)
    requires HasKey(ms, key)
    ensures exists i | 0 <= i < |ms| :: ms[i].key == key && ms[i].value == v
  {
    if ms[0].key == key then ms[0].value else Lookup(ms[1..], key)
  }

  // ----- Strings: JSON.stringify, section 7 of RFC 8259 -----

  predicate HighSurrogate(u: Unit) {
    0xd800 <= u < 0xdc00
  }

  predicate LowSurrogate(u: Unit) {
    0xdc00 <= u < 0xe000
  }

  function HexDigit(d: int): Unit
    requires 0 <= d < 16
  {
    if d < 10 then 0x30 + d else 0x57 + d
  }

  function UnicodeEscape(u: Unit): Text {
    var (a, b, c) := (u / 0x10, u / 0x10 / 0x10, u / 0x10 / 0x10 / 0x10);
    [BACKSLASH, 0x75, HexDigit(c), HexDigit(b % 0x10), HexDigit(a % 0x10), HexDigit(u % 0x10)]
  }

  /** The letter of a two-unit escape; zero where there is none. */
  function EscapeLetter(u: Unit): Unit {
    if u == QUOTE || u == BACKSLASH then u
    else if u == 0x08 then 0x62
    else if u == 0x09 then 0x74
    else if u == 0x0a then 0x6e
    else if u == 0x0c then 0x66
    else if u == 0x0d then 0x72
    else 0
  }

  /** One unit that is not part of a surrogate pair. */
  function EscapeUnit(u: Unit): Text {
    if EscapeLetter(u) != 0 then [BACKSLASH, EscapeLetter(u)]
    else if u < 0x20 || HighSurrogate(u) || LowSurrogate(u) then UnicodeEscape(u)
    else [u]
  }

  predicate StartsPair(s: Text) {
    2 <= |s| && HighSurrogate(s[0]) && LowSurrogate(s[1])
  }

  function Escape(s: Text): Text {
    if s == [] then []
    else if StartsPair(s) then s[..2] + Escape(s[2..])
    else EscapeUnit(s[0]) + Escape(s[1..])
  }

  function Quote(s: Text): Text {
    [QUOTE] + Escape(s) + [QUOTE]
  }

  // ----- Key order: by code units, section 3.2.3 of RFC 8785 -----

  predicate Less(a: Text, b: Text) {
    b != [] && (a == [] || a[0] < b[0] || (a[0] == b[0] && Less(a[1..], b[1..])))
  }

  function Insert(key: Text, sorted: seq<Text>): (r: seq<Text>)
    ensures multiset(r) == multiset(sorted) + multiset{key}
  {
    if sorted == [] || Less(key, sorted[0]) then [key] + sorted
    else
      assert sorted == [sorted[0]] + sorted[1..];
      [sorted[0]] + Insert(key, sorted[1..])
  }

  function SortKeys(ms: seq<Member>): (r: seq<Text>)
    ensures |r| == |ms|
    ensures forall k :: k in r <==> HasKey(ms, k)
  {
    if ms == [] then [] else
      var rest := SortKeys(ms[1..]);
      var r := Insert(ms[0].key, rest);
      assert |multiset(r)| == |multiset(rest)| + 1;
      assert forall k :: k in r <==> k in multiset(r);
      assert forall k :: k in rest <==> k in multiset(rest);
      assert forall k :: HasKey(ms, k) <==> k == ms[0].key || HasKey(ms[1..], k) by { HasKeyCons(ms); }
      r
  }

  lemma HasKeyCons(ms: seq<Member>)
    requires ms != []
    ensures forall k :: HasKey(ms, k) <==> k == ms[0].key || HasKey(ms[1..], k)
  {
    forall k ensures HasKey(ms, k) <==> k == ms[0].key || HasKey(ms[1..], k) {
      if HasKey(ms, k) && k != ms[0].key {
        var i :| 0 <= i < |ms| && ms[i].key == k;
        assert ms[1..][i - 1].key == k;
      }
      if HasKey(ms[1..], k) {
        var i :| 0 <= i < |ms[1..]| && ms[1..][i].key == k;
        assert ms[i + 1].key == k;
      }
    }
  }

  // ----- The serializer -----

  function CanonicalJson(v: Json): Text
    decreases v, 1
  {
    match v
    case Null => NULL
    case Bool(b) => if b then TRUE else FALSE
    case Num(number) => number
    case Str(s) => Quote(s)
    case Arr(items) => [LBRACKET] + Items(items) + [RBRACKET]
    case Obj(ms) => [LBRACE] + Members(ms, SortKeys(ms)) + [RBRACE]
  }

  /** The serialized items, joined by commas. */
  function Items(items: seq<Json>): Text
    decreases items, 0
  {
    if items == [] then []
    else CanonicalJson(items[0]) + if |items| == 1 then [] else [COMMA] + Items(items[1..])
  }

  /** The members under the given keys, in the order of the keys, joined by commas. */
  function Members(ms: seq<Member>, keys: seq<Text>): Text
    requires forall k | k in keys :: HasKey(ms, k)
    decreases ms, |keys|
  {
    if keys == [] then []
    else
      Quote(keys[0]) + [COLON] + CanonicalJson(Lookup(ms, keys[0]))
      + if |keys| == 1 then [] else [COMMA] + Members(ms, keys[1..])
  }

  /** Equal up to the order of object members. */
  ghost predicate Same(v: Json, w: Json) {
    match (v, w)
    case (Arr(items), Arr(items')) =>
      |items| == |items'| && forall i | 0 <= i < |items| :: Same(items[i], items'[i])
    case (Obj(ms), Obj(ns)) =>
      && (forall j | 0 <= j < |ns| :: HasKey(ms, ns[j].key))
      && forall i | 0 <= i < |ms| :: HasKey(ns, ms[i].key) && Same(ms[i].value, Lookup(ns, ms[i].key))
    case _ => v == w
  }
}
