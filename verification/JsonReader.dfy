/**
 An independent reader of JSON texts, written from sections 3 to 7 of RFC 8259, and what it makes of the
 texts that the canonical serializer prints (plugin/autoskill/src/raw-vault.js:145-156). The reader takes
 no white space and only the escapes that JSON.stringify prints.
 */
module JsonReader {
  import opened Wrappers
  import opened RawVault
  import opened CanonicalLaws

  // ----- Strings -----

  function HexValue(u: Unit): Option<nat> {
    if 0x30 <= u <= 0x39 then Some(u - 0x30)
    else if 0x61 <= u <= 0x66 then Some(u - 0x61 + 10)
    else None
  }

  /** The two-unit escapes: quote, backslash, b, f, n, r and t. */
  function Unescape(u: Unit): Option<Unit> {
    if u == 0x22 then Some(0x22)
    else if u == 0x5c then Some(0x5c)
    else if u == 0x62 then Some(0x08)
    else if u == 0x66 then Some(0x0c)
    else if u == 0x6e then Some(0x0a)
    else if u == 0x72 then Some(0x0d)
    else if u == 0x74 then Some(0x09)
    else None
  }

  /** What a \\u escape may stand for: a control unit without an escape of its own, or a lone surrogate. */
  predicate NeedsHex(v: nat) {
    || (v < 0x20 && v != 0x08 && v != 0x09 && v != 0x0a && v != 0x0c && v != 0x0d)
    || 0xd800 <= v < 0xe000
  }

  function ReadHex(t: Text): Option<Unit>
    requires |t| == 4
  {
    var a, b, c, d := HexValue(t[0]), HexValue(t[1]), HexValue(t[2]), HexValue(t[3]);
    if a.Some? && b.Some? && c.Some? && d.Some? then
      Some(((a.value * 16 + b.value) * 16 + c.value) * 16 + d.value)
    else None
  }

  /** One unit or surrogate pair of a string, and how many units of text it takes. */
  function ReadChunk(t: Text): (r: Option<(Text, nat)>)
    ensures r.Some? ==> 0 < r.value.1 <= |t| && r.value.0 != []
  {
    if t == [] then None
    else if t[0] == 0x5c then
      if |t| < 2 then None
      else if Unescape(t[1]).Some? then Some(([Unescape(t[1]).value], 2))
      else if t[1] == 0x75 && |t| >= 6 then
        match ReadHex(t[2..6])
        case Some(v) => if NeedsHex(v) then Some(([v], 6)) else None
        case None => None
      else None
    else if t[0] == 0x22 || t[0] < 0x20 then None
    else if 0xd800 <= t[0] < 0xdc00 then
      if |t| >= 2 && 0xdc00 <= t[1] < 0xe000 then Some((t[..2], 2)) else None
    else if 0xdc00 <= t[0] < 0xe000 then None
    else Some(([t[0]], 1))
  }

  /** The escaped high surrogate of a pair that would have been printed as it is. */
  predicate SplitPair(c: Text, n: nat, s: Text)
    requires c != []
  {
    n == 6 && 0xd800 <= c[0] < 0xdc00 && s != [] && 0xdc00 <= s[0] < 0xe000
  }

  /** A string up to its closing quote, and what follows it. */
  function ReadString(t: Text): (r: Option<(Text, Text)>)
    ensures r.Some? ==> |r.value.1| < |t|
    decreases |t|
  {
    if t == [] then None
    else if t[0] == 0x22 then Some(([], t[1..]))
    else
      match ReadChunk(t)
      case None => None
      case Some((c, n)) =>
        match ReadString(t[n..])
        case None => None
        case Some((s, x)) => if SplitPair(c, n, s) then None else Some((c + s, x))
  }

  lemma DigitReads(d: nat)
    requires d < 16
    ensures HexValue(HexDigit(d)) == Some(d)
  {
  }

  lemma HexReads(u: Unit)
    ensures ReadHex(UnicodeEscape(u)[2..6]) == Some(u)
  {
    hide HexValue, HexDigit;
    var a, b, c := u / 0x10, u / 0x10 / 0x10, u / 0x10 / 0x10 / 0x10;
    var t := UnicodeEscape(u)[2..6];
    assert t == [HexDigit(c), HexDigit(b % 0x10), HexDigit(a % 0x10), HexDigit(u % 0x10)];
    DigitReads(c);
    DigitReads(b % 0x10);
    DigitReads(a % 0x10);
    DigitReads(u % 0x10);
  }

  lemma HexChunkReads(u: Unit, z: Text)
    requires EscapeLetter(u) == 0 && (u < 0x20 || 0xd800 <= u < 0xe000)
    ensures ReadChunk(UnicodeEscape(u) + z) == Some(([u], 6))
  {
    HexReads(u);
    HexShape(u);
    var t := UnicodeEscape(u) + z;
    assert t[2..6] == UnicodeEscape(u)[2..6] && t[0] == 0x5c && t[1] == 0x75;
    hide UnicodeEscape, ReadHex;
  }

  lemma LetterReads(u: Unit, z: Text)
    requires EscapeLetter(u) != 0
    ensures ReadChunk([BACKSLASH, EscapeLetter(u)] + z) == Some(([u], 2))
  {
    hide ReadHex;
    var t := [BACKSLASH, EscapeLetter(u)] + z;
    assert t[0] == BACKSLASH && t[1] == EscapeLetter(u);
  }

  lemma RawReads(u: Unit, z: Text)
    requires EscapeLetter(u) == 0 && u >= 0x20 && !(0xd800 <= u < 0xe000)
    ensures ReadChunk([u] + z) == Some(([u], 1))
  {
    hide ReadHex;
    assert ([u] + z)[0] == u;
  }

  lemma PairReads(pair: Text, z: Text)
    requires |pair| == 2 && StartsPair(pair)
    ensures ReadChunk(pair + z) == Some((pair, 2))
  {
    hide ReadHex;
    var t := pair + z;
    assert t[0] == pair[0] && t[1] == pair[1] && t[..2] == pair;
  }

  lemma ChunkReads(s: Text, z: Text)
    requires s != []
    ensures FirstChunk(s).1 != []
    ensures ReadChunk(FirstChunk(s).1 + z) == Some((FirstChunk(s).0, |FirstChunk(s).1|))
    ensures !SplitPair(FirstChunk(s).0, |FirstChunk(s).1|, s[|FirstChunk(s).0|..])
  {
    hide ReadChunk, EscapeLetter, UnicodeEscape;
    var u := s[0];
    if StartsPair(s) {
      PairReads(s[..2], z);
    } else if EscapeLetter(u) != 0 {
      LetterReads(u, z);
      assert s[..1] == [u];
    } else if u < 0x20 || 0xd800 <= u < 0xe000 {
      HexChunkReads(u, z);
      HexShape(u);
      assert s[..1] == [u];
    } else {
      RawReads(u, z);
      assert s[..1] == [u];
    }
  }

  lemma HexShape(u: Unit)
    ensures |UnicodeEscape(u)| == 6 && UnicodeEscape(u)[0] == 0x5c && UnicodeEscape(u)[1] == 0x75
  {
  }

  /** The reader reads every printed string back, whatever follows it. */
  lemma {:induction false} StringReadsBack(s: Text, x: Text)
    ensures ReadString(Escape(s) + [QUOTE] + x) == Some((s, x))
    decreases |s|
  {
    hide Escape, ReadChunk, FirstChunk, SplitPair;
    var t := Escape(s) + [QUOTE] + x;
    if s == [] {
      EscapeNothing();
      assert t == [QUOTE] + x && t[1..] == x;
    } else {
      var (taken, printed) := FirstChunk(s);
      EscapeUnfold(s);
      var s' := s[|taken|..];
      var rest := Escape(s') + [QUOTE] + x;
      assert t == printed + rest;
      ChunkReads(s, rest);
      ChunkIsNoQuote(s, rest);
      assert t[|printed|..] == rest;
      TakenIsProper(s);
      StringReadsBack(s', x);
      assert s == taken + s';
    }
  }

  lemma TakenIsProper(s: Text)
    requires s != []
    ensures var taken := FirstChunk(s).0; taken != [] && taken <= s
  {
  }

  /** Nothing else reads as that string: the reader accepts the serializer's own texts only. */
  lemma {:induction false} StringIsPrinted(t: Text)
    requires ReadString(t).Some?
    ensures var (s, x) := ReadString(t).value; t == Escape(s) + [QUOTE] + x
    decreases |t|
  {
    hide Escape, ReadChunk, SplitPair;
    var (s, x) := ReadString(t).value;
    if t[0] == 0x22 {
      EscapeNothing();
      assert t == [QUOTE] + t[1..] && [] + [QUOTE] + x == [QUOTE] + x;
    } else {
      var (c, n) := ReadChunk(t).value;
      var (s', x') := ReadString(t[n..]).value;
      StringIsPrinted(t[n..]);
      ChunkIsPrinted(t, s');
      assert s == c + s' && t == t[..n] + t[n..];
      assert t == (t[..n] + Escape(s')) + [QUOTE] + x;
    }
  }

  lemma ChunkIsPrinted(t: Text, s: Text)
    requires ReadChunk(t).Some?
    requires !SplitPair(ReadChunk(t).value.0, ReadChunk(t).value.1, s)
    ensures var (c, n) := ReadChunk(t).value; Escape(c + s) == t[..n] + Escape(s)
  {
    hide Escape;
    var (c, n) := ReadChunk(t).value;
    EscapeUnfold(c + s);
    if n == 6 {
      HexIsPrinted(t[2..6]);
      assert t[..6] == [t[0], t[1]] + t[2..6];
      assert (c + s)[1..] == s;
    } else if |c| == 2 {
      assert (c + s)[..2] == c && (c + s)[2..] == s;
    } else {
      assert (c + s)[1..] == s && t[..n] == if n == 1 then [t[0]] else [t[0], t[1]];
    }
  }

  lemma HexIsPrinted(t: Text)
    requires |t| == 4 && ReadHex(t).Some?
    ensures UnicodeEscape(ReadHex(t).value) == [0x5c, 0x75] + t
  {
    var u := ReadHex(t).value;
    var a, b, c, d := HexValue(t[0]).value, HexValue(t[1]).value, HexValue(t[2]).value, HexValue(t[3]).value;
    assert u / 16 == (a * 16 + b) * 16 + c && u % 16 == d;
    assert u / 16 / 16 == a * 16 + b && (u / 16) % 16 == c;
    assert u / 16 / 16 / 16 == a && (u / 16 / 16) % 16 == b;
    assert HexDigit(a) == t[0] && HexDigit(b) == t[1] && HexDigit(c) == t[2] && HexDigit(d) == t[3];
  }

  // ----- Values -----

  /** Digits, plus, minus, the point and e. */
  predicate InNumber(u: Unit) {
    0x30 <= u <= 0x39 || u == 0x2b || u == 0x2d || u == 0x2e || u == 0x65
  }

  function NumberLength(t: Text): (n: nat)
    ensures n <= |t| && forall i | 0 <= i < n :: InNumber(t[i])
  {
    if t == [] || !InNumber(t[0]) then 0 else NumberLength(t[1..]) + 1
  }

  /** A value, and what follows it. */
  function ReadValue(t: Text): (r: Option<(Json, Text)>)
    ensures r.Some? ==> |r.value.1| < |t|
    decreases |t|, 0
  {
    if [0x6e, 0x75, 0x6c, 0x6c] <= t then Some((Null, t[4..]))
    else if [0x74, 0x72, 0x75, 0x65] <= t then Some((Bool(true), t[4..]))
    else if [0x66, 0x61, 0x6c, 0x73, 0x65] <= t then Some((Bool(false), t[5..]))
    else if t == [] then None
    else if t[0] == 0x22 then
      match ReadString(t[1..])
      case Some((s, x)) => Some((Str(s), x))
      case None => None
    else if 0x30 <= t[0] <= 0x39 || t[0] == 0x2d then
      Some((Num(t[..NumberLength(t)]), t[NumberLength(t)..]))
    else if t[0] == 0x5b then
      if |t| >= 2 && t[1] == 0x5d then Some((Arr([]), t[2..])) else
        match ReadItems(t[1..])
        case Some((items, x)) => Some((Arr(items), x))
        case None => None
    else if t[0] == 0x7b then
      if |t| >= 2 && t[1] == 0x7d then Some((Obj([]), t[2..])) else
        match ReadMembers(t[1..])
        case Some((ms, x)) => Some((Obj(ms), x))
        case None => None
    else None
  }

  /** Items separated by commas, up to the closing bracket. */
  function ReadItems(t: Text): (r: Option<(seq<Json>, Text)>)
    ensures r.Some? ==> |r.value.1| < |t|
    decreases |t|, 1
  {
    match ReadValue(t)
    case None => None
    case Some((v, y)) =>
      if y != [] && y[0] == 0x5d then Some(([v], y[1..]))
      else if y != [] && y[0] == 0x2c then
        match ReadItems(y[1..])
        case Some((vs, x)) => Some(([v] + vs, x))
        case None => None
      else None
  }

  /** Members separated by commas, up to the closing brace. */
  function ReadMembers(t: Text): (r: Option<(seq<Member>, Text)>)
    ensures r.Some? ==> |r.value.1| < |t|
    decreases |t|, 1
  {
    if t == [] || t[0] != 0x22 then None else
      match ReadString(t[1..])
      case None => None
      case Some((key, y)) =>
        if y == [] || y[0] != 0x3a then None else
          match ReadValue(y[1..])
          case None => None
          case Some((v, z)) =>
            if z != [] && z[0] == 0x7d then Some(([Member(key, v)], z[1..]))
            else if z != [] && z[0] == 0x2c then
              match ReadMembers(z[1..])
              case Some((ms, x)) => Some(([Member(key, v)] + ms, x))
              case None => None
            else None
  }

  // ----- Key order -----

  /** By code units: at the first difference a has the smaller unit, or a ends there. */
  ghost predicate KeyBefore(a: Text, b: Text) {
    exists n | 0 <= n <= |a| && n < |b| :: a[..n] == b[..n] && (n == |a| || a[n] < b[n])
  }

  lemma {:induction false} LessIsBefore(a: Text, b: Text)
    requires Less(a, b)
    ensures KeyBefore(a, b)
    decreases |a|
  {
    if a == [] || a[0] < b[0] {
      assert a[..0] == b[..0];
    } else {
      LessIsBefore(a[1..], b[1..]);
      var a', b' := a[1..], b[1..];
      var n :| 0 <= n <= |a'| && n < |b'| && a'[..n] == b'[..n] && (n == |a'| || a'[n] < b'[n]);
      assert a[..n + 1] == [a[0]] + a'[..n] && b[..n + 1] == [b[0]] + b'[..n];
    }
  }

  /** Every object has its keys in that order. */
  ghost predicate KeysOrdered(v: Json) {
    match v
    case Arr(items) => forall i | 0 <= i < |items| :: KeysOrdered(items[i])
    case Obj(ms) =>
      && (forall i, j | 0 <= i < j < |ms| :: KeyBefore(ms[i].key, ms[j].key))
      && forall i | 0 <= i < |ms| :: KeysOrdered(ms[i].value)
    case _ => true
  }

  /** The keys are sorted by code units, each before all later ones. */
  lemma KeysAreSorted(ms: seq<Member>)
    requires DistinctKeys(ms)
    ensures forall i, j | 0 <= i < j < |SortKeys(ms)| :: KeyBefore(SortKeys(ms)[i], SortKeys(ms)[j])
  {
    hide SortKeys, Less, KeyBefore;
    SortKeysIncreasing(ms);
    forall i, j | 0 <= i < j < |SortKeys(ms)|
      ensures KeyBefore(SortKeys(ms)[i], SortKeys(ms)[j])
    {
      LessIsBefore(SortKeys(ms)[i], SortKeys(ms)[j]);
    }
  }

  // ----- What the serializer prints is read back -----

  lemma {:induction false} NumberReads(number: Text, x: Text)
    requires (forall i | 0 <= i < |number| :: InNumber(number[i])) && (x == [] || !InNumber(x[0]))
    ensures NumberLength(number + x) == |number|
  {
    if number == [] {
      assert number + x == x;
    } else {
      assert (number + x)[1..] == number[1..] + x;
      NumberReads(number[1..], x);
    }
  }

  lemma LeafReadsBack(v: Json, x: Text)
    requires Follows(x) && !v.Arr? && !v.Obj?
    ensures ReadValue(CanonicalJson(v) + x) == Some((v, x))
  {
    hide ReadItems, ReadMembers, Escape, ReadString, Items, Members;
    var t := CanonicalJson(v) + x;
    match v {
      case Null => assert t[..4] == NULL && t[4..] == x;
      case Bool(b) =>
        if b {
          assert t[0] == 0x74 && t[..4] == TRUE && t[4..] == x;
        } else {
          assert t[0] == 0x66 && t[..5] == FALSE && t[5..] == x;
        }
      case Num(number) =>
        NumberReads(number, x);
        assert t[0] == number[0] && t[..|number|] == number && t[|number|..] == x;
      case Str(s) =>
        assert t == [0x22] + (Escape(s) + [QUOTE] + x);
        assert t[1..] == Escape(s) + [QUOTE] + x;
        StringReadsBack(s, x);
    }
  }

  /**
   The printed text of every value reads back as that value, up to the order of object members, and its
   objects have their keys in the order of code units.
   */
  lemma {:induction false} ReadsBack(v: Json, x: Text) returns (w: Json)
    requires WellFormed(v) && Follows(x)
    ensures ReadValue(CanonicalJson(v) + x) == Some((w, x))
    ensures Same(v, w) && KeysOrdered(w)
    decreases v, 1
  {
    hide Items, Members, SortKeys, Escape, ReadValue, ReadItems, ReadMembers, KeyBefore;
    match v {
      case Arr(items) =>
        var t := CanonicalJson(v) + x;
        assert t[0] == 0x5b && t[1..] == Items(items) + ([RBRACKET] + x);
        if items == [] {
          ItemsOfNothing();
          assert t[1..] == [RBRACKET] + x && t[1] == 0x5d && t[2..] == x;
          EmptyReads(t);
          w := Arr([]);
        } else {
          var ws := ItemsReadBack(items, x);
          ItemsStart(items, [RBRACKET] + x);
          ArrayReads(t, ws, x);
          w := Arr(ws);
        }
      case Obj(ms) =>
        var keys := SortKeys(ms);
        var t := CanonicalJson(v) + x;
        assert t[0] == 0x7b && t[1..] == Members(ms, keys) + ([RBRACE] + x);
        if keys == [] {
          MembersOfNothing(ms);
          assert t[1..] == [RBRACE] + x && t[1] == 0x7d && t[2..] == x;
          EmptyReads(t);
          w := Obj([]);
        } else {
          var ns := MembersReadBack(ms, keys, x);
          MembersStart(ms, keys, [RBRACE] + x);
          ObjectReads(t, ns, x);
          w := Obj(ns);
          KeysAreSorted(ms);
          ReadObjectIsSame(ms, ns);
        }
      case _ =>
        LeafReadsBack(v, x);
        w := v;
    }
  }

  lemma EmptyReads(t: Text)
    requires |t| >= 2
    ensures t[0] == 0x5b && t[1] == 0x5d ==> ReadValue(t) == Some((Arr([]), t[2..]))
    ensures t[0] == 0x7b && t[1] == 0x7d ==> ReadValue(t) == Some((Obj([]), t[2..]))
  {
    hide ReadString, ReadItems, ReadMembers;
  }

  lemma ArrayReads(t: Text, ws: seq<Json>, x: Text)
    requires |t| >= 2 && t[0] == 0x5b && t[1..][0] != 0x5d && ReadItems(t[1..]) == Some((ws, x))
    ensures ReadValue(t) == Some((Arr(ws), x))
  {
    hide ReadString, ReadItems, ReadMembers;
  }

  lemma ObjectReads(t: Text, ns: seq<Member>, x: Text)
    requires |t| >= 2 && t[0] == 0x7b && t[1..][0] == 0x22 && ReadMembers(t[1..]) == Some((ns, x))
    ensures ReadValue(t) == Some((Obj(ns), x))
  {
    hide ReadString, ReadItems, ReadMembers;
  }

  lemma ItemsStart(items: seq<Json>, z: Text)
    requires items != []
    ensures Items(items) + z != [] && (Items(items) + z)[0] != 0x5d
  {
    hide CanonicalJson, Items;
    ItemsUnfold(items, z);
    FirstUnit(items[0]);
    FirstUnitOf(items[0], if |items| == 1 then z else [COMMA] + (Items(items[1..]) + z));
  }

  lemma MembersStart(ms: seq<Member>, keys: seq<Text>, z: Text)
    requires keys != [] && forall k | k in keys :: HasKey(ms, k)
    ensures Members(ms, keys) + z != [] && (Members(ms, keys) + z)[0] == 0x22
  {
    hide CanonicalJson, Members, Escape;
    MembersUnfold(ms, keys, z);
    assert Quote(keys[0])[0] == 0x22;
  }

  lemma {:induction false} ItemsReadBack(vs: seq<Json>, x: Text) returns (ws: seq<Json>)
    requires vs != [] && forall i | 0 <= i < |vs| :: WellFormed(vs[i])
    ensures ReadItems(Items(vs) + ([RBRACKET] + x)) == Some((ws, x))
    ensures |ws| == |vs| && forall i | 0 <= i < |vs| :: Same(vs[i], ws[i]) && KeysOrdered(ws[i])
    decreases vs, 0
  {
    hide CanonicalJson, Items, WellFormed, Same, KeysOrdered, ReadValue;
    var z := [RBRACKET] + x;
    ItemsUnfold(vs, z);
    if |vs| == 1 {
      var w := ReadsBack(vs[0], z);
      assert z[1..] == x;
      ws := [w];
    } else {
      var rest := Items(vs[1..]) + z;
      var y := [COMMA] + rest;
      var w := ReadsBack(vs[0], y);
      assert y[1..] == rest;
      var more := ItemsReadBack(vs[1..], x);
      ws := [w] + more;
      forall i | 0 <= i < |vs|
        ensures Same(vs[i], ws[i]) && KeysOrdered(ws[i])
      {
        if i > 0 {
          assert vs[i] == vs[1..][i - 1] && ws[i] == more[i - 1];
        }
      }
    }
  }

  lemma {:induction false} MembersReadBack(ms: seq<Member>, keys: seq<Text>, x: Text) returns (ns: seq<Member>)
    requires keys != [] && (forall i | 0 <= i < |ms| :: WellFormed(ms[i].value))
    requires forall k | k in keys :: HasKey(ms, k)
    ensures ReadMembers(Members(ms, keys) + ([RBRACE] + x)) == Some((ns, x))
    ensures |ns| == |keys|
    ensures forall i | 0 <= i < |keys| ::
              && ns[i].key == keys[i] && keys[i] in keys
              && Same(Lookup(ms, keys[i]), ns[i].value) && KeysOrdered(ns[i].value)
    decreases ms, |keys|
  {
    hide CanonicalJson, Members, WellFormed, Same, KeysOrdered, ReadValue, ReadString, Quote, Escape, Lookup;
    var z := [RBRACE] + x;
    var key, value := keys[0], Lookup(ms, keys[0]);
    MembersUnfold(ms, keys, z);
    LookupWellFormed(ms, key);
    var rest := if |keys| == 1 then z else [COMMA] + (Members(ms, keys[1..]) + z);
    var w := ReadsBack(value, rest);
    var after := [COLON] + (CanonicalJson(value) + rest);
    NameReads(key, after, Members(ms, keys) + z);
    assert after[1..] == CanonicalJson(value) + rest;
    if |keys| == 1 {
      assert z[1..] == x;
      ns := [Member(key, w)];
    } else {
      assert rest[1..] == Members(ms, keys[1..]) + z;
      var more := MembersReadBack(ms, keys[1..], x);
      ns := [Member(key, w)] + more;
      forall i | 0 <= i < |keys|
        ensures ns[i].key == keys[i] && keys[i] in keys
        ensures Same(Lookup(ms, keys[i]), ns[i].value) && KeysOrdered(ns[i].value)
      {
        if i > 0 {
          assert keys[i] == keys[1..][i - 1] && ns[i] == more[i - 1];
        }
      }
    }
  }

  lemma NameReads(key: Text, after: Text, t: Text)
    requires t == Quote(key) + after
    ensures t != [] && t[0] == 0x22 && ReadString(t[1..]) == Some((key, after))
  {
    hide Escape, ReadString;
    assert t[1..] == Escape(key) + [QUOTE] + after;
    StringReadsBack(key, after);
  }

  lemma SortedKeysDiffer(ms: seq<Member>)
    requires DistinctKeys(ms)
    ensures forall i, j | 0 <= i < j < |SortKeys(ms)| :: SortKeys(ms)[i] != SortKeys(ms)[j]
  {
    hide SortKeys, Less;
    SortKeysIncreasing(ms);
    forall i, j | 0 <= i < j < |SortKeys(ms)|
      ensures SortKeys(ms)[i] != SortKeys(ms)[j]
    {
      LessTotal(SortKeys(ms)[i], SortKeys(ms)[i]);
    }
  }

  lemma ReadKeysDiffer(ms: seq<Member>, ns: seq<Member>)
    requires DistinctKeys(ms) && |ns| == |SortKeys(ms)|
    requires forall i | 0 <= i < |ns| :: ns[i].key == SortKeys(ms)[i]
    ensures DistinctKeys(ns)
  {
    hide SortKeys;
    SortedKeysDiffer(ms);
  }

  /** A printed member is among the members read. */
  lemma MemberIsRead(ms: seq<Member>, ns: seq<Member>, i: nat)
    requires DistinctKeys(ms) && DistinctKeys(ns) && i < |ms| && |ns| == |SortKeys(ms)|
    requires forall j | 0 <= j < |ns| ::
               ns[j].key == SortKeys(ms)[j] && HasKey(ms, ns[j].key) && Same(Lookup(ms, ns[j].key), ns[j].value)
    ensures HasKey(ns, ms[i].key) && Same(ms[i].value, Lookup(ns, ms[i].key))
  {
    assert HasKey(ms, ms[i].key);
    assert ms[i].key in SortKeys(ms);
    hide SortKeys, Lookup, Same, DistinctKeys, HasKey;
    var keys := SortKeys(ms);
    var j :| 0 <= j < |keys| && keys[j] == ms[i].key;
    LookupMember(ms, i);
    LookupMember(ns, j);
  }

  /** The members read under the sorted keys are the members that were printed. */
  lemma ReadObjectIsSame(ms: seq<Member>, ns: seq<Member>)
    requires DistinctKeys(ms) && |ns| == |SortKeys(ms)|
    requires forall i | 0 <= i < |ns| ::
               && ns[i].key == SortKeys(ms)[i] && SortKeys(ms)[i] in SortKeys(ms)
               && Same(Lookup(ms, ns[i].key), ns[i].value)
    ensures Same(Obj(ms), Obj(ns))
  {
    hide SortKeys, Lookup, DistinctKeys, HasKey;
    ReadKeysDiffer(ms, ns);
    forall j | 0 <= j < |ns|
      ensures HasKey(ms, ns[j].key)
    {
      assert SortKeys(ms)[j] in SortKeys(ms);
    }
    forall i | 0 <= i < |ms|
      ensures HasKey(ns, ms[i].key) && Same(ms[i].value, Lookup(ns, ms[i].key))
    {
      hide Same;
      MemberIsRead(ms, ns, i);
    }
  }
}
