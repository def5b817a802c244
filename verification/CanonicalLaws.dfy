/**
 The canonical text is unambiguous: two JSON values have the same one exactly when they are equal up to
 the order of object members.
 */
module CanonicalLaws {
  import opened RawVault

  // ----- Strings read back -----

  /** The first thing Escape prints: what it consumes and what it prints for it. */
  function FirstChunk(s: Text): (Text, Text)
    requires s != []
  {
    if StartsPair(s) then (s[..2], s[..2]) else (s[..1], EscapeUnit(s[0]))
  }

  lemma EscapeUnfold(s: Text)
    requires s != []
    ensures var (taken, printed) := FirstChunk(s);
            taken != [] && taken <= s && Escape(s) == printed + Escape(s[|taken|..])
  {
  }

  lemma HexInjective(u: Unit, v: Unit)
    requires UnicodeEscape(u) == UnicodeEscape(v)
    ensures u == v
  {
    assert UnicodeEscape(u)[2] == UnicodeEscape(v)[2] && UnicodeEscape(u)[3] == UnicodeEscape(v)[3];
    assert UnicodeEscape(u)[4] == UnicodeEscape(v)[4] && UnicodeEscape(u)[5] == UnicodeEscape(v)[5];
    assert u / 0x10 / 0x10 == v / 0x10 / 0x10;
    assert u / 0x10 == v / 0x10;
  }

  lemma EscapeUnitFacts(u: Unit)
    ensures var e := EscapeUnit(u);
            && e != [] && e[0] != QUOTE
            && (e[0] != BACKSLASH ==> e == [u] && !HighSurrogate(u))
            && (e[0] == BACKSLASH && EscapeLetter(u) != 0 ==>
                  e == [BACKSLASH, EscapeLetter(u)] && EscapeLetter(u) != 0x75)
            && (e[0] == BACKSLASH && EscapeLetter(u) == 0 ==> e == UnicodeEscape(u))
  {
  }

  lemma EscapeLetterInjective(u: Unit, v: Unit)
    requires EscapeLetter(u) == EscapeLetter(v) != 0
    ensures u == v
  {
  }

  /** No printed chunk is the start of another, and none starts with the closing quote. */
  lemma ChunksUnambiguous(s: Text, t: Text, x: Text, y: Text)
    requires s != [] && t != [] && FirstChunk(s).1 + x == FirstChunk(t).1 + y
    ensures FirstChunk(s) == FirstChunk(t) && x == y
  {
    var (a, p) := FirstChunk(s);
    var (b, q) := FirstChunk(t);
    EscapeUnitFacts(s[0]);
    EscapeUnitFacts(t[0]);
    assert p[0] == (p + x)[0] == (q + y)[0] == q[0];
    assert a == if StartsPair(s) then [s[0], s[1]] else [s[0]];
    assert b == if StartsPair(t) then [t[0], t[1]] else [t[0]];
    if p[0] == BACKSLASH {
      assert p[1] == (p + x)[1] == (q + y)[1] == q[1];
      if EscapeLetter(s[0]) != 0 {
        EscapeLetterInjective(s[0], t[0]);
      } else {
        assert p == (p + x)[..6] == (q + y)[..6] == q;
        HexInjective(s[0], t[0]);
      }
    } else if StartsPair(s) {
      assert p[1] == (p + x)[1] == (q + y)[1] == q[1];
    }
    assert |p| == |q| && p == (p + x)[..|p|] == (q + y)[..|q|] == q;
    assert x == (p + x)[|p|..] == (q + y)[|q|..] == y;
  }

  lemma ChunkIsNoQuote(s: Text, x: Text)
    requires s != []
    ensures FirstChunk(s).1 != [] && (FirstChunk(s).1 + x)[0] != QUOTE
  {
    EscapeUnitFacts(s[0]);
  }

  lemma {:induction false} EscapeUnambiguous(s: Text, t: Text, x: Text, y: Text)
    requires Escape(s) + [QUOTE] + x == Escape(t) + [QUOTE] + y
    ensures s == t && x == y
    decreases |s|
  {
    hide FirstChunk, Escape;
    if s != [] && t != [] {
      EscapeUnfold(s);
      EscapeUnfold(t);
      var (a, p) := FirstChunk(s);
      var (b, q) := FirstChunk(t);
      var s', t' := s[|a|..], t[|b|..];
      assert Escape(s) + [QUOTE] + x == p + (Escape(s') + [QUOTE] + x);
      assert Escape(t) + [QUOTE] + y == q + (Escape(t') + [QUOTE] + y);
      ChunksUnambiguous(s, t, Escape(s') + [QUOTE] + x, Escape(t') + [QUOTE] + y);
      EscapeUnambiguous(s', t', x, y);
      assert s == a + s' && t == b + t';
    } else if s != [] {
      NothingIsNoChunk(s, x, y);
    } else if t != [] {
      NothingIsNoChunk(t, y, x);
    } else {
      EscapeNothing();
      assert x == ([QUOTE] + x)[1..] && y == ([QUOTE] + y)[1..];
      assert Escape([]) + [QUOTE] + x == [QUOTE] + x && Escape([]) + [QUOTE] + y == [QUOTE] + y;
    }
  }

  lemma EscapeNothing()
    ensures Escape([]) == []
  {
  }

  lemma NothingIsNoChunk(s: Text, x: Text, y: Text)
    requires s != []
    ensures Escape(s) + [QUOTE] + x != Escape([]) + [QUOTE] + y
  {
    EscapeUnfold(s);
    var (a, p) := FirstChunk(s);
    ChunkIsNoQuote(s, Escape(s[|a|..]) + [QUOTE] + x);
    assert Escape(s) + [QUOTE] + x == p + (Escape(s[|a|..]) + [QUOTE] + x);
    assert (Escape([]) + [QUOTE] + y)[0] == QUOTE;
  }

  lemma QuoteUnambiguous(s: Text, t: Text, x: Text, y: Text)
    requires Quote(s) + x == Quote(t) + y
    ensures s == t && x == y
  {
    hide Escape;
    assert (Quote(s) + x)[1..] == Escape(s) + [QUOTE] + x;
    assert (Quote(t) + y)[1..] == Escape(t) + [QUOTE] + y;
    EscapeUnambiguous(s, t, x, y);
  }

  // ----- Values read back -----

  /** What may follow a serialized value. */
  predicate Follows(x: Text) {
    x == [] || x[0] == COMMA || x[0] == RBRACKET || x[0] == RBRACE
  }

  /** The first unit tells the kind of the value. */
  lemma FirstUnit(v: Json)
    ensures var t := CanonicalJson(v);
            && t != []
            && (v.Null? ==> t[0] == 0x6e)
            && (v.Bool? ==> t[0] == if v.b then 0x74 else 0x66)
            && (v.Num? ==> Digit(t[0]) || t[0] == 0x2d)
            && (v.Str? ==> t[0] == QUOTE)
            && (v.Arr? ==> t[0] == LBRACKET)
            && (v.Obj? ==> t[0] == LBRACE)
  {
    hide Escape, Items, Members, SortKeys;
  }

  lemma FirstUnitOf(v: Json, x: Text)
    ensures CanonicalJson(v) != [] && (CanonicalJson(v) + x)[0] == CanonicalJson(v)[0]
  {
    hide CanonicalJson;
    FirstUnit(v);
  }

  lemma NumbersUnambiguous(a: Number, b: Number, x: Text, y: Text)
    requires Follows(x) && Follows(y) && a + x == b + y
    ensures a == b && x == y
  {
    assert forall i | 0 <= i < |a| :: (a + x)[i] == a[i];
    assert forall i | 0 <= i < |b| :: (b + y)[i] == b[i];
    assert x != [] ==> (a + x)[|a|] == x[0];
    assert y != [] ==> (b + y)[|b|] == y[0];
    assert |a| == |b|;
    assert a == (a + x)[..|a|] == (b + y)[..|b|] == b;
    assert x == (a + x)[|a|..] == (b + y)[|b|..] == y;
  }

  /** A serialized value followed by a delimiter can be read back in one way only. */
  lemma {:induction false} Unambiguous(v: Json, w: Json, x: Text, y: Text)
    requires WellFormed(v) && WellFormed(w) && Follows(x) && Follows(y)
    requires CanonicalJson(v) + x == CanonicalJson(w) + y
    ensures Same(v, w) && x == y
    decreases v, 1
  {
    hide Escape, SortKeys, Items, Members, Quote;
    FirstUnit(v);
    FirstUnit(w);
    FirstUnitOf(v, x);
    FirstUnitOf(w, y);
    match v {
      case Str(s) => QuoteUnambiguous(s, w.s, x, y);
      case Num(number) => NumbersUnambiguous(number, w.number, x, y);
      case Arr(items) =>
        assert (CanonicalJson(v) + x)[1..] == Items(items) + ([RBRACKET] + x);
        assert (CanonicalJson(w) + y)[1..] == Items(w.items) + ([RBRACKET] + y);
        ItemsUnambiguous(items, w.items, x, y);
      case Obj(ms) =>
        assert (CanonicalJson(v) + x)[1..] == Members(ms, SortKeys(ms)) + ([RBRACE] + x);
        assert (CanonicalJson(w) + y)[1..] == Members(w.members, SortKeys(w.members)) + ([RBRACE] + y);
        MembersUnambiguous(ms, w.members, SortKeys(ms), SortKeys(w.members), x, y);
        SameMembers(ms, w.members, SortKeys(ms));
      case _ => SameLiteral(v, w, x, y);
    }
  }

  lemma SameLiteral(v: Json, w: Json, x: Text, y: Text)
    requires (v.Null? || v.Bool?) && v == w && CanonicalJson(v) + x == CanonicalJson(w) + y
    ensures x == y
  {
    hide CanonicalJson;
    var t := CanonicalJson(v);
    assert x == (t + x)[|t|..] == (t + y)[|t|..] == y;
  }

  lemma ItemsUnfold(items: seq<Json>, z: Text)
    requires items != []
    ensures Items(items) + z == CanonicalJson(items[0]) + if |items| == 1 then z else [COMMA] + (Items(items[1..]) + z)
  {
    hide CanonicalJson;
    var first := CanonicalJson(items[0]);
    if |items| == 1 {
      assert Items(items) == first + [] == first;
    } else {
      var rest := Items(items[1..]);
      assert Items(items) == first + ([COMMA] + rest);
      Regroup(first, [COMMA], rest, z);
    }
  }

  lemma Regroup(a: Text, b: Text, c: Text, z: Text)
    ensures a + (b + c) + z == a + (b + (c + z))
  {
  }

  lemma {:induction false} ItemsUnambiguous(vs: seq<Json>, ws: seq<Json>, x: Text, y: Text)
    requires (forall i | 0 <= i < |vs| :: WellFormed(vs[i])) && (forall i | 0 <= i < |ws| :: WellFormed(ws[i]))
    requires Items(vs) + ([RBRACKET] + x) == Items(ws) + ([RBRACKET] + y)
    ensures |vs| == |ws| && x == y && forall i | 0 <= i < |vs| :: Same(vs[i], ws[i])
    decreases vs, 0
  {
    hide CanonicalJson, Items, WellFormed, Same;
    var x', y' := [RBRACKET] + x, [RBRACKET] + y;
    if vs == [] && ws == [] {
      ItemsOfNothing();
      assert [] + x' == x' && [] + y' == y';
      assert x == x'[1..] && y == y'[1..];
    } else if vs == [] {
      ItemsAreNotEmpty(ws, y', x);
    } else if ws == [] {
      ItemsAreNotEmpty(vs, x', y);
    } else {
      ItemsUnfold(vs, x');
      ItemsUnfold(ws, y');
      var restV := if |vs| == 1 then x' else [COMMA] + (Items(vs[1..]) + x');
      var restW := if |ws| == 1 then y' else [COMMA] + (Items(ws[1..]) + y');
      Unambiguous(vs[0], ws[0], restV, restW);
      assert restV[0] == restW[0];
      if |vs| == 1 {
        assert x == x'[1..] && y == y'[1..];
      } else {
        assert restV[1..] == Items(vs[1..]) + x' && restW[1..] == Items(ws[1..]) + y';
        ItemsUnambiguous(vs[1..], ws[1..], x, y);
        forall i | 0 <= i < |vs| ensures Same(vs[i], ws[i]) {
          if i > 0 {
            assert vs[i] == vs[1..][i - 1] && ws[i] == ws[1..][i - 1];
          }
        }
      }
    }
  }

  lemma ItemsOfNothing()
    ensures Items([]) == []
  {
  }

  /** The text of an item never starts with the closing bracket. */
  lemma ItemsAreNotEmpty(ws: seq<Json>, y: Text, x: Text)
    requires ws != []
    ensures Items(ws) + y != Items([]) + ([RBRACKET] + x)
  {
    hide CanonicalJson, Items;
    ItemsOfNothing();
    ItemsUnfold(ws, y);
    FirstUnit(ws[0]);
    FirstUnitOf(ws[0], if |ws| == 1 then y else [COMMA] + (Items(ws[1..]) + y));
    assert ([] + ([RBRACKET] + x))[0] == RBRACKET;
  }

  lemma RegroupMember(name: Text, value: Text, tail: Text, last: bool, z: Text)
    ensures name + [COLON] + value + (if last then [] else [COMMA] + tail) + z
         == name + ([COLON] + (value + if last then z else [COMMA] + (tail + z)))
  {
    var rest := if last then [] else [COMMA] + tail;
    assert rest + z == if last then z else [COMMA] + (tail + z);
    assert name + [COLON] + value + rest + z == name + ([COLON] + (value + (rest + z)));
  }

  lemma MembersStep(ms: seq<Member>, keys: seq<Text>)
    requires keys != [] && forall k | k in keys :: HasKey(ms, k)
    ensures keys[0] in keys && forall k | k in keys[1..] :: HasKey(ms, k)
    ensures Members(ms, keys)
         == Quote(keys[0]) + [COLON] + CanonicalJson(Lookup(ms, keys[0]))
            + if |keys| == 1 then [] else [COMMA] + Members(ms, keys[1..])
  {
    hide CanonicalJson, Quote, Lookup;
  }

  lemma MembersUnfold(ms: seq<Member>, keys: seq<Text>, z: Text)
    requires keys != [] && forall k | k in keys :: HasKey(ms, k)
    ensures keys[0] in keys && forall k | k in keys[1..] :: HasKey(ms, k)
    ensures Members(ms, keys) + z
         == Quote(keys[0])
            + ([COLON] + (CanonicalJson(Lookup(ms, keys[0]))
                          + if |keys| == 1 then z else [COMMA] + (Members(ms, keys[1..]) + z)))
  {
    hide CanonicalJson, Quote, Lookup;
    MembersStep(ms, keys);
    hide Members;
    RegroupMember(Quote(keys[0]), CanonicalJson(Lookup(ms, keys[0])),
                  if |keys| == 1 then [] else Members(ms, keys[1..]), |keys| == 1, z);
  }

  lemma LookupWellFormed(ms: seq<Member>, key: Text)
    requires HasKey(ms, key) && forall i | 0 <= i < |ms| :: WellFormed(ms[i].value)
    ensures WellFormed(Lookup(ms, key))
  {
  }

  lemma {:induction false} MembersUnambiguous(ms: seq<Member>, ns: seq<Member>, ks: seq<Text>, ls: seq<Text>,
                                              x: Text, y: Text)
    requires forall i | 0 <= i < |ms| :: WellFormed(ms[i].value)
    requires forall i | 0 <= i < |ns| :: WellFormed(ns[i].value)
    requires (forall k | k in ks :: HasKey(ms, k)) && (forall k | k in ls :: HasKey(ns, k))
    requires Members(ms, ks) + ([RBRACE] + x) == Members(ns, ls) + ([RBRACE] + y)
    ensures ks == ls && x == y && forall k | k in ks :: HasKey(ns, k) && Same(Lookup(ms, k), Lookup(ns, k))
    decreases ms, |ks|
  {
    hide CanonicalJson, Members, WellFormed, Same, Quote;
    var x', y' := [RBRACE] + x, [RBRACE] + y;
    if ks == [] && ls == [] {
      MembersOfNothing(ms);
      MembersOfNothing(ns);
      assert [] + x' == x' && [] + y' == y';
      assert x == x'[1..] && y == y'[1..];
    } else if ks == [] {
      MembersAreNotEmpty(ns, ls, y', ms, x);
    } else if ls == [] {
      MembersAreNotEmpty(ms, ks, x', ns, y);
    } else {
      MembersUnfold(ms, ks, x');
      MembersUnfold(ns, ls, y');
      var restV := if |ks| == 1 then x' else [COMMA] + (Members(ms, ks[1..]) + x');
      var restW := if |ls| == 1 then y' else [COMMA] + (Members(ns, ls[1..]) + y');
      var v, w := Lookup(ms, ks[0]), Lookup(ns, ls[0]);
      var afterV, afterW := [COLON] + (CanonicalJson(v) + restV), [COLON] + (CanonicalJson(w) + restW);
      QuoteUnambiguous(ks[0], ls[0], afterV, afterW);
      assert afterV[1..] == CanonicalJson(v) + restV && afterW[1..] == CanonicalJson(w) + restW;
      LookupWellFormed(ms, ks[0]);
      LookupWellFormed(ns, ls[0]);
      Unambiguous(v, w, restV, restW);
      assert restV[0] == restW[0];
      assert ks == [ks[0]] + ks[1..] && ls == [ls[0]] + ls[1..];
      if |ks| == 1 {
        assert x == x'[1..] && y == y'[1..];
      } else {
        assert restV[1..] == Members(ms, ks[1..]) + x' && restW[1..] == Members(ns, ls[1..]) + y';
        MembersUnambiguous(ms, ns, ks[1..], ls[1..], x, y);
      }
    }
  }

  lemma MembersOfNothing(ms: seq<Member>)
    ensures Members(ms, []) == []
  {
  }

  lemma MembersAreNotEmpty(ns: seq<Member>, ls: seq<Text>, y: Text, ms: seq<Member>, x: Text)
    requires ls != [] && forall k | k in ls :: HasKey(ns, k)
    ensures Members(ns, ls) + y != Members(ms, []) + ([RBRACE] + x)
  {
    hide CanonicalJson, Members, Lookup, Escape;
    MembersOfNothing(ms);
    MembersUnfold(ns, ls, y);
    assert (Members(ns, ls) + y)[0] == QUOTE;
    assert ([] + ([RBRACE] + x))[0] == RBRACE;
  }

  lemma {:induction false} LookupMember(ms: seq<Member>, i: nat)
    requires DistinctKeys(ms) && i < |ms|
    ensures HasKey(ms, ms[i].key) && Lookup(ms, ms[i].key) == ms[i].value
  {
    var v := Lookup(ms, ms[i].key);
    var j :| 0 <= j < |ms| && ms[j].key == ms[i].key && ms[j].value == v;
  }

  /** The same sorted keys with equal values under each make equal objects. */
  lemma SameMembers(ms: seq<Member>, ns: seq<Member>, keys: seq<Text>)
    requires DistinctKeys(ms) && keys == SortKeys(ms) == SortKeys(ns)
    requires forall k | k in keys :: HasKey(ns, k) && Same(Lookup(ms, k), Lookup(ns, k))
    ensures Same(Obj(ms), Obj(ns))
  {
    hide SortKeys, Lookup;
    forall i | 0 <= i < |ms| ensures HasKey(ns, ms[i].key) && Same(ms[i].value, Lookup(ns, ms[i].key)) {
      LookupMember(ms, i);
      assert ms[i].key in keys;
    }
    forall j | 0 <= j < |ns| ensures HasKey(ms, ns[j].key) {
      assert HasKey(ns, ns[j].key);
    }
  }

  // ----- Equal values print alike -----

  ghost predicate Increasing(keys: seq<Text>) {
    forall i, j | 0 <= i < j < |keys| :: Less(keys[i], keys[j])
  }

  lemma {:induction false} LessTransitive(a: Text, b: Text, c: Text)
    requires Less(a, b) && Less(b, c)
    ensures Less(a, c)
    decreases |a|
  {
    if a != [] && a[0] == b[0] == c[0] {
      LessTransitive(a[1..], b[1..], c[1..]);
    }
  }

  lemma {:induction false} LessTotal(a: Text, b: Text)
    ensures (Less(a, b) || a == b || Less(b, a)) && !(Less(a, b) && Less(b, a)) && !Less(a, a)
    decreases |a|
  {
    if a != [] && b != [] && a[0] == b[0] {
      LessTotal(a[1..], b[1..]);
      assert a == [a[0]] + a[1..] && b == [b[0]] + b[1..];
    }
    if a != [] {
      LessTotal(a[1..], a[1..]);
    }
  }

  lemma {:induction false} InsertIncreasing(key: Text, sorted: seq<Text>)
    requires Increasing(sorted) && key !in sorted
    ensures Increasing(Insert(key, sorted))
  {
    hide Less;
    if sorted != [] {
      LessTotal(key, sorted[0]);
      if Less(key, sorted[0]) {
        forall j | 0 < j < |sorted| ensures Less(key, sorted[j]) {
          LessTransitive(key, sorted[0], sorted[j]);
        }
      } else {
        var rest := Insert(key, sorted[1..]);
        InsertIncreasing(key, sorted[1..]);
        forall j | 0 <= j < |rest| ensures Less(sorted[0], rest[j]) {
          assert rest[j] in multiset(rest);
          if rest[j] != key {
            assert rest[j] in multiset(sorted[1..]);
          }
        }
      }
    }
  }

  lemma {:induction false} SortKeysIncreasing(ms: seq<Member>)
    requires DistinctKeys(ms)
    ensures Increasing(SortKeys(ms))
  {
    hide Insert, Increasing;
    if ms == [] {
      NothingIncreases();
    } else {
      SortKeysIncreasing(ms[1..]);
      assert !HasKey(ms[1..], ms[0].key);
      InsertIncreasing(ms[0].key, SortKeys(ms[1..]));
    }
  }

  lemma NothingIncreases()
    ensures Increasing([])
  {
  }

  /** Increasing lists of the same keys are equal. */
  lemma {:induction false} IncreasingUnique(a: seq<Text>, b: seq<Text>)
    requires Increasing(a) && Increasing(b) && forall k :: k in a <==> k in b
    ensures a == b
    decreases |a|
  {
    hide Less;
    if a == [] {
      if b != [] {
        FirstIsIn(b);
      }
    } else {
      assert a[0] in a && a[0] in b;
      assert b[0] in b && b[0] in a;
      FirstIsLeast(a, b[0]);
      FirstIsLeast(b, a[0]);
      LessTotal(a[0], b[0]);
      forall k ensures k in a[1..] <==> k in b[1..] {
        RestOf(a, k);
        RestOf(b, k);
      }
      IncreasingUnique(a[1..], b[1..]);
      assert a == [a[0]] + a[1..] && b == [b[0]] + b[1..];
    }
  }

  lemma FirstIsIn(a: seq<Text>)
    requires a != []
    ensures a[0] in a
  {
  }

  lemma FirstIsLeast(a: seq<Text>, k: Text)
    requires Increasing(a) && k in a
    ensures k == a[0] || Less(a[0], k)
  {
  }

  lemma RestOf(a: seq<Text>, k: Text)
    requires Increasing(a) && a != []
    ensures k in a[1..] <==> k in a && k != a[0]
  {
    hide Less;
    assert a == [a[0]] + a[1..];
    forall i | 0 <= i < |a[1..]| ensures a[1..][i] != a[0] {
      assert Less(a[0], a[i + 1]);
      LessTotal(a[0], a[1..][i]);
    }
  }

  lemma {:induction false} SamePrintsAlike(v: Json, w: Json)
    requires WellFormed(v) && WellFormed(w) && Same(v, w)
    ensures CanonicalJson(v) == CanonicalJson(w)
    decreases v, 1
  {
    hide Escape, SortKeys, Items, Members, Quote;
    match v {
      case Arr(items) => ItemsPrintAlike(items, w.items);
      case Obj(ms) =>
        SameKeys(ms, w.members);
        MembersPrintAlike(ms, w.members, SortKeys(ms));
      case _ =>
    }
  }

  lemma SameKeys(ms: seq<Member>, ns: seq<Member>)
    requires DistinctKeys(ms) && DistinctKeys(ns) && Same(Obj(ms), Obj(ns))
    ensures SortKeys(ms) == SortKeys(ns)
  {
    hide SortKeys, Increasing, Lookup;
    SortKeysIncreasing(ms);
    SortKeysIncreasing(ns);
    forall k ensures k in SortKeys(ms) <==> k in SortKeys(ns) {
      if HasKey(ms, k) {
        var i :| 0 <= i < |ms| && ms[i].key == k;
      }
      if HasKey(ns, k) {
        var j :| 0 <= j < |ns| && ns[j].key == k;
      }
    }
    IncreasingUnique(SortKeys(ms), SortKeys(ns));
  }

  lemma {:induction false} ItemsPrintAlike(vs: seq<Json>, ws: seq<Json>)
    requires |vs| == |ws| && forall i | 0 <= i < |vs| :: WellFormed(vs[i]) && WellFormed(ws[i]) && Same(vs[i], ws[i])
    ensures Items(vs) == Items(ws)
    decreases vs, 0
  {
    hide CanonicalJson, WellFormed, Same;
    if vs != [] {
      SamePrintsAlike(vs[0], ws[0]);
      ItemsPrintAlike(vs[1..], ws[1..]);
    }
  }

  lemma {:induction false} MembersPrintAlike(ms: seq<Member>, ns: seq<Member>, keys: seq<Text>)
    requires WellFormed(Obj(ms)) && WellFormed(Obj(ns)) && Same(Obj(ms), Obj(ns))
    requires forall k | k in keys :: HasKey(ms, k) && HasKey(ns, k)
    ensures Members(ms, keys) == Members(ns, keys)
    decreases ms, |keys|
  {
    hide CanonicalJson, Quote, Lookup;
    if keys != [] {
      var k := keys[0];
      assert k in keys;
      var i :| 0 <= i < |ms| && ms[i].key == k;
      LookupMember(ms, i);
      LookupWellFormed(ns, k);
      SamePrintsAlike(Lookup(ms, k), Lookup(ns, k));
      MembersPrintAlike(ms, ns, keys[1..]);
    }
  }

  /** The canonical text is the same exactly when the values are equal up to member order. */
  lemma CanonicalIsUnambiguous(v: Json, w: Json)
    requires WellFormed(v) && WellFormed(w)
    ensures CanonicalJson(v) == CanonicalJson(w) <==> Same(v, w)
  {
    hide CanonicalJson, WellFormed, Same;
    if CanonicalJson(v) == CanonicalJson(w) {
      assert CanonicalJson(v) + [] == CanonicalJson(w) + [];
      Unambiguous(v, w, [], []);
    }
    if Same(v, w) {
      SamePrintsAlike(v, w);
    }
  }
}
