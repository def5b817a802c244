/** What redaction keeps of a tree, and after how many passes it changes nothing more. */
module RedactionLaws {
  import opened Redaction

  // ----- Sizes of markers -----

  function Pow10(k: nat): nat {
    if k == 0 then 1 else 10 * Pow10(k - 1)
  }

  lemma {:induction false} DecimalLength(n: nat, k: nat)
    requires k >= 1
    ensures |Decimal(n)| <= k <==> n < Pow10(k)
  {
    if k == 1 {
      assert Pow10(1) == 10 by { assert Pow10(0) == 1; }
    } else {
      Pow10Grows(k - 1);
      if n >= 10 {
        DecimalLength(n / 10, k - 1);
      }
    }
  }

  lemma {:induction false} Pow10Grows(k: nat)
    ensures Pow10(k) > k
  {
    if k > 0 {
      Pow10Grows(k - 1);
    }
  }

  predicate Plain(s: string) {
    forall i | 0 <= i < |s| :: Width(s[i]) == 1
  }

  lemma {:induction false} PlainWidths(s: string)
    requires Plain(s)
    ensures Widths(s) == |s|
  {
    hide Width;
    if s != [] {
      assert forall i | 0 <= i < |s| - 1 :: s[1..][i] == s[i + 1];
      PlainWidths(s[1..]);
    }
  }

  lemma {:induction false} DecimalPlain(n: nat)
    ensures Plain(Decimal(n))
  {
    if n >= 10 {
      DecimalPlain(n / 10);
    }
  }

  lemma HeadPlain()
    ensures Plain(MARKER_HEAD) && Plain("]") && |MARKER_HEAD| == 24
  {
  }

  /** The size of the marker that takes the place of a leaf of size n. */
  function NextSize(n: nat): nat {
    27 + |Decimal(n)|
  }

  lemma MarkerSize(n: nat)
    ensures ContentSize(Str(Marker(n))) == NextSize(n)
  {
    hide Width, Decimal;
    HeadPlain();
    DecimalPlain(n);
    PlainWidths(Marker(n));
  }

  lemma {:induction false} PowerBeyond(x: nat)
    requires x >= 30
    ensures x < Pow10(x - 28)
  {
    if x == 30 {
      assert Pow10(2) == 100 by { assert Pow10(1) == 10 by { assert Pow10(0) == 1; } }
    } else {
      PowerBeyond(x - 1);
    }
  }

  /** A marker of a large size is smaller; 29 is the only size a marker can keep. */
  lemma NextSizeFacts(n: nat)
    ensures n >= 30 ==> NextSize(n) < n
    ensures NextSize(n) == n <==> n == 29
    ensures 10 <= n < 100 ==> NextSize(n) == 29
    ensures n < 10 ==> NextSize(n) == 28
    ensures n >= 100 ==> NextSize(n) >= 30
  {
    hide Decimal;
    assert Pow10(2) == 100 && Pow10(1) == 10 by { assert Pow10(0) == 1; }
    DecimalLength(n, 1);
    DecimalLength(n, 2);
    DecimalNotEmpty(n);
    if n >= 30 {
      PowerBeyond(n);
      DecimalLength(n, n - 28);
    }
  }

  lemma DecimalNotEmpty(n: nat)
    ensures |Decimal(n)| >= 1
  {
  }

  function SizeAfter(k: nat, n: nat): nat {
    if k == 0 then n else NextSize(SizeAfter(k - 1, n))
  }

  function Settled(k: nat): nat -> bool
    requires k >= 1
  {
    (n: nat) => SizeAfter(k - 1, n) == SizeAfter(k, n)
  }

  function AtMost(k: nat): nat -> bool {
    n => n <= k
  }

  function Below(k: nat): nat -> bool {
    n => n < k
  }

  function Exactly(k: nat): nat -> bool {
    n => n == k
  }

  /** From pass k on, the markers of leaves below the threshold stay: 100, 10^72, 10^(10^72 - 28), and so on. */
  function Threshold(k: nat): (t: nat)
    requires k >= 2
    ensures t >= 100
    decreases k
  {
    if k == 2 then 100 else
      var t := Threshold(k - 1);
      Pow10Large(t - 28);
      Pow10(t - 28)
  }

  lemma Pow10Large(k: nat)
    requires k >= 2
    ensures Pow10(k) >= 100
  {
    if k == 2 {
      assert Pow10(2) == 100 by { assert Pow10(1) == 10 by { assert Pow10(0) == 1; } }
    } else {
      Pow10Large(k - 1);
    }
  }

  lemma ThresholdStep(k: nat)
    requires k >= 3
    ensures Threshold(k) == Pow10(Threshold(k - 1) - 28)
  {
    hide Pow10;
  }

  /** After k - 1 markers a size has come down to 29 exactly when it was below the threshold. */
  lemma {:induction false} DownByThreshold(k: nat, n: nat)
    requires k >= 3
    ensures SizeAfter(k - 1, n) == 29 <==> n < Threshold(k)
    decreases k
  {
    hide NextSize, Pow10, Threshold;
    var a := NextSize(n);
    SizeAfterFront(k - 2, n);
    ThresholdStep(k);
    assert a == 27 + |Decimal(n)| && |Decimal(n)| >= 1 by { NextSizeIs(n); DecimalNotEmpty(n); }
    assert a < Threshold(k - 1) <==> n < Threshold(k) by {
      hide Decimal;
      DecimalLength(n, Threshold(k - 1) - 28);
    }
    if k == 3 {
      assert Threshold(2) == 100 by { ThresholdTwo(); }
      assert SizeAfter(0, a) == a && SizeAfter(1, a) == NextSize(a);
      NextSizeFacts(a);
      NextSizeIsTwoDigits(a);
    } else {
      DownByThreshold(k - 1, a);
    }
  }

  lemma ThresholdTwo()
    ensures Threshold(2) == 100
  {
  }

  lemma NextSizeIsTwoDigits(n: nat)
    requires n >= 28
    ensures NextSize(n) == 29 <==> n < 100
  {
    hide NextSize;
    NextSizeFacts(n);
  }

  lemma SettledByThreshold(k: nat, n: nat)
    requires k >= 3
    ensures Settled(k)(n) <==> Below(Threshold(k))(n)
  {
    hide NextSize, Threshold;
    DownByThreshold(k, n);
    NextSizeFacts(SizeAfter(k - 1, n));
  }

  lemma NextSizeIs(n: nat)
    ensures NextSize(n) == 27 + |Decimal(n)|
  {
  }

  lemma {:induction false} SizeAfterFront(k: nat, n: nat)
    ensures SizeAfter(k + 1, n) == SizeAfter(k, NextSize(n))
  {
    hide NextSize;
    if k == 0 {
      assert SizeAfter(1, n) == NextSize(SizeAfter(0, n));
    } else {
      SizeAfterFront(k - 1, n);
    }
  }

  /** Every size comes down to 29. */
  lemma {:induction false} SizesComeDown(k: nat, n: nat)
    requires k >= 2 && n <= 27 + k
    ensures SizeAfter(k, n) == 29
    decreases k
  {
    hide NextSize;
    NextSizeFacts(n);
    NextSizeFacts(NextSize(n));
    if k == 2 {
      assert SizeAfter(0, n) == n && SizeAfter(1, n) == NextSize(n);
    } else {
      SizeAfterFront(k - 1, n);
      SizesComeDown(k - 1, NextSize(n));
    }
  }

  // ----- Passes over a tree -----

  /** Redacting what is content already, or what is not. */
  function Redact(rules: Rules, v: Json, inside: bool): Json {
    if inside then Content(rules, v) else Payload(rules, v, false)
  }

  function Passes(rules: Rules, k: nat, v: Json, inside: bool): Json {
    if k == 0 then v else Redact(rules, Passes(rules, k - 1, v, inside), inside)
  }

  ghost predicate Idempotent(rules: Rules) {
    forall s :: RedactText(rules, RedactText(rules, s)) == RedactText(rules, s)
  }

  /** Every leaf that redaction takes for content has a size of which `ok` holds. */
  predicate Leaves(rules: Rules, v: Json, inside: bool, ok: nat -> bool) {
    match v
    case Obj(ms) => forall i | 0 <= i < |ms| ::
                      (!inside && rules.secretKey(ms[i].key)) || Leaves(rules, ms[i].value, IsContentKey(ms[i].key), ok)
    case Arr(items) => forall i | 0 <= i < |items| :: Leaves(rules, items[i], inside, ok)
    case Null => true
    case _ => inside ==> ok(ContentSize(v))
  }

  lemma MetadataIsNotContent(key: string)
    requires IsMetadataKey(key)
    ensures !IsContentKey(key)
  {
    var name := ContentKeyName(key);
    assert |name| == 2 || |name| == 4 || |name| == 5 || |name| == 8;
  }

  /** Items of an object, after the given number of passes. */
  ghost predicate ItemsAfter(rules: Rules, k: nat, ms: seq<Member>, inside: bool, ns: seq<Member>) {
    && |ns| == |ms|
    && forall i | 0 <= i < |ms| ::
         && ns[i].key == ms[i].key
         && ns[i].value == if !inside && rules.secretKey(ms[i].key) then Str(REDACTED)
                           else Passes(rules, k, ms[i].value, IsContentKey(ms[i].key))
  }

  lemma RedactObj(rules: Rules, ms: seq<Member>, inside: bool)
    ensures var w := Redact(rules, Obj(ms), inside);
            && w.Obj? && |w.members| == |ms|
            && forall i | 0 <= i < |ms| ::
                 && w.members[i].key == ms[i].key
                 && w.members[i].value == if !inside && rules.secretKey(ms[i].key) then Str(REDACTED)
                                          else Redact(rules, ms[i].value, IsContentKey(ms[i].key))
  {
    hide IsMetadataKey, IsContentKey;
    forall i | 0 <= i < |ms| && IsMetadataKey(ms[i].key)
      ensures !IsContentKey(ms[i].key)
    {
      MetadataIsNotContent(ms[i].key);
    }
  }

  lemma PassesOne(rules: Rules, v: Json, inside: bool)
    ensures Passes(rules, 1, v, inside) == Redact(rules, v, inside)
  {
    assert Passes(rules, 0, v, inside) == v;
  }

  lemma {:induction false} PassesObj(rules: Rules, k: nat, ms: seq<Member>, inside: bool)
    requires k >= 1
    ensures Passes(rules, k, Obj(ms), inside).Obj?
    ensures ItemsAfter(rules, k, ms, inside, Passes(rules, k, Obj(ms), inside).members)
  {
    hide Redact, IsContentKey;
    if k == 1 {
      PassesOne(rules, Obj(ms), inside);
      RedactObj(rules, ms, inside);
      forall i | 0 <= i < |ms| {
        PassesOne(rules, ms[i].value, IsContentKey(ms[i].key));
      }
    } else {
      PassesObj(rules, k - 1, ms, inside);
      RedactObj(rules, Passes(rules, k - 1, Obj(ms), inside).members, inside);
    }
  }

  lemma RedactArr(rules: Rules, items: seq<Json>, inside: bool)
    ensures var w := Redact(rules, Arr(items), inside);
            && w.Arr? && |w.items| == |items|
            && forall i | 0 <= i < |items| :: w.items[i] == Redact(rules, items[i], inside)
  {
  }

  lemma {:induction false} PassesArr(rules: Rules, k: nat, items: seq<Json>, inside: bool)
    ensures var w := Passes(rules, k, Arr(items), inside);
            && w.Arr? && |w.items| == |items|
            && forall i | 0 <= i < |items| :: w.items[i] == Passes(rules, k, items[i], inside)
  {
    hide Redact;
    if k > 0 {
      PassesArr(rules, k - 1, items, inside);
      RedactArr(rules, Passes(rules, k - 1, Arr(items), inside).items, inside);
    }
  }

  /** A content leaf turns into a marker, and the marker into the marker of its own size. */
  lemma {:induction false} PassesContentLeaf(rules: Rules, k: nat, v: Json)
    requires k >= 1 && Leaf(v)
    ensures Passes(rules, k, v, true) == Str(Marker(SizeAfter(k - 1, ContentSize(v))))
  {
    hide NextSize, Marker, ContentSize;
    if k == 1 {
      PassesOne(rules, v, true);
      PayloadLeaf(rules, v, false);
    } else {
      PassesContentLeaf(rules, k - 1, v);
      var n := SizeAfter(k - 2, ContentSize(v));
      MarkerSize(n);
      PayloadLeaf(rules, Str(Marker(n)), false);
    }
  }

  lemma {:induction false} PassesOtherLeaf(rules: Rules, k: nat, v: Json, inside: bool)
    requires k >= 1 && Idempotent(rules) && !v.Obj? && !v.Arr? && (inside ==> v.Null?)
    ensures Passes(rules, k + 1, v, inside) == Passes(rules, k, v, inside)
  {
    hide RedactText;
    PayloadLeaf(rules, v, false);
    PassesOne(rules, v, inside);
    if k == 1 {
      PayloadLeaf(rules, Passes(rules, 1, v, inside), false);
    } else {
      PassesOtherLeaf(rules, k - 1, v, inside);
    }
  }

  lemma {:induction false} DecimalInjective(a: nat, b: nat)
    requires Decimal(a) == Decimal(b)
    ensures a == b
  {
    if a >= 10 && b >= 10 {
      var x, y := Decimal(a / 10), Decimal(b / 10);
      assert Decimal(a)[..|Decimal(a)| - 1] == x && Decimal(b)[..|Decimal(b)| - 1] == y;
      DecimalInjective(a / 10, b / 10);
      assert Decimal(a)[|x|] == Decimal(b)[|x|];
    } else {
      DecimalNotEmpty(a / 10);
      DecimalNotEmpty(b / 10);
    }
  }

  lemma MarkerInjective(a: nat, b: nat)
    ensures Marker(a) == Marker(b) <==> a == b
  {
    if Marker(a) == Marker(b) {
      assert Decimal(a) == Marker(a)[24..|Marker(a)| - 1] && Decimal(b) == Marker(b)[24..|Marker(b)| - 1];
      DecimalInjective(a, b);
    }
  }

  /** Pass k + 1 changes nothing exactly when it leaves the marker of every content leaf as it is. */
  lemma {:induction false} PassesSettle(rules: Rules, k: nat, v: Json, inside: bool)
    requires k >= 1 && Idempotent(rules)
    ensures Passes(rules, k, v, inside) == Passes(rules, k + 1, v, inside) <==> Leaves(rules, v, inside, Settled(k))
    decreases v
  {
    hide Passes, Idempotent, IsContentKey, SizeAfter, Marker;
    match v {
      case Obj(ms) =>
        PassesObj(rules, k, ms, inside);
        PassesObj(rules, k + 1, ms, inside);
        forall i | 0 <= i < |ms| {
          PassesSettle(rules, k, ms[i].value, IsContentKey(ms[i].key));
        }
        ObjectsAgree(Passes(rules, k, v, inside).members, Passes(rules, k + 1, v, inside).members);
      case Arr(items) =>
        PassesArr(rules, k, items, inside);
        PassesArr(rules, k + 1, items, inside);
        forall i | 0 <= i < |items| {
          PassesSettle(rules, k, items[i], inside);
        }
      case Null => PassesOtherLeaf(rules, k, v, inside);
      case _ =>
        if inside {
          PassesContentLeaf(rules, k, v);
          PassesContentLeaf(rules, k + 1, v);
          MarkerInjective(SizeAfter(k - 1, ContentSize(v)), SizeAfter(k, ContentSize(v)));
        } else {
          PassesOtherLeaf(rules, k, v, inside);
        }
    }
  }

  lemma ObjectsAgree(a: seq<Member>, b: seq<Member>)
    requires |a| == |b| && forall i | 0 <= i < |a| :: a[i].key == b[i].key
    ensures a == b <==> forall i | 0 <= i < |a| :: a[i].value == b[i].value
  {
  }

  lemma {:induction false} LeavesImply(rules: Rules, v: Json, inside: bool, p: nat -> bool, q: nat -> bool)
    requires forall n :: p(n) ==> q(n)
    ensures Leaves(rules, v, inside, p) ==> Leaves(rules, v, inside, q)
    decreases v
  {
    hide IsContentKey, ContentSize;
    match v {
      case Obj(ms) =>
        forall i | 0 <= i < |ms| {
          LeavesImply(rules, ms[i].value, IsContentKey(ms[i].key), p, q);
        }
      case Arr(items) =>
        forall i | 0 <= i < |items| {
          LeavesImply(rules, items[i], inside, p, q);
        }
      case _ =>
    }
  }

  // ----- The main results -----

  /** Three passes are as good as four exactly when every content leaf prints to fewer than 10^72 characters. */
  lemma ThreePasses(rules: Rules, v: Json)
    requires Idempotent(rules)
    ensures Passes(rules, 3, v, false) == Passes(rules, 4, v, false) <==> Leaves(rules, v, false, Below(Pow10(72)))
  {
    hide Passes, Idempotent, Leaves, SizeAfter, Pow10, Threshold;
    PassesThreshold(rules, 3, v);
    ThresholdTwo();
    ThresholdStep(3);
  }

  /** For every k from three on, k passes are as good as k + 1 exactly when every leaf is below the threshold. */
  lemma PassesThreshold(rules: Rules, k: nat, v: Json)
    requires Idempotent(rules) && k >= 3
    ensures Passes(rules, k, v, false) == Passes(rules, k + 1, v, false)
       <==> Leaves(rules, v, false, Below(Threshold(k)))
  {
    hide Passes, Idempotent, Leaves, SizeAfter, Threshold;
    PassesSettle(rules, k, v, false);
    forall n: nat
      ensures Settled(k)(n) <==> Below(Threshold(k))(n)
    {
      SettledByThreshold(k, n);
    }
    LeavesImply(rules, v, false, Settled(k), Below(Threshold(k)));
    LeavesImply(rules, v, false, Below(Threshold(k)), Settled(k));
  }

  /** One pass is enough exactly when every content leaf happens to print to 29 characters. */
  lemma OnePass(rules: Rules, v: Json)
    requires Idempotent(rules)
    ensures Passes(rules, 1, v, false) == Passes(rules, 2, v, false) <==> Leaves(rules, v, false, Exactly(29))
  {
    hide Passes, Idempotent, Leaves, NextSize;
    PassesSettle(rules, 1, v, false);
    forall n: nat
      ensures Settled(1)(n) <==> Exactly(29)(n)
    {
      NextSizeFacts(n);
      assert SizeAfter(0, n) == n && SizeAfter(1, n) == NextSize(n);
    }
    LeavesImply(rules, v, false, Settled(1), Exactly(29));
    LeavesImply(rules, v, false, Exactly(29), Settled(1));
  }

  /** A witness: the text "hi" under the key "text". */
  lemma OnePassIsNotIdempotent(rules: Rules)
    requires !rules.secretKey("text")
    ensures var v := Obj([Member("text", Str("hi"))]);
            Payload(rules, Payload(rules, v, false), false) != Payload(rules, v, false)
  {
    hide Payload, Content, Redact, Passes, IsContentKey, ContentSize, NextSize, Marker;
    var ms := [Member("text", Str("hi"))];
    PassesTwo(rules, Obj(ms));
    TextIsContent();
    HiSize();
    PassesObj(rules, 1, ms, false);
    PassesObj(rules, 2, ms, false);
    PassesContentLeaf(rules, 1, Str("hi"));
    PassesContentLeaf(rules, 2, Str("hi"));
    NextSizeFacts(4);
    assert SizeAfter(0, 4) == 4 && SizeAfter(1, 4) == NextSize(4);
    MarkerInjective(4, NextSize(4));
    assert ms[0] == Member("text", Str("hi"));
  }

  lemma PassesTwo(rules: Rules, v: Json)
    ensures Passes(rules, 1, v, false) == Payload(rules, v, false)
    ensures Passes(rules, 2, v, false) == Payload(rules, Payload(rules, v, false), false)
  {
    hide Payload, Content;
    PassesOne(rules, v, false);
    assert Passes(rules, 2, v, false) == Redact(rules, Passes(rules, 1, v, false), false);
  }

  lemma HiSize()
    ensures ContentSize(Str("hi")) == 4
  {
    PlainWidths("hi");
  }

  lemma TextIsContent()
    ensures IsContentKey("text")
  {
    assert ContentKeyName("t") == "t" by { assert ContentKeyName("") == ""; assert "t"[1..] == ""; }
    assert ContentKeyName("xt") == "xt" by { assert "xt"[1..] == "t"; }
    assert ContentKeyName("ext") == "ext" by { assert "ext"[1..] == "xt"; }
    assert ContentKeyName("text") == "text" by { assert "text"[1..] == "ext"; }
  }

  /** Once a pass changes nothing, no later pass does. */
  lemma {:induction false} SettledForGood(rules: Rules, k: nat, j: nat, v: Json)
    requires k <= j && Passes(rules, k, v, false) == Passes(rules, k + 1, v, false)
    ensures Passes(rules, j, v, false) == Passes(rules, k, v, false)
  {
    hide Redact;
    if j > k {
      SettledForGood(rules, k, j - 1, v);
    }
  }

  /** Leaves of at most 27 + k characters are settled after k + 1 passes. */
  lemma SettlesBySize(rules: Rules, k: nat, v: Json)
    requires Idempotent(rules) && k >= 2 && Leaves(rules, v, false, AtMost(27 + k))
    ensures Passes(rules, k + 1, v, false) == Passes(rules, k + 2, v, false)
  {
    hide Passes, Idempotent, Leaves, SizeAfter;
    PassesSettle(rules, k + 1, v, false);
    var small, settled := AtMost(27 + k), Settled(k + 1);
    forall n: nat
      ensures small(n) ==> settled(n)
    {
      if n <= 27 + k {
        SizesComeDown(k, n);
        SizesComeDown(k + 1, n);
      }
    }
    LeavesImply(rules, v, false, small, settled);
  }

  ghost predicate Bounds(rules: Rules, v: Json, inside: bool, m: nat) {
    Leaves(rules, v, inside, AtMost(m))
  }

  lemma BoundsGrow(rules: Rules, v: Json, inside: bool, m: nat, k: nat)
    requires Bounds(rules, v, inside, m) && m <= k
    ensures Bounds(rules, v, inside, k)
  {
    hide Leaves;
    LeavesImply(rules, v, inside, AtMost(m), AtMost(k));
  }

  /** Every tree has a largest leaf. */
  lemma {:induction false} Bounded(rules: Rules, v: Json, inside: bool) returns (m: nat)
    ensures Bounds(rules, v, inside, m)
    decreases v
  {
    hide IsContentKey, ContentSize;
    m := 0;
    match v {
      case Obj(ms) =>
        for i := 0 to |ms|
          invariant forall j | 0 <= j < i :: Bounds(rules, ms[j].value, IsContentKey(ms[j].key), m)
        {
          var n := Bounded(rules, ms[i].value, IsContentKey(ms[i].key));
          var bigger := if m < n then n else m;
          forall j | 0 <= j < i {
            BoundsGrow(rules, ms[j].value, IsContentKey(ms[j].key), m, bigger);
          }
          BoundsGrow(rules, ms[i].value, IsContentKey(ms[i].key), n, bigger);
          m := bigger;
        }
      case Arr(items) =>
        for i := 0 to |items|
          invariant forall j | 0 <= j < i :: Bounds(rules, items[j], inside, m)
        {
          var n := Bounded(rules, items[i], inside);
          var bigger := if m < n then n else m;
          forall j | 0 <= j < i {
            BoundsGrow(rules, items[j], inside, m, bigger);
          }
          BoundsGrow(rules, items[i], inside, n, bigger);
          m := bigger;
        }
      case Null =>
      case _ => m := ContentSize(v);
    }
  }

  /** Whatever the tree, repeated redaction reaches a point after which it changes nothing. */
  lemma EveryTreeSettles(rules: Rules, v: Json)
    requires Idempotent(rules)
    ensures exists k: nat :: forall j: nat :: j >= k ==> Passes(rules, j, v, false) == Passes(rules, k, v, false)
  {
    hide Passes, Idempotent, Leaves;
    var m := Bounded(rules, v, false);
    var k := m + 2;
    BoundsGrow(rules, v, false, m, 27 + k);
    SettlesBySize(rules, k, v);
    forall j: nat | j >= k + 1
      ensures Passes(rules, j, v, false) == Passes(rules, k + 1, v, false)
    {
      SettledForGood(rules, k + 1, j, v);
    }
  }

  // ----- What redaction keeps -----

  /** With raw conversation captured, nothing is measured, and one pass is enough. */
  lemma {:induction false} CapturedOnce(rules: Rules, v: Json)
    requires Idempotent(rules)
    ensures Payload(rules, Payload(rules, v, true), true) == Payload(rules, v, true)
    decreases v
  {
    hide RedactText, IsContentKey, Content;
    match v {
      case Obj(ms) =>
        var once := Payload(rules, v, true);
        var twice := Payload(rules, once, true);
        forall i | 0 <= i < |ms|
          ensures twice.members[i] == once.members[i]
        {
          CapturedOnce(rules, ms[i].value);
        }
        assert twice.members == once.members;
      case Arr(items) =>
        var once := Payload(rules, v, true);
        var twice := Payload(rules, once, true);
        forall i | 0 <= i < |items|
          ensures twice.items[i] == once.items[i]
        {
          CapturedOnce(rules, items[i]);
        }
        assert twice.items == once.items;
      case _ =>
    }
  }

  /**
   Same keys in the same order and lists of the same length, except below secret keys of payload objects;
   a content leaf has become a text.
   */
  predicate SameShape(rules: Rules, v: Json, w: Json, inside: bool) {
    match v
    case Obj(ms) =>
      && w.Obj? && |w.members| == |ms|
      && forall i | 0 <= i < |ms| ::
           && w.members[i].key == ms[i].key
           && if !inside && rules.secretKey(ms[i].key) then w.members[i].value == Str(REDACTED)
              else SameShape(rules, ms[i].value, w.members[i].value, IsContentKey(ms[i].key))
    case Arr(items) =>
      w.Arr? && |w.items| == |items| && forall i | 0 <= i < |items| :: SameShape(rules, items[i], w.items[i], inside)
    case Null => w.Null?
    case Str(_) => w.Str?
    case _ => if inside then w.Str? else w == v
  }

  /** However often a tree is redacted. */
  lemma {:induction false} PassesKeepShape(rules: Rules, k: nat, v: Json, inside: bool)
    requires k >= 1
    ensures SameShape(rules, v, Passes(rules, k, v, inside), inside)
    decreases v
  {
    hide Passes, IsContentKey;
    match v {
      case Obj(ms) =>
        PassesObj(rules, k, ms, inside);
        forall i | 0 <= i < |ms| {
          PassesKeepShape(rules, k, ms[i].value, IsContentKey(ms[i].key));
        }
      case Arr(items) =>
        PassesArr(rules, k, items, inside);
        forall i | 0 <= i < |items| {
          PassesKeepShape(rules, k, items[i], inside);
        }
      case Null => PassesLeafKind(rules, k, v, inside);
      case _ =>
        if inside {
          PassesContentLeaf(rules, k, v);
        } else {
          PassesLeafKind(rules, k, v, inside);
        }
    }
  }

  lemma {:induction false} PassesLeafKind(rules: Rules, k: nat, v: Json, inside: bool)
    requires k >= 1 && !v.Obj? && !v.Arr? && (inside ==> v.Null?)
    ensures var w := Passes(rules, k, v, inside); if v.Str? then w.Str? else w == v
  {
    hide RedactText;
    if k == 1 {
      PassesOne(rules, v, inside);
      PayloadLeaf(rules, v, false);
    } else {
      PassesLeafKind(rules, k - 1, v, inside);
      PayloadLeaf(rules, Passes(rules, k - 1, v, inside), false);
    }
  }
}
