/**
 Which keys hold content, what a redacted tree may still hold, and what sizes are sizes of
 (sidecar/autoskill/core/redaction.py).
 */
module RedactionMeaning {
  import opened Redaction
  import opened RedactionLaws

  // ----- Keys -----

  predicate AsciiAlnum(c: char) {
    'a' <= c <= 'z' || 'A' <= c <= 'Z' || '0' <= c <= '9'
  }

  lemma {:induction false} NameConcat(p: string, q: string)
    ensures ContentKeyName(p + q) == ContentKeyName(p) + ContentKeyName(q)
  {
    if p == [] {
      assert p + q == q;
    } else {
      assert (p + q)[0] == p[0] && (p + q)[1..] == p[1..] + q;
      NameConcat(p[1..], q);
    }
  }

  lemma NameOfOne(c: char)
    ensures 'A' <= c <= 'Z' ==> ContentKeyName([c]) == ContentKeyName([c + 32 as char])
    ensures !AsciiAlnum(c) ==> ContentKeyName([c]) == []
    ensures 'a' <= c <= 'z' || '0' <= c <= '9' ==> ContentKeyName([c]) == [c]
  {
    assert [c][1..] == [] && ContentKeyName([]) == [];
    if 'A' <= c <= 'Z' {
      assert [c + 32 as char][1..] == [];
    }
  }

  /** Upper case is as good as lower case. */
  lemma CaseDoesNotMatter(p: string, c: char, q: string)
    requires 'A' <= c <= 'Z'
    ensures IsContentKey(p + [c] + q) <==> IsContentKey(p + [c + 32 as char] + q)
    ensures IsMetadataKey(p + [c] + q) <==> IsMetadataKey(p + [c + 32 as char] + q)
  {
    hide ContentKeyName;
    NameOfOne(c);
    NameConcat(p, [c]);
    NameConcat(p + [c], q);
    NameConcat(p, [c + 32 as char]);
    NameConcat(p + [c + 32 as char], q);
  }

  /** Whatever is neither a letter nor a digit of ASCII does not matter. */
  lemma OthersDoNotMatter(p: string, c: char, q: string)
    requires !AsciiAlnum(c)
    ensures IsContentKey(p + [c] + q) <==> IsContentKey(p + q)
    ensures IsMetadataKey(p + [c] + q) <==> IsMetadataKey(p + q)
  {
    hide ContentKeyName;
    NameOfOne(c);
    NameConcat(p, [c]);
    NameConcat(p + [c], q);
    NameConcat(p, q);
    assert ContentKeyName(p) + [] == ContentKeyName(p);
  }

  predicate Normal(key: string) {
    forall i | 0 <= i < |key| :: 'a' <= key[i] <= 'z' || '0' <= key[i] <= '9'
  }

  lemma {:induction false} NormalIsItsName(key: string)
    requires Normal(key)
    ensures ContentKeyName(key) == key
  {
    if key != [] {
      NormalIsItsName(key[1..]);
      assert key == [key[0]] + key[1..];
    }
  }

  /** Among keys of lower-case letters and digits, the content keys and the metadata keys are these. */
  lemma TheKeys(key: string)
    requires Normal(key)
    ensures IsContentKey(key)
       <==> key in {"body", "completion", "content", "conversation", "input", "message", "messages", "output",
                    "prompt", "rawconversation", "response", "result", "systemprompt", "text"}
    ensures IsMetadataKey(key) <==> key in {"id", "index", "name", "provider", "role", "type"}
  {
    hide ContentKeyName;
    NormalIsItsName(key);
  }

  /** Two keys with the same letters and digits, up to case, are the same kind of key. */
  lemma KeyLike(key: string) returns (normal: string)
    ensures Normal(normal)
    ensures (IsContentKey(key) <==> IsContentKey(normal)) && (IsMetadataKey(key) <==> IsMetadataKey(normal))
  {
    normal := ContentKeyName(key);
    NameIsNormal(key);
    NormalIsItsName(normal);
  }

  lemma {:induction false} NameIsNormal(key: string)
    ensures Normal(ContentKeyName(key))
  {
    if key != [] {
      NameIsNormal(key[1..]);
    }
  }

  // ----- What a redacted tree may hold -----

  predicate IsDecimal(s: string) {
    s != [] && forall i | 0 <= i < |s| :: '0' <= s[i] <= '9'
  }

  predicate IsMarker(s: string) {
    exists k | 0 <= k <= |s| ::
      s[..k] == "[REDACTED_CONTENT bytes=" && |s| > k && s[|s| - 1] == ']' && IsDecimal(s[k..|s| - 1])
  }

  /**
   At any depth: what stands under a content key, and in lists there, is null or a marker, except below keys
   that are not content keys; a secret key of a payload object holds the fixed text; every other text has been
   through the patterns.
   */
  ghost predicate Clean(rules: Rules, w: Json, content: bool) {
    match w
    case Null => true
    case Bool(_) => !content
    case Num(_) => !content
    case Str(s) => if content then IsMarker(s) else exists original :: s == RedactText(rules, original)
    case Arr(items) => forall i | 0 <= i < |items| :: Clean(rules, items[i], content)
    case Obj(ms) => forall i | 0 <= i < |ms| ::
      if !content && rules.secretKey(ms[i].key) then ms[i].value == Str("[REDACTED]")
      else Clean(rules, ms[i].value, !IsMetadataKey(ms[i].key) && IsContentKey(ms[i].key))
  }

  lemma {:induction false} DecimalIsDecimal(n: nat)
    ensures IsDecimal(Decimal(n))
  {
    if n >= 10 {
      DecimalIsDecimal(n / 10);
    }
  }

  lemma MarkerIsMarker(n: nat)
    ensures IsMarker(Marker(n))
  {
    hide Decimal;
    DecimalIsDecimal(n);
    var s := Marker(n);
    assert s[..24] == "[REDACTED_CONTENT bytes=" && s[24..|s| - 1] == Decimal(n) && s[|s| - 1] == ']';
  }

  /** A redacted tree is clean, as a payload and as content, when raw conversation is not captured. */
  lemma {:induction false} RedactedIsClean(rules: Rules, v: Json, content: bool)
    ensures Clean(rules, Redact(rules, v, content), content)
    decreases v
  {
    hide RedactText, IsContentKey, IsMetadataKey, Marker, IsMarker, ContentSize;
    var w := Redact(rules, v, content);
    match v {
      case Obj(ms) =>
        RedactObj(rules, ms, content);
        forall i | 0 <= i < |ms|
          ensures if !content && rules.secretKey(ms[i].key) then w.members[i].value == Str("[REDACTED]")
                  else Clean(rules, w.members[i].value, !IsMetadataKey(ms[i].key) && IsContentKey(ms[i].key))
        {
          RedactedIsClean(rules, ms[i].value, IsContentKey(ms[i].key));
          MetadataApart(ms[i].key);
        }
      case Arr(items) =>
        RedactArr(rules, items, content);
        forall i | 0 <= i < |items|
          ensures Clean(rules, w.items[i], content)
        {
          RedactedIsClean(rules, items[i], content);
        }
      case Null => PayloadLeaf(rules, v, false);
      case _ =>
        PayloadLeaf(rules, v, false);
        if content {
          MarkerIsMarker(ContentSize(v));
        }
    }
  }

  lemma MetadataApart(key: string)
    ensures IsMetadataKey(key) ==> !IsContentKey(key)
  {
    if IsMetadataKey(key) {
      MetadataIsNotContent(key);
    }
  }

  // ----- What the size measures -----

  function Hex(d: nat): char
    requires d < 16
  {
    if d < 10 then '0' + d as char else 'a' + (d - 10) as char
  }

  function HexEscape(u: nat): string
    requires u < 0x1_0000
  {
    "\\u" + [Hex(u / 4096), Hex(u / 256 % 16), Hex(u / 16 % 16), Hex(u % 16)]
  }

  /** One character as json.dumps writes it: ASCII only, and a surrogate pair beyond the first plane. */
  function Written(c: char): string {
    var u := c as int;
    if c == '"' then "\\\""
    else if c == '\\' then "\\\\"
    else if c == '\n' then "\\n"
    else if c == '\r' then "\\r"
    else if c == '\t' then "\\t"
    else if u == 8 then "\\b"
    else if u == 12 then "\\f"
    else if 0x20 <= u < 0x7f then [c]
    else if u < 0x1_0000 then HexEscape(u)
    else HexEscape(0xd800 + (u - 0x1_0000) / 1024) + HexEscape(0xdc00 + u % 1024)
  }

  function WrittenText(s: string): string {
    if s == [] then [] else Written(s[0]) + WrittenText(s[1..])
  }

  /** A leaf as json.dumps writes it. */
  function Dumped(v: Json): string
    requires Leaf(v)
  {
    match v
    case Bool(b) => if b then "true" else "false"
    case Num(text) => text
    case Str(s) => "\"" + WrittenText(s) + "\""
  }

  lemma {:induction false} WidthsMeasure(s: string)
    ensures Widths(s) == |WrittenText(s)|
  {
    hide Width, Written;
    if s != [] {
      WidthMeasures(s[0]);
      WidthsMeasure(s[1..]);
    }
  }

  lemma WidthMeasures(c: char)
    ensures Width(c) == |Written(c)|
  {
  }

  /** The size in a marker is the length of the leaf's JSON text. */
  lemma SizeMeasures(v: Json)
    requires Leaf(v)
    ensures ContentSize(v) == |Dumped(v)|
  {
    hide Widths, WrittenText;
    match v {
      case Str(s) => WidthsMeasure(s);
      case _ =>
    }
  }

  /** What the digits of a marker say. */
  function Value(s: string): nat
    requires IsDecimal(s)
  {
    var last := s[|s| - 1] as int - '0' as int;
    if |s| == 1 then last else 10 * Value(s[..|s| - 1]) + last
  }

  lemma {:induction false} DecimalSays(n: nat)
    ensures IsDecimal(Decimal(n)) && Value(Decimal(n)) == n
  {
    DecimalIsDecimal(n);
    if n >= 10 {
      DecimalSays(n / 10);
      assert Decimal(n)[..|Decimal(n)| - 1] == Decimal(n / 10);
    }
  }

  /** A content leaf becomes the marker that tells its JSON text's length in decimal. */
  lemma LeafBecomesMarker(rules: Rules, v: Json)
    requires Leaf(v)
    ensures Content(rules, v).Str?
    ensures var s := Content(rules, v).s;
            && |s| > 25 && s[..24] == "[REDACTED_CONTENT bytes=" && s[|s| - 1] == ']'
            && IsDecimal(s[24..|s| - 1]) && Value(s[24..|s| - 1]) == |Dumped(v)|
  {
    hide ContentSize, Decimal, Dumped;
    PayloadLeaf(rules, v, false);
    SizeMeasures(v);
    DecimalSays(ContentSize(v));
    var s := Marker(ContentSize(v));
    assert s[24..|s| - 1] == Decimal(ContentSize(v));
  }
}
