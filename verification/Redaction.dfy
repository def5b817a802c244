/**
 Recursive redaction of JSON trees (sidecar/autoskill/core/redaction.py): the two mutually recursive
 functions as specifications, the loops over dictionaries and lists proved against them, and what
 becomes of a tree that is redacted again and again.
 */
module Redaction {

  /** A JSON value as Python holds it; a number is the text that json.dumps prints for it. */
  datatype Json =
    | Null | Bool(b: bool) | Num(text: string) | Str(s: string) | Arr(items: seq<Json>) | Obj(members: seq<Member>)

  datatype Member = Member(key: string, value: Json)

  /** The regular expressions, as the substitutions and the search they perform. */
  datatype Rules = Rules(patterns: seq<string -> string>, email: string -> string, secretKey: string -> bool)

  const REDACTED := "[REDACTED]"

  const CONTENT_KEY_NAMES := {"body", "completion", "content", "conversation", "input", "message", "messages", "output",
                            "prompt", "rawconversation", "response", "result", "systemprompt", "text"}

  const CONTENT_METADATA_KEYS := {"id", "index", "name", "provider", "role", "type"}

  // ----- Text -----

  function Substituted(patterns: seq<string -> string>, s: string): string {
    if patterns == [] then s else patterns[|patterns| - 1](Substituted(patterns[..|patterns| - 1], s))
  }

  function RedactText(rules: Rules, s: string): string {
    rules.email(Substituted(rules.patterns, s))
  }

  method RedactTextLoop(rules: Rules, value: string) returns (redacted: string)
    ensures redacted == RedactText(rules, value)
  {
    redacted := value;
    for i := 0 to |rules.patterns|
      invariant redacted == Substituted(rules.patterns[..i], value)
    {
      assert rules.patterns[..i + 1][..i] == rules.patterns[..i];
      redacted := rules.patterns[i](redacted);
    }
    assert rules.patterns[..|rules.patterns|] == rules.patterns;
    redacted := rules.email(redacted);
  }

  predicate Letter(c: char) {
    'a' <= c <= 'z' || 'A' <= c <= 'Z'
  }

  /** Letters and digits of ASCII only, in lower case. */
  function ContentKeyName(key: string): string {
    if key == [] then [] else
      var c := key[0];
      (if 'A' <= c <= 'Z' then [c + 32 as char] else if Letter(c) || '0' <= c <= '9' then [c] else [])
      + ContentKeyName(key[1..])
  }

  predicate IsContentKey(key: string) {
    ContentKeyName(key) in CONTENT_KEY_NAMES
  }

  predicate IsMetadataKey(key: string) {
    ContentKeyName(key) in CONTENT_METADATA_KEYS
  }

  // ----- Sizes: json.dumps with ensure_ascii -----

  function Width(c: char): nat {
    if c in "\"\\\n\r\t" || c == 8 as char || c == 12 as char then 2
    else if ' ' <= c <= '~' then 1
    else if c as int < 0x1_0000 then 6
    else 12
  }

  function Widths(s: string): nat {
    if s == [] then 0 else Width(s[0]) + Widths(s[1..])
  }

  predicate Leaf(v: Json) {
    !v.Null? && !v.Obj? && !v.Arr?
  }

  function ContentSize(v: Json): nat
    requires Leaf(v)
  {
    match v
    case Bool(b) => if b then 4 else 5
    case Num(text) => |text|
    case Str(s) => Widths(s) + 2
  }

  function Decimal(n: nat): string {
    if n < 10 then ['0' + n as char] else Decimal(n / 10) + ['0' + (n % 10) as char]
  }

  const MARKER_HEAD := "[REDACTED_CONTENT bytes="

  function Marker(n: nat): string {
    MARKER_HEAD + Decimal(n) + "]"
  }

  // ----- Redaction -----

  function Payload(rules: Rules, v: Json, capture: bool): Json {
    match v
    case Str(s) => Str(RedactText(rules, s))
    case Obj(ms) => Obj(seq(|ms|, i requires 0 <= i < |ms| => Member(ms[i].key,
                      if rules.secretKey(ms[i].key) then Str(REDACTED)
                      else if !capture && IsContentKey(ms[i].key) then Content(rules, ms[i].value)
                      else Payload(rules, ms[i].value, capture))))
    case Arr(items) => Arr(seq(|items|, i requires 0 <= i < |items| => Payload(rules, items[i], capture)))
    case _ => v
  }

  function Content(rules: Rules, v: Json): Json {
    match v
    case Null => Null
    case Obj(ms) => Obj(seq(|ms|, i requires 0 <= i < |ms| => Member(ms[i].key,
                      if IsMetadataKey(ms[i].key) then Payload(rules, ms[i].value, false)
                      else if IsContentKey(ms[i].key) then Content(rules, ms[i].value)
                      else Payload(rules, ms[i].value, false))))
    case Arr(items) => Arr(seq(|items|, i requires 0 <= i < |items| => Content(rules, items[i])))
    case _ => Str(Marker(ContentSize(v)))
  }

  // ----- The loops -----

  predicate DistinctKeys(ms: seq<Member>) {
    forall i, j | 0 <= i < j < |ms| :: ms[i].key != ms[j].key
  }

  predicate WellFormed(v: Json) {
    match v
    case Obj(ms) => DistinctKeys(ms) && forall i | 0 <= i < |ms| :: WellFormed(ms[i].value)
    case Arr(items) => forall i | 0 <= i < |items| :: WellFormed(items[i])
    case _ => true
  }

  /** out[key] = value. */
  method Assign(out: seq<Member>, key: string, value: Json) returns (r: seq<Member>)
    ensures (forall i | 0 <= i < |out| :: out[i].key != key) ==> r == out + [Member(key, value)]
    ensures forall i | 0 <= i < |out| && out[i].key == key && (forall j | 0 <= j < i :: out[j].key != key) ::
              r == out[i := Member(key, value)]
  {
    for i := 0 to |out|
      invariant forall j | 0 <= j < i :: out[j].key != key
    {
      if out[i].key == key {
        return out[i := Member(key, value)];
      }
    }
    return out + [Member(key, value)];
  }

  /** What a dictionary item becomes in a payload. */
  function PayloadItem(rules: Rules, m: Member, capture: bool): Json {
    if rules.secretKey(m.key) then Str(REDACTED)
    else if !capture && IsContentKey(m.key) then Content(rules, m.value)
    else Payload(rules, m.value, capture)
  }

  /** What a dictionary item becomes inside content. */
  function ContentItem(rules: Rules, m: Member): Json {
    if !IsMetadataKey(m.key) && IsContentKey(m.key) then Content(rules, m.value) else Payload(rules, m.value, false)
  }

  /** Dictionaries and lists are worked off from their front. */
  lemma PayloadMembers(rules: Rules, ms: seq<Member>, capture: bool)
    ensures Payload(rules, Obj(ms), capture)
         == Obj(seq(|ms|, i requires 0 <= i < |ms| => Member(ms[i].key, PayloadItem(rules, ms[i], capture))))
  {
    hide IsContentKey;
  }

  lemma PayloadMemberStep(rules: Rules, ms: seq<Member>, i: nat, capture: bool)
    requires i < |ms|
    ensures Payload(rules, Obj(ms[..i + 1]), capture)
         == Obj(Payload(rules, Obj(ms[..i]), capture).members + [Member(ms[i].key, PayloadItem(rules, ms[i], capture))])
    ensures var out := Payload(rules, Obj(ms[..i]), capture).members;
            |out| == i && forall j | 0 <= j < i :: out[j].key == ms[j].key
  {
    hide Payload, PayloadItem;
    PayloadMembers(rules, ms[..i + 1], capture);
    PayloadMembers(rules, ms[..i], capture);
  }

  lemma PayloadElementStep(rules: Rules, items: seq<Json>, i: nat, capture: bool)
    requires i < |items|
    ensures Payload(rules, Arr(items[..i + 1]), capture)
         == Arr(Payload(rules, Arr(items[..i]), capture).items + [Payload(rules, items[i], capture)])
  {
    var more := Payload(rules, Arr(items[..i + 1]), capture).items;
    var fewer := Payload(rules, Arr(items[..i]), capture).items;
    assert forall j | 0 <= j < i :: more[j] == fewer[j];
    assert more[i] == Payload(rules, items[i], capture);
    assert more == fewer + [Payload(rules, items[i], capture)];
  }

  lemma ContentMembers(rules: Rules, ms: seq<Member>)
    ensures Content(rules, Obj(ms))
         == Obj(seq(|ms|, i requires 0 <= i < |ms| => Member(ms[i].key, ContentItem(rules, ms[i]))))
  {
    hide IsContentKey, IsMetadataKey;
  }

  lemma ContentMemberStep(rules: Rules, ms: seq<Member>, i: nat)
    requires i < |ms|
    ensures Content(rules, Obj(ms[..i + 1]))
         == Obj(Content(rules, Obj(ms[..i])).members + [Member(ms[i].key, ContentItem(rules, ms[i]))])
    ensures var out := Content(rules, Obj(ms[..i])).members;
            |out| == i && forall j | 0 <= j < i :: out[j].key == ms[j].key
  {
    hide Content, ContentItem;
    ContentMembers(rules, ms[..i + 1]);
    ContentMembers(rules, ms[..i]);
  }

  lemma ContentElementStep(rules: Rules, items: seq<Json>, i: nat)
    requires i < |items|
    ensures Content(rules, Arr(items[..i + 1]))
         == Arr(Content(rules, Arr(items[..i])).items + [Content(rules, items[i])])
  {
    var more, fewer := Content(rules, Arr(items[..i + 1])).items, Content(rules, Arr(items[..i])).items;
    assert forall j | 0 <= j < i :: more[j] == fewer[j];
    assert more[i] == Content(rules, items[i]);
    assert more == fewer + [Content(rules, items[i])];
  }

  lemma NothingYet(rules: Rules, capture: bool)
    ensures Payload(rules, Obj([]), capture) == Obj([]) && Payload(rules, Arr([]), capture) == Arr([])
    ensures Content(rules, Obj([])) == Obj([]) && Content(rules, Arr([])) == Arr([])
  {
  }

  lemma PayloadLeaf(rules: Rules, v: Json, capture: bool)
    requires !v.Obj? && !v.Arr?
    ensures Payload(rules, v, capture) == if v.Str? then Str(RedactText(rules, v.s)) else v
    ensures Content(rules, v) == if v.Null? then Null else Str(Marker(ContentSize(v)))
  {
  }

  method RedactPayload(rules: Rules, value: Json, capture: bool) returns (r: Json)
    requires WellFormed(value)
    ensures r == Payload(rules, value, capture)
    decreases value, 1
  {
    hide Payload, Content, IsContentKey, RedactText;
    match value {
      case Str(s) =>
        PayloadLeaf(rules, value, capture);
        var text := RedactTextLoop(rules, s);
        r := Str(text);
      case Obj(ms) =>
        var out := RedactMembers(rules, value, ms, capture);
        r := Obj(out);
      case Arr(items) =>
        NothingYet(rules, capture);
        var out: seq<Json> := [];
        for i := 0 to |items|
          invariant Arr(out) == Payload(rules, Arr(items[..i]), capture)
        {
          PayloadElementStep(rules, items, i, capture);
          var item := RedactPayload(rules, items[i], capture);
          out := out + [item];
        }
        assert items[..|items|] == items;
        r := Arr(out);
      case _ =>
        PayloadLeaf(rules, value, capture);
        r := value;
    }
  }

  /** The dictionary loop of redact_payload. */
  method RedactMembers(rules: Rules, ghost value: Json, ms: seq<Member>, capture: bool) returns (out: seq<Member>)
    requires value == Obj(ms) && WellFormed(value)
    ensures Obj(out) == Payload(rules, value, capture)
    decreases value, 0
  {
    hide Payload, Content, IsContentKey;
    NothingYet(rules, capture);
    out := [];
    for i := 0 to |ms|
      invariant Obj(out) == Payload(rules, Obj(ms[..i]), capture)
    {
      PayloadMemberStep(rules, ms, i, capture);
      var item: Json;
      if rules.secretKey(ms[i].key) {
        item := Str(REDACTED);
      } else if !capture && IsContentKey(ms[i].key) {
        item := RedactContent(rules, ms[i].value);
      } else {
        item := RedactPayload(rules, ms[i].value, capture);
      }
      out := Assign(out, ms[i].key, item);
    }
    assert ms[..|ms|] == ms;
  }

  method RedactContent(rules: Rules, value: Json) returns (r: Json)
    requires WellFormed(value)
    ensures r == Content(rules, value)
    decreases value, 1
  {
    hide Payload, Content, IsContentKey;
    match value {
      case Null =>
        PayloadLeaf(rules, value, false);
        r := Null;
      case Obj(ms) =>
        var out := RedactContentMembers(rules, value, ms);
        r := Obj(out);
      case Arr(items) =>
        NothingYet(rules, false);
        var out: seq<Json> := [];
        for i := 0 to |items|
          invariant Arr(out) == Content(rules, Arr(items[..i]))
        {
          ContentElementStep(rules, items, i);
          var item := RedactContent(rules, items[i]);
          out := out + [item];
        }
        assert items[..|items|] == items;
        r := Arr(out);
      case _ =>
        PayloadLeaf(rules, value, false);
        r := Str(Marker(ContentSize(value)));
    }
  }

  /** The dictionary loop of _redact_content; it does not ask whether a key is a secret's. */
  method RedactContentMembers(rules: Rules, ghost value: Json, ms: seq<Member>) returns (out: seq<Member>)
    requires value == Obj(ms) && WellFormed(value)
    ensures Obj(out) == Content(rules, value)
    decreases value, 0
  {
    hide Payload, Content, IsContentKey, IsMetadataKey;
    NothingYet(rules, false);
    out := [];
    for i := 0 to |ms|
      invariant Obj(out) == Content(rules, Obj(ms[..i]))
    {
      ContentMemberStep(rules, ms, i);
      var item: Json;
      if IsMetadataKey(ms[i].key) {
        item := RedactPayload(rules, ms[i].value, false);
      } else if IsContentKey(ms[i].key) {
        item := RedactContent(rules, ms[i].value);
      } else {
        item := RedactPayload(rules, ms[i].value, false);
      }
      out := Assign(out, ms[i].key, item);
    }
    assert ms[..|ms|] == ms;
  }
}
