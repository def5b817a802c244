/**
 What the splitter recognises, form by form (scripts/migrate.py:32-115): a text is a sequence of lexical
 forms and plain characters, and it is cut after the plain semicolons.
 */
module SplitterForms {
  import opened Wrappers
  import opened SqlSplitter
  import opened SplitterLaws

  /** A closed lexical form, or a character outside of all forms. */
  datatype Token =
    | Plain(c: char) | Line(body: string) | Block(body: string) | Single(body: string) | Double(body: string)
    | Dollar(name: string, body: string)

  /** What may stand at the end of the text: a form that is never closed, or nothing. */
  datatype Tail =
    | Nothing | OpenLine(body: string) | OpenBlock(body: string) | OpenSingle(body: string)
    | OpenDouble(body: string) | OpenDollar(name: string, body: string)

  function Text(t: Token): string {
    match t
    case Plain(c) => [c]
    case Line(x) => "--" + x + "\n"
    case Block(x) => "/*" + x + "*/"
    case Single(x) => "'" + x + "'"
    case Double(x) => "\"" + x + "\""
    case Dollar(name, x) => "$" + name + "$" + x + "$" + name + "$"
  }

  function TailText(t: Tail): string {
    match t
    case Nothing => ""
    case OpenLine(x) => "--" + x
    case OpenBlock(x) => "/*" + x
    case OpenSingle(x) => "'" + x
    case OpenDouble(x) => "\"" + x
    case OpenDollar(name, x) => "$" + name + "$" + x
  }

  function Render(toks: seq<Token>): string {
    if toks == [] then "" else Text(toks[0]) + Render(toks[1..])
  }

  /** Empty, or letters, digits and underscores that do not start with a digit. */
  predicate TagNamed(a: Alphabet, name: string) {
    && (name != "" ==> a.isAlpha(name[0]) || name[0] == '_')
    && forall i | 0 <= i < |name| :: a.isAlnum(name[i]) || name[i] == '_'
  }

  predicate Occurs(w: string, s: string) {
    exists i | 0 <= i <= |s| :: w <= s[i..]
  }

  /** In x followed by w, the first w is the one after x. */
  predicate FirstAfter(w: string, x: string) {
    forall i | 0 <= i < |x| :: !(w <= (x + w)[i..])
  }

  /** A form closes at the first chance. */
  predicate Closed(a: Alphabet, t: Token) {
    match t
    case Plain(_) => true
    case Line(x) => FirstAfter("\n", x)
    case Block(x) => FirstAfter("*/", x)
    case Single(x) => FirstAfter("'", x)
    case Double(x) => FirstAfter("\"", x)
    case Dollar(name, x) => TagNamed(a, name) && FirstAfter("$" + name + "$", x)
  }

  predicate Unclosed(a: Alphabet, t: Tail) {
    match t
    case Nothing => true
    case OpenLine(x) => !Occurs("\n", x)
    case OpenBlock(x) => !Occurs("*/", x)
    case OpenSingle(x) => !Occurs("'", x)
    case OpenDouble(x) => !Occurs("\"", x)
    case OpenDollar(name, x) => TagNamed(a, name) && !Occurs("$" + name + "$", x)
  }

  /** A form opens at the start of the text. */
  ghost predicate Opens(a: Alphabet, s: string) {
    || "--" <= s || "/*" <= s || "'" <= s || "\"" <= s
    || exists name :: TagNamed(a, name) && "$" + name + "$" <= s
  }

  /** Forms are closed, and a plain character opens none. */
  ghost predicate Legal(a: Alphabet, toks: seq<Token>, tail: Tail) {
    if toks == [] then Unclosed(a, tail) else
      && Closed(a, toks[0])
      && (toks[0].Plain? ==> !Opens(a, Render(toks) + TailText(tail)))
      && Legal(a, toks[1..], tail)
  }

  /** The pieces with more text in front of the first. */
  function OntoFirst(t: string, pieces: seq<string>): seq<string>
    requires pieces != []
  {
    [t + pieces[0]] + pieces[1..]
  }

  /** The text cut after each plain semicolon. */
  function CutAtSemicolons(toks: seq<Token>, tail: string): (pieces: seq<string>)
    ensures pieces != []
  {
    if toks == [] then [tail] else
      var rest := CutAtSemicolons(toks[1..], tail);
      if toks[0] == Plain(';') then [";"] + rest else OntoFirst(Text(toks[0]), rest)
  }

  // ----- Inside a form -----

  function Closer(m: Mode): string
    requires !m.Top? && ValidMode(m)
  {
    match m
    case LineComment => "\n"
    case BlockComment => "*/"
    case SingleQuote => "'"
    case DoubleQuote => "\""
    case DollarBlock(tag) => tag
  }

  lemma StepInside(a: Alphabet, s: string, m: Mode)
    requires s != "" && !m.Top? && ValidMode(m)
    ensures Step(a, s, m) == if Closer(m) <= s then (|Closer(m)|, Top) else (1, m)
  {
    hide OpeningTag;
  }

  function Shift(n: nat, cut: Option<nat>): Option<nat> {
    match cut
    case None => None
    case Some(c) => Some(n + c)
  }

  lemma FrontOff(x: string, w: string, z: string)
    ensures x == "" ==> x + w + z == w + z && (x + w + z)[|w|..] == z && w <= x + w + z
    ensures x != "" ==> (x + w + z)[1..] == x[1..] + w + z
  {
  }

  lemma {:induction false} ClosesAfter(a: Alphabet, x: string, z: string, m: Mode)
    requires !m.Top? && ValidMode(m) && FirstAfter(Closer(m), x)
    ensures FirstCut(a, x + Closer(m) + z, m) == Shift(|x| + |Closer(m)|, FirstCut(a, z, Top))
  {
    hide Step, FirstCut, FirstAfter, Closer, ValidMode;
    CloserNotEmpty(m);
    FrontOff(x, Closer(m), z);
    StepInside(a, x + Closer(m) + z, m);
    FirstCutStep(a, x + Closer(m) + z, m);
    if x != "" {
      FirstAfterFacts(Closer(m), x, z);
      ClosesAfter(a, x[1..], z, m);
    }
  }

  lemma CloserNotEmpty(m: Mode)
    requires !m.Top? && ValidMode(m)
    ensures Closer(m) != ""
  {
  }

  lemma SamePrefix(w: string, s: string, t: string)
    requires |w| <= |s| && s <= t
    ensures w <= s <==> w <= t
  {
  }

  lemma FirstAfterFacts(w: string, x: string, z: string)
    requires x != "" && FirstAfter(w, x)
    ensures !(w <= x + w + z) && FirstAfter(w, x[1..])
  {
    assert (x + w)[0..] == x + w;
    SamePrefix(w, x + w, x + w + z);
    forall i | 0 <= i < |x[1..]|
      ensures !(w <= (x[1..] + w)[i..])
    {
      assert (x[1..] + w)[i..] == (x + w)[i + 1..];
    }
  }

  lemma {:induction false} NeverCloses(a: Alphabet, x: string, m: Mode)
    requires !m.Top? && ValidMode(m) && !Occurs(Closer(m), x)
    ensures FirstCut(a, x, m).None?
  {
    hide Step, Closer;
    if x != "" {
      StepInside(a, x, m);
      FirstCutStep(a, x, m);
      assert x[0..] == x;
      forall i | 0 <= i <= |x| - 1
        ensures !(Closer(m) <= x[1..][i..])
      {
        assert x[1..][i..] == x[i + 1..];
      }
      NeverCloses(a, x[1..], m);
    }
  }

  // ----- Opening a form -----

  lemma OpensMode(a: Alphabet, x: string)
    ensures Step(a, "--" + x, Top) == (2, LineComment)
    ensures Step(a, "/*" + x, Top) == (2, BlockComment)
    ensures Step(a, "'" + x, Top) == (1, SingleQuote)
    ensures Step(a, "\"" + x, Top) == (1, DoubleQuote)
  {
    hide OpeningTag;
  }

  lemma {:induction false} NameBefore(a: Alphabet, name: string, x: string)
    requires forall i | 0 <= i < |name| :: IsTagChar(a, name[i])
    ensures TagName(a, name + "$" + x) == name
  {
    if name == "" {
      assert name + "$" + x == "$" + x;
    } else {
      assert (name + "$" + x)[1..] == name[1..] + "$" + x;
      NameBefore(a, name[1..], x);
      assert name == [name[0]] + name[1..];
    }
  }

  lemma OpensDollar(a: Alphabet, name: string, x: string)
    requires TagNamed(a, name)
    ensures ValidMode(DollarBlock("$" + name + "$"))
    ensures Step(a, "$" + name + "$" + x, Top) == (|name| + 2, DollarBlock("$" + name + "$"))
  {
    hide TagName;
    var s := "$" + name + "$" + x;
    assert s[1..] == name + "$" + x;
    NameBefore(a, name, x);
    assert OpeningTag(a, s) == Some("$" + name + "$");
  }

  lemma PlainStep(a: Alphabet, s: string)
    requires s != "" && !Opens(a, s)
    ensures Step(a, s, Top) == (1, Top)
  {
    hide Opens;
    if s[0] == '$' && OpeningTag(a, s).Some? {
      TagOpens(a, s);
    }
    QuoteOrCommentOpens(a, s);
  }

  lemma QuoteOrCommentOpens(a: Alphabet, s: string)
    ensures "--" <= s || "/*" <= s || "'" <= s || "\"" <= s ==> Opens(a, s)
  {
  }

  lemma TagOpens(a: Alphabet, s: string)
    requires s != "" && s[0] == '$' && OpeningTag(a, s).Some?
    ensures Opens(a, s)
  {
    var name := TagName(a, s[1..]);
    TagNameFacts(a, s[1..]);
    hide TagName;
    assert s == "$" + s[1..];
    assert s[1..] == name + s[1..][|name|..];
    assert TagNamed(a, name) && "$" + name + "$" <= s;
  }

  // ----- One token -----

  lemma FormCut(a: Alphabet, opener: string, x: string, z: string, m: Mode)
    requires !m.Top? && ValidMode(m) && FirstAfter(Closer(m), x) && opener != "" && opener[0] != ';'
    requires Step(a, opener + (x + Closer(m) + z), Top) == (|opener|, m)
    ensures FirstCut(a, opener + x + Closer(m) + z, Top)
         == Shift(|opener + x + Closer(m)|, FirstCut(a, z, Top))
  {
    hide Step, FirstAfter, Closer;
    var s := opener + (x + Closer(m) + z);
    assert s == opener + x + Closer(m) + z && s[|opener|..] == x + Closer(m) + z;
    FirstCutStep(a, s, Top);
    ClosesAfter(a, x, z, m);
  }

  lemma OpenCut(a: Alphabet, opener: string, x: string, m: Mode)
    requires !m.Top? && ValidMode(m) && !Occurs(Closer(m), x) && opener != "" && opener[0] != ';'
    requires Step(a, opener + x, Top) == (|opener|, m)
    ensures FirstCut(a, opener + x, Top).None?
  {
    hide Step, Closer;
    assert (opener + x)[|opener|..] == x;
    FirstCutStep(a, opener + x, Top);
    NeverCloses(a, x, m);
  }

  /** A closed form is passed over whole, whatever it holds and whatever follows. */
  lemma FormIsSkipped(a: Alphabet, t: Token, z: string)
    requires Closed(a, t) && !t.Plain?
    ensures FirstCut(a, Text(t) + z, Top) == Shift(|Text(t)|, FirstCut(a, z, Top))
  {
    hide Step, FirstCut, FirstAfter;
    match t {
      case Line(x) =>
        OpensMode(a, x + "\n" + z);
        FormCut(a, "--", x, z, LineComment);
      case Block(x) =>
        OpensMode(a, x + "*/" + z);
        FormCut(a, "/*", x, z, BlockComment);
      case Single(x) =>
        OpensMode(a, x + "'" + z);
        FormCut(a, "'", x, z, SingleQuote);
      case Double(x) =>
        OpensMode(a, x + "\"" + z);
        FormCut(a, "\"", x, z, DoubleQuote);
      case Dollar(name, x) =>
        var tag := "$" + name + "$";
        OpensDollar(a, name, x + tag + z);
        FormCut(a, tag, x, z, DollarBlock(tag));
        assert Text(t) == tag + x + tag;
    }
  }

  /** A form that is never closed holds no cut. */
  lemma OpenFormHasNoCut(a: Alphabet, t: Tail)
    requires Unclosed(a, t)
    ensures FirstCut(a, TailText(t), Top).None?
  {
    hide Step, Occurs;
    match t {
      case Nothing =>
      case OpenLine(x) =>
        OpensMode(a, x);
        OpenCut(a, "--", x, LineComment);
      case OpenBlock(x) =>
        OpensMode(a, x);
        OpenCut(a, "/*", x, BlockComment);
      case OpenSingle(x) =>
        OpensMode(a, x);
        OpenCut(a, "'", x, SingleQuote);
      case OpenDouble(x) =>
        OpensMode(a, x);
        OpenCut(a, "\"", x, DoubleQuote);
      case OpenDollar(name, x) =>
        var tag := "$" + name + "$";
        OpensDollar(a, name, x);
        OpenCut(a, tag, x, DollarBlock(tag));
    }
  }

  /** A plain character is read alone; a plain semicolon cuts. */
  lemma PlainIsRead(a: Alphabet, c: char, z: string)
    requires !Opens(a, [c] + z)
    ensures FirstCut(a, [c] + z, Top) == if c == ';' then Some(0) else Shift(1, FirstCut(a, z, Top))
  {
    hide Step, Opens;
    assert ([c] + z)[1..] == z;
    if c != ';' {
      PlainStep(a, [c] + z);
      FirstCutStep(a, [c] + z, Top);
    }
  }

  /** White space is what Python's str.strip removes. */
  lemma TheWhiteSpace(c: char)
    ensures IsSpace(c)
       <==> c as int in {9, 10, 11, 12, 13, 28, 29, 30, 31, 32, 133, 160, 5760, 8192, 8193, 8194, 8195, 8196, 8197,
                         8198, 8199, 8200, 8201, 8202, 8232, 8233, 8239, 8287, 12288}
  {
  }

  // ----- The whole text -----

  lemma PiecesUnfold(a: Alphabet, s: string)
    ensures FirstCut(a, s, Top).None? ==> Pieces(a, s) == [s]
    ensures FirstCut(a, s, Top).Some? ==>
              var c := FirstCut(a, s, Top).value;
              c < |s| && Pieces(a, s) == [s[..c + 1]] + Pieces(a, s[c + 1..])
  {
    hide Step;
  }

  lemma SliceShift(t: string, z: string, c: nat)
    requires c < |z|
    ensures (t + z)[..|t| + c + 1] == t + z[..c + 1] && (t + z)[|t| + c + 1..] == z[c + 1..]
  {
  }

  lemma OntoFirstOf(t: string, first: string, rest: seq<string>)
    ensures OntoFirst(t, [first] + rest) == [t + first] + rest
  {
    assert ([first] + rest)[1..] == rest;
  }

  lemma OntoFirstOnly(t: string, first: string)
    ensures OntoFirst(t, [first]) == [t + first]
  {
  }

  lemma PiecesShift(a: Alphabet, t: string, z: string)
    requires FirstCut(a, t + z, Top) == Shift(|t|, FirstCut(a, z, Top))
    ensures Pieces(a, z) != [] && Pieces(a, t + z) == OntoFirst(t, Pieces(a, z))
  {
    hide FirstCut, Pieces, OntoFirst;
    PiecesUnfold(a, z);
    PiecesUnfold(a, t + z);
    match FirstCut(a, z, Top) {
      case None => OntoFirstOnly(t, z);
      case Some(c) =>
        SliceShift(t, z, c);
        OntoFirstOf(t, z[..c + 1], Pieces(a, z[c + 1..]));
    }
  }

  /**
   The splitter recognises these forms and nothing else: whatever the forms hold, the pieces of a text end
   exactly at its plain semicolons.
   */
  lemma {:induction false} CutsAreThePlainSemicolons(a: Alphabet, toks: seq<Token>, tail: Tail)
    requires Legal(a, toks, tail)
    ensures Pieces(a, Render(toks) + TailText(tail)) == CutAtSemicolons(toks, TailText(tail))
    ensures Split(a, Render(toks) + TailText(tail)) == Statements(CutAtSemicolons(toks, TailText(tail)))
  {
    hide FirstCut, Opens, Closed, Unclosed, Statements, OntoFirst, Pieces, Text, TailText;
    if toks == [] {
      OpenFormHasNoCut(a, tail);
      PiecesUnfold(a, TailText(tail));
      assert "" + TailText(tail) == TailText(tail);
    } else {
      var z := Render(toks[1..]) + TailText(tail);
      var t := Text(toks[0]);
      assert Render(toks) + TailText(tail) == t + z;
      CutsAreThePlainSemicolons(a, toks[1..], tail);
      if toks[0] == Plain(';') {
        assert t == [';'] by { PlainText(';'); }
        PlainIsRead(a, ';', z);
        PiecesUnfold(a, [';'] + z);
        assert ([';'] + z)[..1] == ";" && ([';'] + z)[1..] == z;
      } else {
        if toks[0].Plain? {
          PlainText(toks[0].c);
          PlainIsRead(a, toks[0].c, z);
        } else {
          FormIsSkipped(a, toks[0], z);
        }
        PiecesShift(a, t, z);
      }
    }
  }

  // ----- Every text is such a sequence -----

  /** The first w in s, if there is one. */
  lemma {:induction false} FindForm(w: string, s: string) returns (x: Option<string>)
    requires w != ""
    ensures x.Some? ==> x.value + w <= s && FirstAfter(w, x.value)
    ensures x.None? ==> !Occurs(w, s)
  {
    if w <= s {
      return Some("");
    }
    if s == "" {
      return None;
    }
    var y := FindForm(w, s[1..]);
    if y.None? {
      forall i | 0 <= i <= |s|
        ensures !(w <= s[i..])
      {
        if i == 0 {
          assert s[0..] == s;
        } else {
          assert s[i..] == s[1..][i - 1..];
        }
      }
      return None;
    }
    x := Some([s[0]] + y.value);
    assert s == [s[0]] + s[1..];
    assert x.value + w == [s[0]] + (y.value + w);
    forall i | 0 <= i < |x.value|
      ensures !(w <= (x.value + w)[i..])
    {
      if i == 0 {
        SamePrefix(w, x.value + w, s);
        assert (x.value + w)[0..] == x.value + w;
      } else {
        assert (x.value + w)[i..] == (y.value + w)[i - 1..];
      }
    }
  }

  /** One more token in front of a legal sequence. */
  lemma LegalCons(a: Alphabet, t: Token, toks: seq<Token>, tail: Tail)
    requires Closed(a, t) && Legal(a, toks, tail)
    requires t.Plain? ==> !Opens(a, Text(t) + (Render(toks) + TailText(tail)))
    ensures Legal(a, [t] + toks, tail)
    ensures Render([t] + toks) + TailText(tail) == Text(t) + (Render(toks) + TailText(tail))
  {
    hide Opens, Closed, Unclosed, Text, TailText;
    assert ([t] + toks)[1..] == toks && ([t] + toks)[0] == t;
    assert Render([t] + toks) + TailText(tail) == Text(t) + (Render(toks) + TailText(tail));
  }

  /** The form that opens at the start of s: closed somewhere, or never. */
  lemma ReadForm(a: Alphabet, s: string, opener: string, closer: string, form: string -> Token, open: string -> Tail)
    returns (t: Option<Token>, rest: string, tail: Tail)
    requires opener <= s && closer != ""
    requires forall x :: !form(x).Plain? && Text(form(x)) == opener + x + closer && TailText(open(x)) == opener + x
    requires forall x :: FirstAfter(closer, x) ==> Closed(a, form(x))
    requires forall x :: !Occurs(closer, x) ==> Unclosed(a, open(x))
    ensures t.Some? ==> !t.value.Plain? && Closed(a, t.value) && s == Text(t.value) + rest && |rest| < |s|
    ensures t.None? ==> Unclosed(a, tail) && s == TailText(tail)
  {
    hide FirstAfter, Occurs, Closed, Unclosed, Text, TailText;
    var inner := s[|opener|..];
    assert s == opener + inner;
    var x := FindForm(closer, inner);
    if x.Some? {
      t := Some(form(x.value));
      rest := inner[|x.value + closer|..];
      assert inner == x.value + closer + rest;
      assert s == opener + x.value + closer + rest;
      tail := Nothing;
    } else {
      t, rest, tail := None, "", open(inner);
    }
  }

  lemma TokenizeForm(a: Alphabet, s: string) returns (t: Option<Token>, rest: string, tail: Tail)
    requires Opens(a, s)
    ensures t.Some? ==> !t.value.Plain? && Closed(a, t.value) && s == Text(t.value) + rest && |rest| < |s|
    ensures t.None? ==> Unclosed(a, tail) && s == TailText(tail)
  {
    hide FirstAfter, Occurs, TagNamed;
    if "--" <= s {
      t, rest, tail := ReadForm(a, s, "--", "\n", x => Line(x), x => OpenLine(x));
    } else if "/*" <= s {
      t, rest, tail := ReadForm(a, s, "/*", "*/", x => Block(x), x => OpenBlock(x));
    } else if "'" <= s {
      t, rest, tail := ReadForm(a, s, "'", "'", x => Single(x), x => OpenSingle(x));
    } else if "\"" <= s {
      t, rest, tail := ReadForm(a, s, "\"", "\"", x => Double(x), x => OpenDouble(x));
    } else {
      var name :| TagNamed(a, name) && "$" + name + "$" <= s;
      var tag := "$" + name + "$";
      forall x
        ensures Text(Dollar(name, x)) == tag + x + tag
      {
        assert "$" + name + "$" + x + "$" + name + "$" == tag + x + tag;
      }
      t, rest, tail := ReadForm(a, s, tag, tag, x => Dollar(name, x), x => OpenDollar(name, x));
    }
  }

  /** Every text is a legal sequence of forms and plain characters, so the cuts of every text are known. */
  lemma {:induction false} EveryTextIsForms(a: Alphabet, s: string) returns (toks: seq<Token>, tail: Tail)
    ensures Legal(a, toks, tail) && s == Render(toks) + TailText(tail)
    ensures Pieces(a, s) == CutAtSemicolons(toks, TailText(tail))
    decreases |s|
  {
    toks, tail := Tokens(a, s);
    CutsAreThePlainSemicolons(a, toks, tail);
  }

  lemma {:induction false} Tokens(a: Alphabet, s: string) returns (toks: seq<Token>, tail: Tail)
    ensures Legal(a, toks, tail) && s == Render(toks) + TailText(tail)
    decreases |s|
  {
    hide Opens, Closed;
    if s == "" {
      return [], Nothing;
    }
    var rest: string;
    var t: Option<Token>;
    if Opens(a, s) {
      t, rest, tail := TokenizeForm(a, s);
      if t.None? {
        toks := [];
        assert s == "" + TailText(tail);
        return;
      }
    } else {
      t, rest := Some(Plain(s[0])), s[1..];
      assert Closed(a, Plain(s[0])) by { PlainClosed(a, s[0]); }
      assert s == [s[0]] + s[1..];
    }
    toks, tail := Tokens(a, rest);
    LegalCons(a, t.value, toks, tail);
    toks := [t.value] + toks;
  }

  lemma PlainText(c: char)
    ensures Text(Plain(c)) == [c]
  {
  }

  lemma PlainClosed(a: Alphabet, c: char)
    ensures Closed(a, Plain(c))
  {
  }
}
