/**
 The migration splitter: scripts/migrate.py, split_sql_statements.

 The program lexes with five mode flags and an unbounded search for a closing dollar sign. The
 specification below is an independent lexer: it has one mode, it only looks at the text still to be
 read, a quote character merely toggles its mode, and a dollar tag is recognised by reading its name.
 */
module SqlSplitter {
  import opened Wrappers

  // ----- Characters -----

  /** The characters str.strip() removes. */
  predicate IsSpace(c: char) {
    || '\t' <= c <= '\r'
    || '\U{1c}' <= c <= ' '
    || c == '\U{85}' || c == '\U{a0}' || c == '\U{1680}'
    || '\U{2000}' <= c <= '\U{200a}'
    || c == '\U{2028}' || c == '\U{2029}' || c == '\U{202f}' || c == '\U{205f}' || c == '\U{3000}'
  }

  /** Unicode's letter and digit tables, as str.isalpha and str.isalnum report them. */
  datatype Tables = Tables(isAlpha: char -> bool, isAlnum: char -> bool)

  /** Any tables will do, as long as a semicolon and a dollar sign are neither letters nor digits. */
  type Alphabet = a: Tables | !a.isAlnum(';') && !a.isAlnum('$')
    witness Tables(c => false, c => false)

  predicate IsTagChar(a: Alphabet, c: char) {
    a.isAlnum(c) || c == '_'
  }

  predicate IsTagStart(a: Alphabet, c: char) {
    a.isAlpha(c) || c == '_'
  }

  predicate Blank(s: string) {
    forall c | c in s :: IsSpace(c)
  }

  function LStrip(s: string): string
  {
    if s != "" && IsSpace(s[0]) then LStrip(s[1..]) else s
  }

  function RStrip(s: string): string
  {
    if s != "" && IsSpace(s[|s| - 1]) then RStrip(s[..|s| - 1]) else s
  }

  function Strip(s: string): string {
    RStrip(LStrip(s))
  }

  // ----- The one-mode lexer -----

  datatype Mode = Top | LineComment | BlockComment | SingleQuote | DoubleQuote | DollarBlock(tag: string)

  /** A dollar tag never holds a semicolon. */
  predicate ValidMode(m: Mode) {
    m.DollarBlock? ==> m.tag != "" && ';' !in m.tag
  }

  /** The longest start of the text that can be a tag name. */
  function TagName(a: Alphabet, s: string): string {
    if s != "" && IsTagChar(a, s[0]) then [s[0]] + TagName(a, s[1..]) else ""
  }

  lemma {:induction false} TagNameFacts(a: Alphabet, s: string)
    ensures var name := TagName(a, s);
            && name <= s && ';' !in name && '$' !in name
            && (forall i | 0 <= i < |name| :: IsTagChar(a, name[i]))
            && (|name| < |s| ==> !IsTagChar(a, s[|name|]))
  {
    if s != "" && IsTagChar(a, s[0]) {
      TagNameFacts(a, s[1..]);
    }
  }

  /** The dollar tag that opens at the start of the text, read name first. */
  function OpeningTag(a: Alphabet, rest: string): (r: Option<string>)
    requires rest != "" && rest[0] == '$'
    ensures r.Some? ==> 2 <= |r.value| <= |rest| && ValidMode(DollarBlock(r.value))
  {
    var name := TagName(a, rest[1..]);
    TagNameFacts(a, rest[1..]);
    if |name| + 1 < |rest| && rest[|name| + 1] == '$' && (name == "" || IsTagStart(a, name[0])) then
      Some("$" + name + "$")
    else
      None
  }

  predicate StartsWith(rest: string, first: char, second: char) {
    2 <= |rest| && rest[0] == first && rest[1] == second
  }

  /** One token: how many characters it takes and the mode after it. */
  function Step(a: Alphabet, rest: string, m: Mode): (r: (nat, Mode))
    requires rest != "" && ValidMode(m)
    ensures 1 <= r.0 <= |rest| && ValidMode(r.1)
  {
    match m
    case LineComment => if rest[0] == '\n' then (1, Top) else (1, m)
    case BlockComment => if StartsWith(rest, '*', '/') then (2, Top) else (1, m)
    case SingleQuote => if rest[0] == '\'' then (1, Top) else (1, m)
    case DoubleQuote => if rest[0] == '"' then (1, Top) else (1, m)
    case DollarBlock(tag) => if tag <= rest then (|tag|, Top) else (1, m)
    case Top =>
      if StartsWith(rest, '-', '-') then (2, LineComment)
      else if StartsWith(rest, '/', '*') then (2, BlockComment)
      else if rest[0] == '\'' then (1, SingleQuote)
      else if rest[0] == '"' then (1, DoubleQuote)
      else if rest[0] == '$' && OpeningTag(a, rest).Some? then
        var tag := OpeningTag(a, rest).value;
        (|tag|, DollarBlock(tag))
      else (1, Top)
  }

  /** Where the first top-level semicolon stands. */
  function FirstCut(a: Alphabet, rest: string, m: Mode): (r: Option<nat>)
    requires ValidMode(m)
    ensures r.Some? ==> r.value < |rest| && rest[r.value] == ';'
    decreases |rest|
  {
    if rest == "" then None
    else if m == Top && rest[0] == ';' then Some(0)
    else
      var (n, next) := Step(a, rest, m);
      match FirstCut(a, rest[n..], next)
      case None => None
      case Some(c) => Some(n + c)
  }

  /** The text cut after each top-level semicolon; what follows the last one is the last piece. */
  function Pieces(a: Alphabet, s: string): seq<string>
    decreases |s|
  {
    match FirstCut(a, s, Top)
    case None => [s]
    case Some(c) => [s[..c + 1]] + Pieces(a, s[c + 1..])
  }

  /** What follows the last top-level semicolon. */
  function Rest(a: Alphabet, s: string): string
    decreases |s|
  {
    match FirstCut(a, s, Top)
    case None => s
    case Some(c) => Rest(a, s[c + 1..])
  }

  /** A piece as a statement: stripped, and dropped when nothing is left. */
  function Statement(piece: string): seq<string> {
    if Strip(piece) == "" then [] else [Strip(piece)]
  }

  function Statements(pieces: seq<string>): seq<string> {
    if pieces == [] then [] else Statement(pieces[0]) + Statements(pieces[1..])
  }

  function Split(a: Alphabet, s: string): seq<string> {
    Statements(Pieces(a, s))
  }

  // ----- The program -----

  /** What str.find returns, given a start position. */
  ghost predicate IsFind(s: string, c: char, from: nat, found: Option<nat>)
    requires from <= |s|
  {
    match found
    case None => c !in s[from..]
    case Some(i) => from <= i < |s| && s[i] == c && c !in s[from..i]
  }

  method Find(s: string, c: char, from: nat) returns (found: Option<nat>)
    requires from <= |s|
    ensures IsFind(s, c, from, found)
  {
    for i := from to |s|
      invariant c !in s[from..i]
    {
      if s[i] == c {
        return Some(i);
      }
    }
    return None;
  }

  /** The program's test of a candidate tag, opening and closing dollar sign included. */
  predicate IsDollarTag(a: Alphabet, tag: string)
    requires 2 <= |tag|
  {
    var name := tag[1..|tag| - 1];
    tag == "$$" || (name != "" && IsTagStart(a, name[0]) && forall c | c in name :: IsTagChar(a, c))
  }

  function ModeOf(dollarTag: Option<string>, single: bool, double: bool, line: bool, block: bool): Mode {
    if line then LineComment
    else if block then BlockComment
    else if dollarTag.Some? then DollarBlock(dollarTag.value)
    else if single then SingleQuote
    else if double then DoubleQuote
    else Top
  }

  predicate AtMostOneFlag(dollarTag: Option<string>, single: bool, double: bool, line: bool, block: bool) {
    && (line ==> !block && dollarTag.None? && !single && !double)
    && (block ==> dollarTag.None? && !single && !double)
    && (dollarTag.Some? ==> !single && !double)
    && !(single && double)
  }

  /** The pieces still to come when `read` of the current one has been read, in mode m. */
  ghost function Pending(a: Alphabet, read: string, rest: string, m: Mode): seq<string>
    requires ValidMode(m)
  {
    match FirstCut(a, rest, m)
    case None => [read + rest]
    case Some(c) => [read + rest[..c + 1]] + Pieces(a, rest[c + 1..])
  }

  /** The statements still to come when the loop is at `index` and its current piece began at `start`. */
  ghost function ToCome(a: Alphabet, sql: string, start: nat, index: nat, m: Mode): seq<string>
    requires start <= index <= |sql| && ValidMode(m)
  {
    Statements(Pending(a, sql[start..index], sql[index..], m))
  }

  method SplitSqlStatements(a: Alphabet, sql: string) returns (statements: seq<string>)
    ensures statements == Split(a, sql)
  {
    hide ToCome, Split, Strip, OpeningTag, IsDollarTag;
    statements := [];
    var start, index := 0, 0;
    var dollarTag: Option<string> := None;
    var inSingleQuote, inDoubleQuote, inLineComment, inBlockComment := false, false, false, false;
    var length := |sql|;
    ToComeAtStart(a, sql);
    while index < length
      invariant start <= index <= length
      invariant AtMostOneFlag(dollarTag, inSingleQuote, inDoubleQuote, inLineComment, inBlockComment)
      invariant ValidMode(ModeOf(dollarTag, inSingleQuote, inDoubleQuote, inLineComment, inBlockComment))
      invariant Split(a, sql) == statements + ToCome(a, sql, start, index,
                    ModeOf(dollarTag, inSingleQuote, inDoubleQuote, inLineComment, inBlockComment))
      decreases length - index
    {
      ToComeStep(a, sql, start, index, ModeOf(dollarTag, inSingleQuote, inDoubleQuote, inLineComment, inBlockComment));
      var ch := sql[index];
      var nextCh := if index + 1 < length then sql[index + 1..index + 2] else "";

      if inLineComment {
        if ch == '\n' {
          inLineComment := false;
        }
        index := index + 1;
        continue;
      }
      if inBlockComment {
        if ch == '*' && nextCh == "/" {
          inBlockComment := false;
          index := index + 2;
          continue;
        }
        index := index + 1;
        continue;
      }
      if dollarTag.Some? {
        if dollarTag.value <= sql[index..] {
          index := index + |dollarTag.value|;
          dollarTag := None;
          continue;
        }
        index := index + 1;
        continue;
      }
      if inSingleQuote {
        if ch == '\'' {
          if nextCh == "'" {
            ToComeStep(a, sql, start, index + 1, Top);
            index := index + 2;
            continue;
          }
          inSingleQuote := false;
        }
        index := index + 1;
        continue;
      }
      if inDoubleQuote {
        if ch == '"' {
          if nextCh == "\"" {
            ToComeStep(a, sql, start, index + 1, Top);
            index := index + 2;
            continue;
          }
          inDoubleQuote := false;
        }
        index := index + 1;
        continue;
      }
      if ch == '-' && nextCh == "-" {
        inLineComment := true;
        index := index + 2;
        continue;
      }
      if ch == '/' && nextCh == "*" {
        inBlockComment := true;
        index := index + 2;
        continue;
      }
      if ch == '\'' {
        inSingleQuote := true;
        index := index + 1;
        continue;
      }
      if ch == '"' {
        inDoubleQuote := true;
        index := index + 1;
        continue;
      }
      if ch == '$' {
        var tagEnd := Find(sql, '$', index + 1);
        SearchFindsTheTag(a, sql, index, tagEnd);
        if tagEnd.Some? {
          var tag := sql[index..tagEnd.value + 1];
          if IsDollarTag(a, tag) {
            dollarTag := Some(tag);
            index := tagEnd.value + 1;
            continue;
          }
        }
      }
      if ch == ';' {
        var statement := Strip(sql[start..index + 1]);
        if statement != "" {
          statements := statements + [statement];
        }
        start := index + 1;
      }
      index := index + 1;
    }
    ToComeAtEnd(a, sql, start, ModeOf(dollarTag, inSingleQuote, inDoubleQuote, inLineComment, inBlockComment));
    var tail := Strip(sql[start..]);
    if tail != "" {
      statements := statements + [tail];
    }
  }

  lemma PendingAtStart(a: Alphabet, s: string)
    ensures Pieces(a, s) == Pending(a, "", s, Top)
  {
    hide FirstCut;
    var cut := FirstCut(a, s, Top);
    if cut.None? {
      assert "" + s == s;
    } else {
      assert "" + s[..cut.value + 1] == s[..cut.value + 1];
      assert Pieces(a, s) == [s[..cut.value + 1]] + Pieces(a, s[cut.value + 1..]);
    }
  }

  lemma SliceStep(read: string, rest: string, n: nat, c: nat)
    requires n + c + 1 <= |rest|
    ensures read + rest[..n + c + 1] == read + rest[..n] + rest[n..][..c + 1]
    ensures rest[n + c + 1..] == rest[n..][c + 1..]
  {
  }

  /** Reading one token leaves the statements to come unchanged. */
  lemma PendingStep(a: Alphabet, read: string, rest: string, m: Mode)
    requires rest != "" && ValidMode(m) && !(m == Top && rest[0] == ';')
    ensures var (n, next) := Step(a, rest, m);
            Pending(a, read, rest, m) == Pending(a, read + rest[..n], rest[n..], next)
  {
    hide Step, Pieces;
    var (n, next) := Step(a, rest, m);
    var cut := FirstCut(a, rest[n..], next);
    if cut.None? {
      assert read + rest == read + rest[..n] + rest[n..];
    } else {
      SliceStep(read, rest, n, cut.value);
    }
  }

  /** Reading a top-level semicolon completes a statement. */
  lemma PendingCut(a: Alphabet, read: string, rest: string)
    requires rest != "" && rest[0] == ';'
    ensures Pending(a, read, rest, Top) == [read + rest[..1]] + Pending(a, "", rest[1..], Top)
  {
    hide Step, Pieces;
    PendingAtStart(a, rest[1..]);
    assert FirstCut(a, rest, Top) == Some(0);
  }

  // The lemmas above on positions in the text, as the loop uses them.

  lemma ToComeAtStart(a: Alphabet, sql: string)
    ensures Split(a, sql) == ToCome(a, sql, 0, 0, Top)
  {
    PendingAtStart(a, sql);
    assert sql[0..0] == "" && sql[0..] == sql;
  }

  lemma ToComeAtEnd(a: Alphabet, sql: string, start: nat, m: Mode)
    requires start <= |sql| && ValidMode(m)
    ensures ToCome(a, sql, start, |sql|, m) == Statement(sql[start..])
  {
    assert sql[start..|sql|] + sql[|sql|..] == sql[start..];
    assert Statements([sql[start..]]) == Statement(sql[start..]) + Statements([]);
  }

  lemma ToComeStep(a: Alphabet, sql: string, start: nat, index: nat, m: Mode)
    requires start <= index < |sql| && ValidMode(m)
    ensures if m == Top && sql[index] == ';' then
              ToCome(a, sql, start, index, m)
              == Statement(sql[start..index + 1]) + ToCome(a, sql, index + 1, index + 1, Top)
            else
              var (n, next) := Step(a, sql[index..], m);
              ToCome(a, sql, start, index, m) == ToCome(a, sql, start, index + n, next)
  {
    hide ToCome, Statement, Step;
    if m == Top && sql[index] == ';' {
      ToComeCut(a, sql, start, index);
    } else {
      ToComeToken(a, sql, start, index, m);
    }
  }

  lemma ToComeToken(a: Alphabet, sql: string, start: nat, index: nat, m: Mode)
    requires start <= index < |sql| && ValidMode(m) && !(m == Top && sql[index] == ';')
    ensures var (n, next) := Step(a, sql[index..], m);
            ToCome(a, sql, start, index, m) == ToCome(a, sql, start, index + n, next)
  {
    hide Statements, Pending, Step;
    var read, rest := sql[start..index], sql[index..];
    PendingStep(a, read, rest, m);
    var (n, next) := Step(a, rest, m);
    assert read + rest[..n] == sql[start..index + n] && rest[n..] == sql[index + n..];
  }

  lemma ToComeCut(a: Alphabet, sql: string, start: nat, index: nat)
    requires start <= index < |sql| && sql[index] == ';'
    ensures ToCome(a, sql, start, index, Top)
            == Statement(sql[start..index + 1]) + ToCome(a, sql, index + 1, index + 1, Top)
  {
    hide Statement, FirstCut, Pending;
    var read, rest := sql[start..index], sql[index..];
    PendingCut(a, read, rest);
    assert read + rest[..1] == sql[start..index + 1] && rest[1..] == sql[index + 1..];
    assert sql[index + 1..index + 1] == "";
  }

  /** The search over the whole remaining text and the reading of a name recognise the same tags. */
  lemma SearchFindsTheTag(a: Alphabet, sql: string, index: nat, found: Option<nat>)
    requires index < |sql| && sql[index] == '$' && IsFind(sql, '$', index + 1, found)
    ensures OpeningTag(a, sql[index..])
            == if found.Some? && IsDollarTag(a, sql[index..found.value + 1])
               then Some(sql[index..found.value + 1]) else None
  {
    if found.None? {
      assert sql[index..] == "$" + sql[index + 1..];
      NoTagWithoutDollar(a, sql[index + 1..]);
    } else {
      var between := sql[index + 1..found.value];
      Around(sql, index, found.value);
      TagBefore(a, between, sql[found.value + 1..]);
    }
  }

  lemma Around(sql: string, i: nat, j: nat)
    requires i < j < |sql| && sql[i] == '$' && sql[j] == '$'
    ensures sql[i..] == "$" + (sql[i + 1..j] + "$" + sql[j + 1..])
    ensures sql[i..j + 1] == "$" + sql[i + 1..j] + "$"
  {
  }

  lemma NoTagWithoutDollar(a: Alphabet, after: string)
    requires '$' !in after
    ensures OpeningTag(a, "$" + after).None?
  {
    assert ("$" + after)[1..] == after;
    TagNameFacts(a, after);
    var name := TagName(a, after);
    if |name| < |after| {
      assert after[|name|] in after && ("$" + after)[|name| + 1] == after[|name|];
    }
  }

  lemma TagBefore(a: Alphabet, between: string, rest: string)
    requires '$' !in between
    ensures OpeningTag(a, "$" + (between + "$" + rest))
            == if IsDollarTag(a, "$" + between + "$") then Some("$" + between + "$") else None
  {
    var after := between + "$" + rest;
    var tag := "$" + between + "$";
    assert ("$" + after)[1..] == after && tag[1..|tag| - 1] == between;
    TagNameBefore(a, between, rest);
    var name := TagName(a, after);
    assert ("$" + after)[|name| + 1] == after[|name|];
    if between == "" {
      assert tag == "$$";
    } else {
      assert |tag| > 2 && after[0] == between[0] && after[|between|] == '$';
      if name == between {
        assert OpeningTag(a, "$" + after).Some? <==> IsTagStart(a, between[0]);
      } else {
        TagNameFacts(a, after);
        assert |name| < |between|;
      }
    }
  }

  /** A name followed by a dollar sign is read whole, and nothing else reaches that sign. */
  lemma {:induction false} TagNameBefore(a: Alphabet, between: string, rest: string)
    requires '$' !in between
    ensures var name := TagName(a, between + "$" + rest);
            |name| <= |between| && (name == between <==> forall c | c in between :: IsTagChar(a, c))
            && (|name| < |between| ==> (between + "$" + rest)[|name|] != '$')
  {
    var s := between + "$" + rest;
    if between != "" && IsTagChar(a, between[0]) {
      assert s[1..] == between[1..] + "$" + rest;
      TagNameBefore(a, between[1..], rest);
      assert between == [between[0]] + between[1..];
    } else if between != "" {
      assert between[0] in between && s[0] == between[0];
    }
  }
}
