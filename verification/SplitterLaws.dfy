/**
 What the migration splitter guarantees: splitting is compatible with concatenation exactly at the end
 of a statement, splitting the statements again changes nothing, and no character but white space is lost.
 */
module SplitterLaws {
  import opened Wrappers
  import opened SqlSplitter

  // ----- The lexer is local: what it does up to a semicolon depends on nothing after it -----

  /** No token crosses a semicolon, so one token reads the same in two texts that agree up to one. */
  lemma StepLocal(a: Alphabet, s: string, t: string, m: Mode, c: nat)
    requires 0 < c < |s| && c < |t| && s[..c + 1] == t[..c + 1] && s[c] == ';' && ValidMode(m)
    ensures Step(a, s, m) == Step(a, t, m) && Step(a, s, m).0 <= c
  {
    assert forall i | 0 <= i <= c :: s[i] == s[..c + 1][i] == t[i];
    match m {
      case DollarBlock(tag) =>
        if |tag| <= c {
          assert s[..|tag|] == s[..c + 1][..|tag|] == t[..|tag|];
        }
      case Top =>
        if s[0] == '$' {
          OpeningTagLocal(a, s, t, c);
        }
      case _ =>
    }
  }

  lemma OpeningTagLocal(a: Alphabet, s: string, t: string, c: nat)
    requires 0 < c < |s| && c < |t| && s[..c + 1] == t[..c + 1] && s[c] == ';' && s[0] == '$'
    ensures t[0] == '$' && OpeningTag(a, s) == OpeningTag(a, t)
    ensures OpeningTag(a, s).Some? ==> |OpeningTag(a, s).value| <= c
  {
    assert forall i | 0 <= i <= c :: s[i] == s[..c + 1][i] == t[i];
    assert s[1..][..c] == s[..c + 1][1..] == t[1..][..c];
    TagNameLocal(a, s[1..], t[1..], c - 1);
  }

  lemma {:induction false} TagNameLocal(a: Alphabet, s: string, t: string, c: nat)
    requires c < |s| && c < |t| && s[..c + 1] == t[..c + 1] && s[c] == ';'
    ensures TagName(a, s) == TagName(a, t) && |TagName(a, s)| <= c
  {
    assert s[0] == s[..c + 1][0] == t[0];
    if c > 0 && IsTagChar(a, s[0]) {
      assert s[1..][..c] == s[..c + 1][1..] == t[1..][..c];
      TagNameLocal(a, s[1..], t[1..], c - 1);
    }
  }

  lemma DropCommon(s: string, t: string, n: nat, c: nat)
    requires n <= c < |s| && c < |t| && s[..c + 1] == t[..c + 1]
    ensures s[n..][..c - n + 1] == t[n..][..c - n + 1]
  {
    assert s[n..][..c - n + 1] == s[..c + 1][n..];
  }

  /** Two texts that agree up to and including a first top-level semicolon both have it there. */
  lemma {:induction false} FirstCutLocal(a: Alphabet, s: string, t: string, m: Mode, c: nat)
    requires ValidMode(m) && FirstCut(a, s, m) == Some(c) && c < |t| && s[..c + 1] == t[..c + 1]
    ensures FirstCut(a, t, m) == Some(c)
    decreases c
  {
    hide Step;
    assert s[0] == s[..c + 1][0] == t[0];
    if !(m == Top && s[0] == ';') {
      hide FirstCut;
      FirstCutStep(a, s, m);
      StepLocal(a, s, t, m, c);
      var (n, next) := Step(a, s, m);
      DropCommon(s, t, n, c);
      FirstCutLocal(a, s[n..], t[n..], next, c - n);
      FirstCutStep(a, t, m);
    }
  }

  /** One step of the lexer's definition. */
  lemma FirstCutStep(a: Alphabet, s: string, m: Mode)
    requires s != "" && ValidMode(m) && !(m == Top && s[0] == ';')
    ensures var (n, next) := Step(a, s, m);
            var rest := FirstCut(a, s[n..], next);
            FirstCut(a, s, m) == if rest.None? then None else Some(n + rest.value)
  {
    hide Step;
  }

  lemma {:induction false} NoSemicolonNoCut(a: Alphabet, s: string, m: Mode)
    requires ValidMode(m) && ';' !in s
    ensures FirstCut(a, s, m).None?
    decreases |s|
  {
    if s != "" {
      var (n, next) := Step(a, s, m);
      NoSemicolonNoCut(a, s[n..], next);
    }
  }

  /** A text may change how one token reads only if that token runs into it. */
  lemma StepExtends(a: Alphabet, w: string, z: string, m: Mode)
    requires w != "" && ValidMode(m)
    ensures Step(a, w + z, m) == Step(a, w, m) || Step(a, w + z, m).0 > |w|
  {
    if m.DollarBlock? {
      if |m.tag| <= |w| {
        assert (w + z)[..|m.tag|] == w[..|m.tag|];
      }
    } else if m == Top && w[0] == '$' {
      OpeningTagExtends(a, w, z);
    }
  }

  lemma OpeningTagExtends(a: Alphabet, w: string, z: string)
    requires w != "" && w[0] == '$'
    ensures var extended := OpeningTag(a, w + z);
            extended == OpeningTag(a, w) || (extended.Some? && |extended.value| > |w|)
  {
    assert (w + z)[1..] == w[1..] + z;
    TagNameExtends(a, w[1..], z);
    TagNameFacts(a, w[1..]);
    TagNameFacts(a, w[1..] + z);
  }

  lemma {:induction false} TagNameExtends(a: Alphabet, w: string, z: string)
    ensures if |TagName(a, w)| < |w| then TagName(a, w + z) == TagName(a, w) else |w| <= |TagName(a, w + z)|
  {
    if w != "" && IsTagChar(a, w[0]) {
      assert (w + z)[1..] == w[1..] + z;
      TagNameExtends(a, w[1..], z);
    }
  }

  /** Text without a semicolon, appended, adds no cut: it cannot wake up an earlier one either. */
  lemma {:induction false} NoCutExtends(a: Alphabet, w: string, z: string, m: Mode)
    requires ValidMode(m) && FirstCut(a, w, m).None? && ';' !in z
    ensures FirstCut(a, w + z, m).None?
    decreases |w|
  {
    if w == "" {
      assert w + z == z;
      NoSemicolonNoCut(a, z, m);
    } else {
      StepExtends(a, w, z, m);
      var (n, next) := Step(a, w + z, m);
      if n > |w| {
        assert (w + z)[n..] == z[n - |w|..];
        NoSemicolonNoCut(a, z[n - |w|..], next);
      } else {
        assert (w + z)[n..] == w[n..] + z;
        NoCutExtends(a, w[n..], z, next);
      }
    }
  }

  lemma SpaceStep(a: Alphabet, s: string)
    requires s != "" && IsSpace(s[0])
    ensures Step(a, s, Top) == (1, Top)
  {
  }

  lemma {:induction false} BlankPrefix(a: Alphabet, z: string, s: string)
    requires Blank(z)
    ensures FirstCut(a, z + s, Top)
            == match FirstCut(a, s, Top) case None => None case Some(c) => Some(|z| + c)
  {
    hide Step;
    if z == "" {
      assert z + s == s;
    } else {
      assert z[0] in z && (z + s)[0] == z[0];
      assert (z + s)[1..] == z[1..] + s;
      SpaceStep(a, z + s);
      BlankPrefix(a, z[1..], s);
    }
  }

  // ----- Stripping -----

  lemma {:induction false} LStripBlank(z: string, s: string)
    requires Blank(z)
    ensures LStrip(z + s) == LStrip(s)
  {
    if z == "" {
      assert z + s == s;
    } else {
      assert z[0] in z && (z + s)[0] == z[0];
      assert (z + s)[1..] == z[1..] + s;
      LStripBlank(z[1..], s);
    }
  }

  lemma {:induction false} RStripBlank(s: string, z: string)
    requires Blank(z)
    ensures RStrip(s + z) == RStrip(s)
    decreases |z|
  {
    if z == "" {
      assert s + z == s;
    } else {
      assert z[|z| - 1] in z && (s + z)[|s + z| - 1] == z[|z| - 1];
      assert (s + z)[..|s + z| - 1] == s + z[..|z| - 1];
      RStripBlank(s, z[..|z| - 1]);
    }
  }

  /** Stripping on the left cuts the text into a blank part and the result. */
  lemma {:induction false} LStripFacts(s: string) returns (z: string)
    ensures Blank(z) && s == z + LStrip(s)
    ensures LStrip(s) != "" ==> !IsSpace(LStrip(s)[0])
  {
    if s != "" && IsSpace(s[0]) {
      var z' := LStripFacts(s[1..]);
      z := [s[0]] + z';
    } else {
      z := "";
    }
  }

  lemma {:induction false} RStripFacts(s: string) returns (z: string)
    ensures Blank(z) && s == RStrip(s) + z
    ensures RStrip(s) != "" ==> !IsSpace(RStrip(s)[|RStrip(s)| - 1])
  {
    if s != "" && IsSpace(s[|s| - 1]) {
      var z' := RStripFacts(s[..|s| - 1]);
      z := z' + [s[|s| - 1]];
    } else {
      z := "";
    }
  }

  /** The two blank ends that stripping removes. */
  lemma StripFacts(s: string) returns (left: string, right: string)
    ensures Blank(left) && Blank(right) && s == left + Strip(s) + right
    ensures Strip(s) != "" ==> !IsSpace(Strip(s)[0]) && !IsSpace(Strip(s)[|Strip(s)| - 1])
  {
    left := LStripFacts(s);
    right := RStripFacts(LStrip(s));
    assert s == left + (Strip(s) + right);
  }

  lemma StripIdempotent(s: string)
    ensures Strip(Strip(s)) == Strip(s)
  {
    var left, right := StripFacts(s);
  }

  lemma StripBlankEnds(left: string, s: string, right: string)
    requires Blank(left) && Blank(right) && Strip(s) != ""
    ensures Strip(left + s + right) == Strip(s)
  {
    var z := LStripFacts(s);
    assert left + s + right == left + (z + (LStrip(s) + right));
    LStripBlank(left, z + (LStrip(s) + right));
    LStripBlank(z, LStrip(s) + right);
    assert RStrip("") == "";
    assert (LStrip(s) + right)[0] == LStrip(s)[0];
    RStripBlank(LStrip(s), right);
  }

  lemma {:induction false} StripOfBlank(z: string)
    requires Blank(z)
    ensures Strip(z) == ""
  {
    assert z + "" == z;
    LStripBlank(z, "");
  }

  lemma StripEmptyIsBlank(s: string)
    ensures Strip(s) == "" <==> Blank(s)
  {
    if Strip(s) == "" {
      var left, right := StripFacts(s);
      assert s == left + right;
    } else if Blank(s) {
      StripOfBlank(s);
    }
  }

  // ----- Concatenation -----

  lemma SplitUnfold(a: Alphabet, s: string)
    ensures match FirstCut(a, s, Top)
            case None => Split(a, s) == Statement(s)
            case Some(c) => Split(a, s) == Statement(s[..c + 1]) + Split(a, s[c + 1..])
  {
    hide Statement, FirstCut;
    if FirstCut(a, s, Top).None? {
      assert Statements([s]) == Statement(s) + Statements([]);
    }
  }

  /** Text appended after a first top-level semicolon leaves the first piece alone. */
  lemma CutStable(a: Alphabet, s: string, z: string, c: nat)
    requires FirstCut(a, s, Top) == Some(c)
    ensures FirstCut(a, s + z, Top) == Some(c)
    ensures (s + z)[..c + 1] == s[..c + 1] && (s + z)[c + 1..] == s[c + 1..] + z
  {
    hide FirstCut;
    FirstCutLocal(a, s, s + z, Top, c);
  }

  /** Splitting commutes with concatenation when only white space follows the last semicolon. */
  lemma {:induction false} SplitConcat(a: Alphabet, s: string, z: string)
    requires Blank(Rest(a, s))
    ensures Split(a, s + z) == Split(a, s) + Split(a, z)
    decreases |s|
  {
    hide Split, Statement, FirstCut;
    SplitUnfold(a, s);
    SplitUnfold(a, s + z);
    match FirstCut(a, s, Top) {
      case None =>
        StatementOfBlank(s);
        SplitBlankPrefix(a, s, z);
      case Some(c) =>
        CutStable(a, s, z, c);
        SplitConcat(a, s[c + 1..], z);
    }
  }

  lemma StatementOfBlank(s: string)
    ensures Statement(s) == [] <==> Blank(s)
  {
    hide Strip;
    StripEmptyIsBlank(s);
  }

  lemma SplitBlankPrefix(a: Alphabet, z: string, s: string)
    requires Blank(z)
    ensures Split(a, z + s) == Split(a, s)
  {
    hide Split, FirstCut;
    SplitUnfold(a, s);
    SplitUnfold(a, z + s);
    BlankPrefix(a, z, s);
    match FirstCut(a, s, Top) {
      case None => StatementBlankPrefix(z, s);
      case Some(c) =>
        assert (z + s)[..|z| + c + 1] == z + s[..c + 1] && (z + s)[|z| + c + 1..] == s[c + 1..];
        StatementBlankPrefix(z, s[..c + 1]);
    }
  }

  lemma StatementBlankPrefix(z: string, s: string)
    requires Blank(z)
    ensures Statement(z + s) == Statement(s)
  {
    LStripBlank(z, s);
  }

  /** When something else follows it, text without a semicolon only lengthens the last statement. */
  lemma {:induction false} SplitGrows(a: Alphabet, s: string, z: string)
    requires !Blank(Rest(a, s)) && ';' !in z
    ensures |Split(a, s + z)| == |Split(a, s)|
    decreases |s|
  {
    hide Split, FirstCut, Strip;
    SplitUnfold(a, s);
    SplitUnfold(a, s + z);
    match FirstCut(a, s, Top) {
      case None =>
        NoCutExtends(a, s, z, Top);
        var i :| 0 <= i < |s| && !IsSpace(s[i]);
        assert (s + z)[i] in s + z && s[i] in s && (s + z)[i] == s[i];
        StatementOfBlank(s);
        StatementOfBlank(s + z);
      case Some(c) =>
        CutStable(a, s, z, c);
        SplitGrows(a, s[c + 1..], z);
    }
  }

  lemma SplitConcatFails(a: Alphabet, s: string)
    requires !Blank(Rest(a, s))
    ensures Split(a, s + "x") != Split(a, s) + Split(a, "x")
  {
    hide Split, FirstCut, Strip;
    SplitGrows(a, s, "x");
    SplitUnfold(a, "x");
    NoSemicolonNoCut(a, "x", Top);
    assert "x"[0] in "x";
    StatementOfBlank("x");
  }

  /** Exactly the texts whose last semicolon is followed by white space only can be split separately. */
  lemma SplitHomomorphism(a: Alphabet, s: string)
    ensures Blank(Rest(a, s)) <==> forall z :: Split(a, s + z) == Split(a, s) + Split(a, z)
  {
    hide Split, Rest;
    if Blank(Rest(a, s)) {
      forall z ensures Split(a, s + z) == Split(a, s) + Split(a, z) {
        SplitConcat(a, s, z);
      }
    } else {
      SplitConcatFails(a, s);
    }
  }

  // ----- Splitting again -----

  /** A stripped text whose only top-level semicolon, if any, is its last character. */
  predicate IsStatement(a: Alphabet, w: string) {
    && w != "" && Strip(w) == w
    && match FirstCut(a, w, Top) case None => true case Some(c) => c == |w| - 1
  }

  predicate Terminated(a: Alphabet, w: string) {
    FirstCut(a, w, Top).Some?
  }

  lemma SplitOfStatement(a: Alphabet, w: string)
    requires IsStatement(a, w)
    ensures Split(a, w) == [w]
  {
    hide Split, FirstCut, Strip;
    SplitUnfold(a, w);
    if FirstCut(a, w, Top).Some? {
      assert w[..|w| - 1 + 1] == w && w[|w|..] == "";
      SplitUnfold(a, "");
      NoSemicolonNoCut(a, "", Top);
      StatementOfBlank("");
    }
  }

  /** Stripping a piece moves its top-level semicolon, or its lack of one, to the statement. */
  lemma StripKeepsCut(a: Alphabet, piece: string)
    requires Strip(piece) != ""
    requires match FirstCut(a, piece, Top) case None => true case Some(c) => c == |piece| - 1
    ensures IsStatement(a, Strip(piece)) && (Terminated(a, Strip(piece)) <==> Terminated(a, piece))
  {
    hide FirstCut, Strip;
    StripIdempotent(piece);
    var left, right := StripFacts(piece);
    var w := Strip(piece);
    assert piece == left + (w + right);
    BlankPrefix(a, left, w + right);
    if FirstCut(a, w + right, Top).None? {
      if FirstCut(a, w, Top).Some? {
        CutStable(a, w, right, FirstCut(a, w, Top).value);
      }
    } else {
      var c := FirstCut(a, w + right, Top).value;
      assert c == |w + right| - 1;
      if right != "" {
        LastOfBlank(w, right);
      }
      assert w + right == w;
    }
  }

  lemma LastOfBlank(w: string, z: string)
    requires Blank(z) && z != ""
    ensures (w + z)[|w + z| - 1] != ';'
  {
    assert z[|z| - 1] in z;
  }

  /** Every statement is one, and all but the last end in their semicolon. */
  lemma {:induction false} SplitGivesStatements(a: Alphabet, s: string)
    ensures forall i | 0 <= i < |Split(a, s)| :: IsStatement(a, Split(a, s)[i])
    ensures forall i | 0 <= i < |Split(a, s)| - 1 :: Terminated(a, Split(a, s)[i])
    decreases |s|
  {
    hide Split, FirstCut, Strip, IsStatement, Terminated;
    SplitUnfold(a, s);
    match FirstCut(a, s, Top) {
      case None =>
        if Strip(s) != "" {
          StripKeepsCut(a, s);
        }
      case Some(c) =>
        FirstPiece(a, s, c);
        SplitGivesStatements(a, s[c + 1..]);
        assert forall i | 1 <= i < |Split(a, s)| :: Split(a, s)[i] == Split(a, s[c + 1..])[i - 1];
    }
  }

  lemma FirstPiece(a: Alphabet, s: string, c: nat)
    requires FirstCut(a, s, Top) == Some(c)
    ensures Statement(s[..c + 1]) == [Strip(s[..c + 1])]
    ensures IsStatement(a, Strip(s[..c + 1])) && Terminated(a, Strip(s[..c + 1]))
  {
    hide FirstCut, Strip, IsStatement;
    var piece := s[..c + 1];
    assert s[..c + 1] == piece[..c + 1];
    FirstCutLocal(a, s, piece, Top, c);
    assert piece[c] == ';' && piece[c] in piece;
    StripEmptyIsBlank(piece);
    StripKeepsCut(a, piece);
  }

  /** Splitting a statement gives it back. */
  lemma Resplit(a: Alphabet, s: string, w: string)
    requires w in Split(a, s)
    ensures Split(a, w) == [w]
  {
    hide Split, IsStatement;
    SplitGivesStatements(a, s);
    SplitOfStatement(a, w);
  }

  /** The statements joined by gaps, one before each and one after the last. */
  function Weave(gaps: seq<string>, statements: seq<string>): string
    requires |gaps| == |statements| + 1
  {
    if statements == [] then gaps[0] else gaps[0] + statements[0] + Weave(gaps[1..], statements[1..])
  }

  lemma {:induction false} SplitWeave(a: Alphabet, gaps: seq<string>, ws: seq<string>)
    requires |gaps| == |ws| + 1 && forall i | 0 <= i < |gaps| :: Blank(gaps[i])
    requires forall i | 0 <= i < |ws| :: IsStatement(a, ws[i])
    requires forall i | 0 <= i < |ws| - 1 :: Terminated(a, ws[i])
    ensures Split(a, Weave(gaps, ws)) == ws
    decreases |ws|
  {
    hide Split, IsStatement, Terminated, Blank;
    if ws == [] {
      SplitOfBlank(a, gaps[0]);
    } else {
      var rest := Weave(gaps[1..], ws[1..]);
      assert Weave(gaps, ws) == gaps[0] + (ws[0] + rest);
      SplitBlankPrefix(a, gaps[0], ws[0] + rest);
      if |ws| == 1 {
        SplitStatementThenBlank(a, ws[0], gaps[1]);
      } else {
        SplitWeave(a, gaps[1..], ws[1..]);
        TerminatedRest(a, ws[0]);
        SplitConcat(a, ws[0], rest);
        SplitOfStatement(a, ws[0]);
      }
    }
  }

  lemma SplitOfBlank(a: Alphabet, z: string)
    requires Blank(z)
    ensures Split(a, z) == []
  {
    hide Split, FirstCut;
    assert z + "" == z;
    SplitBlankPrefix(a, z, "");
    SplitUnfold(a, "");
    NoSemicolonNoCut(a, "", Top);
    StatementOfBlank("");
  }

  lemma TerminatedRest(a: Alphabet, w: string)
    requires IsStatement(a, w) && Terminated(a, w)
    ensures Rest(a, w) == "" && Blank(Rest(a, w))
  {
    hide FirstCut, Strip;
    assert w[|w|..] == "";
    NoSemicolonNoCut(a, "", Top);
  }

  lemma SplitStatementThenBlank(a: Alphabet, w: string, z: string)
    requires IsStatement(a, w) && Blank(z)
    ensures Split(a, w + z) == [w]
  {
    hide Split, FirstCut, Strip;
    SplitOfStatement(a, w);
    SplitOfBlank(a, z);
    if Terminated(a, w) {
      TerminatedRest(a, w);
      SplitConcat(a, w, z);
    } else {
      assert ';' !in z;
      NoCutExtends(a, w, z, Top);
      SplitUnfold(a, w + z);
      StripBlankEnds("", w, z);
      assert "" + w + z == w + z;
    }
  }

  /** Joining the statements with any white space, or none, and splitting again gives them back. */
  lemma RoundTrip(a: Alphabet, s: string, gaps: seq<string>)
    requires |gaps| == |Split(a, s)| + 1 && forall i | 0 <= i < |gaps| :: Blank(gaps[i])
    ensures Split(a, Weave(gaps, Split(a, s))) == Split(a, s)
  {
    hide Split;
    SplitGivesStatements(a, s);
    SplitWeave(a, gaps, Split(a, s));
  }

  // ----- Nothing is lost -----

  function Flatten(ps: seq<string>): string {
    if ps == [] then "" else ps[0] + Flatten(ps[1..])
  }

  function NonSpace(s: string): string {
    if s == "" then "" else (if IsSpace(s[0]) then "" else [s[0]]) + NonSpace(s[1..])
  }

  /** The pieces are the text, in order, and each but the last ends at its own only semicolon. */
  lemma {:induction false} PiecesAreTheText(a: Alphabet, s: string)
    ensures Flatten(Pieces(a, s)) == s && Pieces(a, s) != []
    ensures forall i | 0 <= i < |Pieces(a, s)| - 1 ::
              FirstCut(a, Pieces(a, s)[i], Top) == Some(|Pieces(a, s)[i]| - 1)
    ensures FirstCut(a, Pieces(a, s)[|Pieces(a, s)| - 1], Top).None?
    decreases |s|
  {
    hide FirstCut;
    match FirstCut(a, s, Top) {
      case None =>
        assert Flatten([s]) == s + Flatten([]);
      case Some(c) =>
        var piece, rest := s[..c + 1], Pieces(a, s[c + 1..]);
        assert piece == piece[..c + 1];
        FirstCutLocal(a, s, piece, Top, c);
        PiecesAreTheText(a, s[c + 1..]);
        var ps := [piece] + rest;
        assert ps[1..] == rest && s == piece + s[c + 1..];
        assert forall i | 1 <= i < |ps| :: ps[i] == rest[i - 1];
    }
  }

  lemma {:induction false} NonSpaceConcat(s: string, t: string)
    ensures NonSpace(s + t) == NonSpace(s) + NonSpace(t)
  {
    if s == "" {
      assert s + t == t;
    } else {
      assert (s + t)[1..] == s[1..] + t;
      NonSpaceConcat(s[1..], t);
    }
  }

  lemma {:induction false} NonSpaceOfBlank(z: string)
    requires Blank(z)
    ensures NonSpace(z) == ""
  {
    if z != "" {
      assert z[0] in z;
      NonSpaceOfBlank(z[1..]);
    }
  }

  lemma NonSpaceStrip(s: string)
    ensures NonSpace(Strip(s)) == NonSpace(s)
  {
    hide Strip, NonSpace;
    var left, right := StripFacts(s);
    assert s == left + (Strip(s) + right);
    NonSpaceConcat(left, Strip(s) + right);
    NonSpaceConcat(Strip(s), right);
    NonSpaceOfBlank(left);
    NonSpaceOfBlank(right);
  }

  lemma {:induction false} StatementsNonSpace(ps: seq<string>)
    ensures NonSpace(Flatten(Statements(ps))) == NonSpace(Flatten(ps))
  {
    hide Strip, NonSpace, Statement;
    if ps != [] {
      StatementsNonSpace(ps[1..]);
      NonSpaceConcat(ps[0], Flatten(ps[1..]));
      StatementNonSpace(ps[0], Statements(ps[1..]));
    }
  }

  lemma StatementNonSpace(p: string, rest: seq<string>)
    ensures NonSpace(Flatten(Statement(p) + rest)) == NonSpace(p) + NonSpace(Flatten(rest))
  {
    hide Strip, NonSpace;
    NonSpaceStrip(p);
    if Strip(p) == "" {
      NonSpaceOfBlank("");
      assert Statement(p) + rest == rest;
    } else {
      var ws := Statement(p) + rest;
      assert ws[0] == Strip(p) && ws[1..] == rest;
      NonSpaceConcat(Strip(p), Flatten(rest));
    }
  }

  /** The statements hold every character of the text that is not white space, in order. */
  lemma NothingLost(a: Alphabet, s: string)
    ensures NonSpace(Flatten(Split(a, s))) == NonSpace(s)
  {
    hide NonSpace, Flatten, Statements, Pieces;
    PiecesAreTheText(a, s);
    StatementsNonSpace(Pieces(a, s));
  }
}
