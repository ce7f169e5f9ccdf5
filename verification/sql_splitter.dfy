/**
 The statement splitter of the database reset script: a cursor and an accumulator, moved
 by helpers that jump over a whole comment, string or dollar-quoted block at once. It is
 proved to return the statements of the reference lexer, which reads piece by piece.
 */
module SqlSplitter {
  import opened Wrappers
  import opened Scanner
  import opened SqlLexer

  predicate StartsAt(s: string, pat: string, i: nat) {
    i <= |s| && pat <= s[i..]
  }

  /** `indexOf`: the first occurrence of `pat` at or after `from`. */
  function IndexOf(s: string, pat: string, from: nat): (k: Option<nat>)
    ensures k.Some? ==> from <= k.value && StartsAt(s, pat, k.value)
                        && forall j | from <= j < k.value :: !StartsAt(s, pat, j)
    ensures k.None? ==> forall j: nat | from <= j :: !StartsAt(s, pat, j)
    decreases |s| - from
  {
    if StartsAt(s, pat, from) then Some(from)
    else if from >= |s| then None
    else IndexOf(s, pat, from + 1)
  }

  // ------------------------------------------------------- moving the cursor

  /** The segments still to come at position p, in mode m, the first of them begun as `cur`. */
  ghost function Ahead(cur: string, s: string, p: nat, m: Mode): seq<string>
    requires p <= |s|
  {
    StepProgress();
    Segs(cur, Pieces(Step, s[p..], m))
  }

  lemma Glue(cur: string, s: string, p: nat, q: nat, r: nat)
    requires p <= q <= r <= |s|
    ensures cur + s[p..q] + s[q..r] == cur + s[p..r]
  {
  }

  /** One step that is not a cut moves its text into the current segment. */
  lemma StepAhead(cur: string, s: string, p: nat, m: Mode, n: nat, m': Mode)
    requires p < |s| && !(m == Code && s[p] == ';') && Step(s[p..], m) == (n, m')
    ensures 0 < n && p + n <= |s| && Ahead(cur, s, p, m) == Ahead(cur + s[p..p + n], s, p + n, m')
  {
    var r := s[p..];
    assert r[..n] == s[p..p + n] && r[n..] == s[p + n..];
    assert s[p..p + n][0] == s[p];
    assert Pieces(Step, r, m) == [Piece(s[p..p + n], m)] + Pieces(Step, s[p + n..], m');
  }

  /** From p to q every character is passed by itself, in mode m. */
  ghost predicate Passed(s: string, p: nat, q: nat, m: Mode) {
    p <= q <= |s| && forall i | p <= i < q :: Step(s[i..], m) == (1, m)
  }

  /** Steps of one character that stay in the mode. */
  lemma {:induction false} SkipAhead(cur: string, s: string, p: nat, m: Mode, q: nat)
    requires m != Code && Passed(s, p, q, m)
    ensures Ahead(cur, s, p, m) == Ahead(cur + s[p..q], s, q, m)
    decreases q - p
  {
    if p == q {
      assert cur + s[p..q] == cur;
    } else {
      StepAhead(cur, s, p, m, 1, m);
      SkipAhead(cur + s[p..p + 1], s, p + 1, m, q);
      Glue(cur, s, p, p + 1, q);
    }
  }

  /** In mode m the text at i either is `close`, which leads back to code, or is passed by one character. */
  ghost predicate ClosedBy(s: string, i: nat, m: Mode, close: string)
    requires i <= |s|
  {
    Step(s[i..], m) == if StartsAt(s, close, i) then (|close|, Code) else (1, m)
  }

  /** The end of a token of mode m whose inside begins at p. */
  function TokenEnd(s: string, close: string, p: nat): (end: nat)
    requires p <= |s|
    ensures p <= end <= |s|
  {
    var k := IndexOf(s, close, p);
    if k.None? then |s| else k.value + |close|
  }

  /** Where the close is found, or the end of the text: up to there every character is passed by itself. */
  function CloseAt(s: string, close: string, p: nat): (q: nat)
    requires p <= |s|
    ensures p <= q <= |s|
  {
    var k := IndexOf(s, close, p);
    if k.None? then |s| else k.value
  }

  lemma PassedInside(s: string, p: nat, m: Mode, close: string)
    requires p <= |s| && forall i | p <= i < |s| :: ClosedBy(s, i, m, close)
    ensures Passed(s, p, CloseAt(s, close, p), m)
  {
    var k := IndexOf(s, close, p);
    forall i | p <= i < CloseAt(s, close, p) ensures Step(s[i..], m) == (1, m) {
      assert ClosedBy(s, i, m, close) && !StartsAt(s, close, i);
    }
  }

  /** At the end of the text the mode no longer matters. */
  lemma EndAhead(cur: string, s: string, m: Mode)
    ensures Ahead(cur, s, |s|, m) == Ahead(cur, s, |s|, Code)
  {
    assert s[|s|..] == "";
  }

  lemma CloseFound(cur: string, s: string, q: nat, m: Mode, close: string)
    requires q < |s| && StartsAt(s, close, q) && close != "" && m != Code && ClosedBy(s, q, m, close)
    ensures q + |close| <= |s| && Ahead(cur, s, q, m) == Ahead(cur + s[q..q + |close|], s, q + |close|, Code)
  {
    StepAhead(cur, s, q, m, |close|, Code);
  }

  /** From inside a token of mode m to its end. */
  lemma CloseAhead(cur: string, s: string, p: nat, m: Mode, close: string)
    requires p <= |s| && m != Code && close != ""
    requires forall i | p <= i < |s| :: ClosedBy(s, i, m, close)
    ensures Ahead(cur, s, p, m) == Ahead(cur + s[p..TokenEnd(s, close, p)], s, TokenEnd(s, close, p), Code)
  {
    var q := CloseAt(s, close, p);
    PassedInside(s, p, m, close);
    SkipAhead(cur, s, p, m, q);
    ClosingAhead(cur + s[p..q], s, p, q, m, close);
    Glue(cur, s, p, q, TokenEnd(s, close, p));
  }

  /** From the close, or the end of the text. */
  lemma ClosingAhead(cur: string, s: string, p: nat, q: nat, m: Mode, close: string)
    requires p <= |s| && m != Code && close != "" && q == CloseAt(s, close, p)
    requires forall i | p <= i < |s| :: ClosedBy(s, i, m, close)
    ensures q <= TokenEnd(s, close, p)
    ensures Ahead(cur, s, q, m) == Ahead(cur + s[q..TokenEnd(s, close, p)], s, TokenEnd(s, close, p), Code)
  {
    if q == |s| {
      EndAhead(cur, s, m);
      assert cur + s[q..q] == cur;
    } else {
      CloseFound(cur, s, q, m, close);
    }
  }

  /** A whole token: n opening characters already stepped over, the inside, and the close. */
  lemma TokenAhead(cur: string, s: string, p: nat, n: nat, m: Mode, close: string)
    requires p + n <= |s| && close != "" && m != Code
    requires Ahead(cur, s, p, Code) == Ahead(cur + s[p..p + n], s, p + n, m)
    requires forall i | p + n <= i < |s| :: ClosedBy(s, i, m, close)
    ensures Ahead(cur, s, p, Code) == Ahead(cur + s[p..TokenEnd(s, close, p + n)], s, TokenEnd(s, close, p + n), Code)
  {
    CloseAhead(cur + s[p..p + n], s, p + n, m, close);
    Glue(cur, s, p, p + n, TokenEnd(s, close, p + n));
  }

  lemma LineClosed(s: string, i: nat)
    requires i < |s|
    ensures ClosedBy(s, i, Line, "\n")
  {
    var r := s[i..];
    if r[0] == '\n' { assert r[..1] == "\n"; }
  }

  lemma BlockClosed(s: string, i: nat)
    requires i < |s|
    ensures ClosedBy(s, i, Block, "*/")
  {
    var r := s[i..];
    if Pair(r, '*', '/') { assert r[..2] == "*/"; }
  }

  /** A line comment ends where the first newline after its two dashes is. */
  lemma LineEndsAfter(s: string, p: nat)
    requires p <= |s| && Pair(s[p..], '-', '-')
    ensures p + 2 <= |s| && TokenEnd(s, "\n", p) == TokenEnd(s, "\n", p + 2)
  {
    assert s[p..][0] == '-' && s[p..][1] == s[p + 1] == s[p + 1..][0];
    assert !StartsAt(s, "\n", p) && !StartsAt(s, "\n", p + 1);
    assert IndexOf(s, "\n", p) == IndexOf(s, "\n", p + 1) == IndexOf(s, "\n", p + 2);
  }

  lemma LineOpens(cur: string, s: string, p: nat)
    requires p <= |s| && Pair(s[p..], '-', '-')
    ensures p + 2 <= |s| && Ahead(cur, s, p, Code) == Ahead(cur + s[p..p + 2], s, p + 2, Line)
  {
    assert s[p..][0] == s[p];
    StepAhead(cur, s, p, Code, 2, Line);
  }

  lemma BlockOpens(cur: string, s: string, p: nat)
    requires p <= |s| && Pair(s[p..], '/', '*')
    ensures p + 2 <= |s| && Ahead(cur, s, p, Code) == Ahead(cur + s[p..p + 2], s, p + 2, Block)
  {
    assert s[p..][0] == s[p];
    StepAhead(cur, s, p, Code, 2, Block);
  }

  lemma LineAhead(cur: string, s: string, p: nat)
    requires p <= |s| && Pair(s[p..], '-', '-')
    ensures var end := TokenEnd(s, "\n", p);
            p + 2 <= end && Ahead(cur, s, p, Code) == Ahead(cur + s[p..end], s, end, Code)
  {
    LineOpens(cur, s, p);
    LineEndsAfter(s, p);
    forall i | p + 2 <= i < |s| ensures ClosedBy(s, i, Line, "\n") {
      LineClosed(s, i);
    }
    TokenAhead(cur, s, p, 2, Line, "\n");
  }

  lemma BlockAhead(cur: string, s: string, p: nat)
    requires p <= |s| && Pair(s[p..], '/', '*')
    ensures p + 2 <= |s|
    ensures var end := TokenEnd(s, "*/", p + 2);
            Ahead(cur, s, p, Code) == Ahead(cur + s[p..end], s, end, Code)
  {
    BlockOpens(cur, s, p);
    forall i | p + 2 <= i < |s| ensures ClosedBy(s, i, Block, "*/") {
      BlockClosed(s, i);
    }
    TokenAhead(cur, s, p, 2, Block, "*/");
  }

  lemma DollarOpens(cur: string, s: string, p: nat, tag: string)
    requires p <= |s| && DollarTag(s[p..]) == Some(tag)
    ensures 2 <= |tag| && p + |tag| <= |s|
    ensures Ahead(cur, s, p, Code) == Ahead(cur + s[p..p + |tag|], s, p + |tag|, Dollar(tag))
  {
    assert s[p..][0] == '$';
    StepAhead(cur, s, p, Code, |tag|, Dollar(tag));
  }

  lemma DollarAhead(cur: string, s: string, p: nat, tag: string)
    requires p <= |s| && DollarTag(s[p..]) == Some(tag)
    ensures 2 <= |tag| && p + |tag| <= |s|
    ensures var end := TokenEnd(s, tag, p + |tag|);
            Ahead(cur, s, p, Code) == Ahead(cur + s[p..end], s, end, Code)
  {
    DollarOpens(cur, s, p, tag);
    var from := p + |tag|;
    CloseAhead(cur + s[p..from], s, from, Dollar(tag), tag);
    Glue(cur, s, p, from, TokenEnd(s, tag, from));
  }

  predicate Doubled(s: string, p: nat) {
    p + 1 < |s| && s[p] == '\'' && s[p + 1] == '\''
  }

  /** Inside a quoted string: a doubled quote or another character is passed, a single quote ends it. */
  lemma QuoteStep(cur: string, s: string, p: nat)
    requires p < |s|
    ensures var n := if Doubled(s, p) then 2 else 1;
            Ahead(cur, s, p, Quote) ==
            Ahead(cur + s[p..p + n], s, p + n, if s[p] == '\'' && !Doubled(s, p) then Code else Quote)
  {
    QuoteRead(s, p);
    StepAhead(cur, s, p, Quote, if Doubled(s, p) then 2 else 1, if s[p] == '\'' && !Doubled(s, p) then Code else Quote);
  }

  lemma QuoteRead(s: string, p: nat)
    requires p < |s|
    ensures Step(s[p..], Quote) ==
            (if Doubled(s, p) then 2 else 1, if s[p] == '\'' && !Doubled(s, p) then Code else Quote)
  {
    assert s[p..][0] == s[p] && (p + 1 < |s| ==> s[p..][1] == s[p + 1]);
  }

  /** A semicolon that stands in code closes the current segment. */
  lemma CutAhead(cur: string, s: string, p: nat)
    requires p < |s| && s[p] == ';'
    ensures Ahead(cur, s, p, Code) == [cur] + Ahead("", s, p + 1, Code)
  {
    var r := s[p..];
    assert Step(r, Code) == (1, Code);
    assert r[..1] == ";" && r[1..] == s[p + 1..];
    assert Lex(r) == [Piece(";", Code)] + Lex(s[p + 1..]);
  }

  class Parser {
    const sqlText: string
    var pos: nat
    var current: string

    constructor (sqlText: string)
      ensures this.sqlText == sqlText && pos == 0 && current == ""
    {
      this.sqlText := sqlText;
      pos := 0;
      current := "";
    }

    /** The segments still to come, the first of them begun. */
    ghost function Pending(): seq<string>
      requires pos <= |sqlText|
      reads this
    {
      Ahead(current, sqlText, pos, Code)
    }

    /** Append everything up to `end` to the current segment. */
    method TakeTo(end: nat)
      requires pos <= end <= |sqlText|
      modifies this
      ensures pos == end && current == old(current) + sqlText[old(pos)..end]
    {
      current := current + sqlText[pos..end];
      pos := end;
    }

    /** Append everything through the first `close` found from `from` on, or to the end of the text. */
    method TakeThrough(close: string, from: nat)
      requires pos <= from <= |sqlText|
      modifies this
      ensures pos == TokenEnd(sqlText, close, from) && current == old(current) + sqlText[old(pos)..pos]
    {
      var k := IndexOf(sqlText, close, from);
      if k.None? {
        TakeTo(|sqlText|);
      } else {
        TakeTo(k.value + |close|);
      }
    }

    method SkipLineComment()
      requires pos <= |sqlText| && Pair(sqlText[pos..], '-', '-')
      modifies this
      ensures old(pos) < pos <= |sqlText| && Pending() == old(Pending())
    {
      LineAhead(current, sqlText, pos);
      TakeThrough("\n", pos);
    }

    method SkipBlockComment()
      requires pos <= |sqlText| && Pair(sqlText[pos..], '/', '*')
      modifies this
      ensures old(pos) < pos <= |sqlText| && Pending() == old(Pending())
    {
      BlockAhead(current, sqlText, pos);
      TakeThrough("*/", pos + 2);
    }

    method ConsumeSingleQuotedString()
      requires pos < |sqlText| && sqlText[pos] == '\''
      modifies this
      ensures old(pos) < pos <= |sqlText| && Pending() == old(Pending())
    {
      StepAhead(current, sqlText, pos, Code, 1, Quote);
      TakeTo(pos + 1); // opening quote
      while pos < |sqlText|
        invariant old(pos) < pos <= |sqlText|
        invariant Ahead(current, sqlText, pos, Quote) == old(Pending())
      {
        var inside := ConsumeQuotedChar();
        if !inside {
          return;
        }
      }
      EndAhead(current, sqlText, Quote);
    }

    /** One turn of the loop: false when the closing quote has been taken. */
    method ConsumeQuotedChar() returns (inside: bool)
      requires pos < |sqlText|
      modifies this
      ensures old(pos) < pos <= |sqlText|
      ensures Ahead(current, sqlText, pos, if inside then Quote else Code) == old(Ahead(current, sqlText, pos, Quote))
    {
      QuoteStep(current, sqlText, pos);
      var c := sqlText[pos];
      if c == '\'' {
        if pos + 1 < |sqlText| && sqlText[pos + 1] == '\'' {
          TakeTo(pos + 2);
          return true;
        }
        TakeTo(pos + 1);
        return false;
      }
      TakeTo(pos + 1);
      return true;
    }

    method TryConsumeDollarQuote() returns (matched: bool)
      requires pos <= |sqlText|
      modifies this
      ensures matched <==> DollarTag(sqlText[old(pos)..]).Some?
      ensures matched ==> old(pos) < pos <= |sqlText| && Pending() == old(Pending())
      ensures !matched ==> pos == old(pos) && current == old(current)
    {
      var tagMatch := DollarTag(sqlText[pos..]);
      if tagMatch.None? {
        return false;
      }
      var openTag := tagMatch.value;
      DollarAhead(current, sqlText, pos, openTag);
      ConsumeDollarQuote(openTag);
      return true;
    }

    /** The opening tag, and everything through the next tag alike or to the end. */
    method ConsumeDollarQuote(openTag: string)
      requires pos + |openTag| <= |sqlText|
      modifies this
      ensures pos == TokenEnd(sqlText, openTag, old(pos) + |openTag|)
      ensures current == old(current) + sqlText[old(pos)..pos]
    {
      ghost var from := pos;
      TakeTo(pos + |openTag|);
      TakeThrough(openTag, pos);
      Glue(old(current), sqlText, from, from + |openTag|, pos);
    }

    /** A character that begins no token joins the current segment. */
    method TakeChar()
      requires pos < |sqlText| && sqlText[pos] != ';' && Step(sqlText[pos..], Code) == (1, Code)
      modifies this
      ensures pos == old(pos) + 1 && Pending() == old(Pending())
    {
      StepAhead(current, sqlText, pos, Code, 1, Code);
      TakeTo(pos + 1);
    }

    /** A semicolon in code ends the current segment. */
    method EndSegment() returns (segment: string)
      requires pos < |sqlText| && sqlText[pos] == ';'
      modifies this
      ensures pos == old(pos) + 1 && old(Pending()) == [segment] + Pending()
    {
      CutAhead(current, sqlText, pos);
      segment := current;
      current := "";
      pos := pos + 1;
    }

    /** One turn of the loop: a token is taken, or a segment ends. */
    method Advance() returns (ended: Option<string>)
      requires pos < |sqlText|
      modifies this
      ensures old(pos) < pos <= |sqlText|
      ensures old(Pending()) == if ended.Some? then [ended.value] + Pending() else Pending()
    {
      var ch := sqlText[pos];
      var next := if pos + 1 < |sqlText| then Some(sqlText[pos + 1]) else None;
      ended := None;
      if ch == '-' && next == Some('-') {
        SkipLineComment();
      } else if ch == '/' && next == Some('*') {
        SkipBlockComment();
      } else if ch == '\'' {
        ConsumeSingleQuotedString();
      } else {
        var matched := false;
        if ch == '$' {
          matched := TryConsumeDollarQuote();
        }
        if !matched {
          if ch == ';' {
            var segment := EndSegment();
            ended := Some(segment);
          } else {
            TakeChar();
          }
        }
      }
    }
  }

  lemma Collected(statements: seq<string>, seg: string, rest: seq<string>)
    ensures statements + Kept([seg] + rest) == statements + Kept1(seg) + Kept(rest)
  {
    KeptCons(seg, rest);
  }

  lemma AtStart(sqlText: string)
    ensures Kept(Ahead("", sqlText, 0, Code)) == Statements(sqlText)
  {
    assert sqlText[0..] == sqlText;
  }

  lemma AtEnd(cur: string, sqlText: string)
    ensures Ahead(cur, sqlText, |sqlText|, Code) == [cur] + []
  {
    assert sqlText[|sqlText|..] == "";
  }

  /** A segment is kept trimmed, unless nothing is left of it. */
  method Keep(statements: seq<string>, segment: string) returns (more: seq<string>)
    ensures more == statements + Kept1(segment)
  {
    var trimmed := Trim(segment);
    more := if |trimmed| > 0 then statements + [trimmed] else statements;
  }

  /** The splitter returns exactly the statements of the reference lexer. */
  method SplitSqlStatements(sqlText: string) returns (statements: seq<string>)
    ensures statements == Statements(sqlText)
  {
    statements := [];
    var state := new Parser(sqlText);
    AtStart(sqlText);
    while state.pos < |sqlText|
      invariant fresh(state) && state.sqlText == sqlText && state.pos <= |sqlText|
      invariant statements + Kept(state.Pending()) == Statements(sqlText)
      decreases |sqlText| - state.pos
    {
      var ended := state.Advance();
      if ended.Some? {
        Collected(statements, ended.value, state.Pending());
        statements := Keep(statements, ended.value);
      }
    }
    AtEnd(state.current, sqlText);
    Collected(statements, state.current, []);
    statements := Keep(statements, state.current);
  }
}
