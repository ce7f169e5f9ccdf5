/**
 The comment stripper of the emit guard: comment characters become spaces, newlines stay,
 and everything else, string and template literals included, is left alone, so that an
 offset into the stripped text is an offset into the original.
 */
module CommentStripper {
  import opened Wrappers

  /** Where the scanner is: in code, in a comment, or in a literal opened by `quote`. */
  datatype Mode = Code | Line | Block | Literal(quote: char)

  predicate IsQuote(c: char) {
    c == '"' || c == '\'' || c == '`'
  }

  predicate Pair(text: string, i: nat, a: char, b: char) {
    i + 1 < |text| && text[i] == a && text[i + 1] == b
  }

  /** The reference scanner: the length of the piece that begins at i, and the mode after it. */
  function Step(text: string, i: nat, m: Mode): (s: (nat, Mode))
    requires i < |text|
    ensures 1 <= s.0 <= 2 && i + s.0 <= |text|
  {
    match m
    case Code =>
      if Pair(text, i, '/', '/') then (2, Line)
      else if Pair(text, i, '/', '*') then (2, Block)
      else if IsQuote(text[i]) then (1, Literal(text[i]))
      else (1, Code)
    case Line => if text[i] == '\n' then (1, Code) else (1, Line)
    case Block => if Pair(text, i, '*', '/') then (2, Code) else (1, Block)
    case Literal(q) =>
      if text[i] == q then (1, Code)
      else if text[i] == '\\' && i + 1 < |text| then (2, m)
      else (1, m)
  }

  /** A piece belongs to a comment when it was read in one or opens one. */
  predicate InComment(m: Mode, m': Mode) {
    m == Line || m == Block || m' == Line || m' == Block
  }

  /** What is written for a character, if it belongs to a comment or not. */
  function Out(c: char, comment: bool): char {
    if comment && c != '\n' then ' ' else c
  }

  /**
   Where a character stands: at the start of a piece read in mode m, or second in a piece after
   which the mode is m.
   */
  datatype Place = Start(m: Mode) | Second(comment: bool, m: Mode)

  function At(text: string, i: nat): Place
    requires i <= |text|
  {
    if i == 0 then Start(Code)
    else
      match At(text, i - 1)
      case Start(m) =>
        var (n, m') := Step(text, i - 1, m);
        if n == 1 then Start(m') else Second(InComment(m, m'), m')
      case Second(_, m) => Start(m)
  }

  /** Whether a character belongs to a comment. */
  predicate Commented(text: string, i: nat)
    requires i < |text|
  {
    match At(text, i)
    case Start(m) => InComment(m, Step(text, i, m).1)
    case Second(comment, _) => comment
  }

  function StrippedAt(text: string, i: nat): char
    requires i < |text|
  {
    Out(text[i], Commented(text, i))
  }

  /** The text with its comments blanked. */
  ghost predicate IsStripped(t: string, text: string) {
    |t| == |text| && forall i | 0 <= i < |text| :: t[i] == StrippedAt(text, i)
  }

  // ------------------------------------------------------------------ theorems

  /** A character inside a string or template literal never belongs to a comment, and stays as it is. */
  lemma LiteralsUnchanged(t: string, text: string, i: nat)
    requires IsStripped(t, text) && i < |text| && At(text, i).m.Literal?
    ensures t[i] == text[i]
  {
    assert t[i] == StrippedAt(text, i);
    if At(text, i).Second? {
      assert At(text, i) == Second(false, At(text, i).m);
    }
  }

  // ------------------------------------------------ what is a comment, and what is not

  /** Between two of the same quotes, of any of the three kinds, nothing is a comment. */
  lemma {:induction false} QuotedIsNoComment(text: string, k: nat, e: nat, quote: char, i: nat)
    requires k < e < |text| && At(text, k) == Start(Code) && quote in {'"', '\'', '`'}
    requires text[k] == text[e] == quote && forall j | k < j < e :: text[j] != quote && text[j] != '\\'
    requires k <= i <= e
    ensures !Commented(text, i) && At(text, i + 1) == Start(if i < e then Literal(quote) else Code)
    decreases i
  {
    if k < i {
      QuotedIsNoComment(text, k, e, quote, i - 1);
    } else {
      assert !Pair(text, k, '/', '/') && !Pair(text, k, '/', '*');
    }
  }

  /** A backslash in a literal takes the next character along, also a quote. */
  lemma EscapeIsNoComment(text: string, i: nat, quote: char)
    requires i + 1 < |text| && At(text, i) == Start(Literal(quote)) && text[i] == '\\' && quote in {'"', '\'', '`'}
    ensures !Commented(text, i) && !Commented(text, i + 1) && At(text, i + 2) == Start(Literal(quote))
  {
    assert At(text, i + 1) == Second(false, Literal(quote));
  }

  /** From two slashes in code to the end of the line everything is a comment, whatever it is. */
  lemma {:induction false} LineIsComment(text: string, k: nat, e: nat, i: nat)
    requires k + 1 < e <= |text| && At(text, k) == Start(Code) && text[k] == '/' && text[k + 1] == '/'
    requires (forall j | k + 1 < j < e :: text[j] != '\n') && k <= i < e
    ensures Commented(text, i) && (i > k ==> At(text, i + 1) == Start(Line))
    ensures e < |text| && text[e] == '\n' && i == e - 1 ==> At(text, e + 1) == Start(Code)
    decreases i
  {
    if i > k {
      LineIsComment(text, k, e, i - 1);
      if i == k + 1 {
        assert At(text, k + 1) == Second(true, Line);
      }
    }
  }

  /** From a slash and a star in code to the first star and slash after them everything is a comment. */
  lemma {:induction false} BlockIsComment(text: string, k: nat, e: nat, i: nat)
    requires k + 2 <= e && e + 1 < |text| && At(text, k) == Start(Code) && text[k] == '/' && text[k + 1] == '*'
    requires text[e] == '*' && text[e + 1] == '/'
    requires forall j | k + 2 <= j < e :: text[j] != '*' || text[j + 1] != '/'
    requires k <= i <= e + 1
    ensures Commented(text, i) && (k < i < e ==> At(text, i + 1) == Start(Block))
    ensures i == e ==> At(text, e + 1) == Second(true, Code)
    ensures i == e + 1 ==> At(text, e + 2) == Start(Code)
    decreases i
  {
    if i > k {
      BlockIsComment(text, k, e, i - 1);
      if i == k + 1 {
        assert At(text, k + 1) == Second(true, Block);
      } else if i == e {
        assert At(text, e) == Start(Block);
      }
    }
  }

  /** Any other character of code is code, and code goes on after it. */
  lemma PlainIsNoComment(text: string, i: nat)
    requires i < |text| && At(text, i) == Start(Code) && text[i] !in {'"', '\'', '`'}
    requires text[i] == '/' && i + 1 < |text| ==> text[i + 1] != '/' && text[i + 1] != '*'
    ensures !Commented(text, i) && At(text, i + 1) == Start(Code)
  {
  }

  /** Where a character of the stripped text stands when that is scanned: what was a comment is code. */
  function Rescan(p: Place): Place {
    match p
    case Start(m) => Start(if m == Line || m == Block then Code else m)
    case Second(comment, m) => if comment then Start(Code) else p
  }

  /** A step from a place outside comments reads the same from the stripped text; within them it passes a blank. */
  lemma StepOnStripped(t: string, text: string, i: nat)
    requires IsStripped(t, text) && i < |text| && At(t, i) == Rescan(At(text, i))
    ensures At(t, i + 1) == Rescan(At(text, i + 1)) && (Commented(t, i) ==> Commented(text, i))
  {
    assert t[i] == StrippedAt(text, i);
    if i + 1 < |text| {
      assert t[i + 1] == StrippedAt(text, i + 1);
    }
  }

  lemma {:induction false} PlacesOfStripped(t: string, text: string, i: nat)
    requires IsStripped(t, text) && i <= |text|
    ensures At(t, i) == Rescan(At(text, i))
  {
    if i > 0 {
      PlacesOfStripped(t, text, i - 1);
      StepOnStripped(t, text, i - 1);
    }
  }

  /**
   Scanned again, the stripped text has no comment in it: where one was there are only blanks
   and the newlines it had. Every other character is the same and is read as before, code
   as code and literals as literals.
   */
  lemma NoCommentsLeft(t: string, text: string, i: nat)
    requires IsStripped(t, text) && i < |text|
    ensures !Commented(t, i)
    ensures Commented(text, i) ==> t[i] == (if text[i] == '\n' then '\n' else ' ') && !At(t, i).m.Literal?
    ensures !Commented(text, i) ==> t[i] == text[i] && At(t, i) == At(text, i)
  {
    PlacesOfStripped(t, text, i);
    StepOnStripped(t, text, i);
    assert t[i] == StrippedAt(text, i);
  }

  /** Stripping stripped text changes nothing: it is its own stripped text, and no other is. */
  lemma StrippingIsIdempotent(t: string, text: string, u: string)
    requires IsStripped(t, text)
    ensures IsStripped(u, t) <==> u == t
  {
    forall i | 0 <= i < |t| ensures StrippedAt(t, i) == t[i] {
      PlacesOfStripped(t, text, i);
      StepOnStripped(t, text, i);
      assert t[i] == StrippedAt(text, i);
    }
  }

  // --------------------------------------------------------------- line lookup

  function NewlinesBefore(s: string, i: nat): nat
    requires i <= |s|
  {
    if i == 0 then 0 else NewlinesBefore(s, i - 1) + if s[i - 1] == '\n' then 1 else 0
  }

  /** Where the line that contains offset i begins. */
  function LineStart(s: string, i: nat): (k: nat)
    requires i <= |s|
    ensures k <= i && (k > 0 ==> s[k - 1] == '\n') && forall j | k <= j < i :: s[j] != '\n'
  {
    if i == 0 || s[i - 1] == '\n' then i else LineStart(s, i - 1)
  }

  predicate SameBreaks(s: string, t: string) {
    |s| == |t| && forall i | 0 <= i < |s| :: s[i] == '\n' <==> t[i] == '\n'
  }

  lemma {:induction false} LineOfBreaks(s: string, t: string, i: nat)
    requires SameBreaks(s, t) && i <= |s|
    ensures NewlinesBefore(t, i) == NewlinesBefore(s, i) && LineStart(t, i) == LineStart(s, i)
  {
    if i > 0 {
      LineOfBreaks(s, t, i - 1);
    }
  }

  lemma StrippedBreaks(t: string, s: string)
    requires IsStripped(t, s)
    ensures SameBreaks(s, t)
  {
    forall i | 0 <= i < |s| ensures s[i] == '\n' <==> t[i] == '\n' {
      assert t[i] == StrippedAt(s, i);
    }
  }

  /** Offsets name the same line in the stripped text and in the original. */
  lemma SameLine(t: string, s: string, i: nat)
    requires IsStripped(t, s) && i <= |s|
    ensures |t| == |s| && forall j | 0 <= j < |s| :: t[j] == '\n' <==> s[j] == '\n'
    ensures NewlinesBefore(t, i) == NewlinesBefore(s, i) && LineStart(t, i) == LineStart(s, i)
  {
    StrippedBreaks(t, s);
    LineOfBreaks(s, t, i);
  }

  /** `includes`. */
  predicate Contains(s: string, pat: string) {
    exists i: nat | i <= |s| :: StartsAt(s, pat, i)
  }

  predicate StartsAt(s: string, pat: string, i: nat)
    requires i <= |s|
  {
    pat <= s[i..]
  }

  /** `split('\n')`, with `cur` the line begun so far. */
  function SplitLines(cur: string, s: string): (lines: seq<string>)
    ensures lines != []
    decreases |s|
  {
    if s == "" then [cur]
    else if s[0] == '\n' then [cur] + SplitLines("", s[1..])
    else SplitLines(cur + [s[0]], s[1..])
  }

  const OVERRIDE: string := "direct nats emit ok"

  /** The lines that `hasOverride` looks at: the match's own line up to the match, and the line before. */
  function Looked(lines: seq<string>): (string, string)
    requires lines != []
  {
    (lines[|lines| - 1], if |lines| >= 2 then lines[|lines| - 2] else "")
  }

  predicate HasOverride(originalText: string, matchIndex: nat)
    requires matchIndex <= |originalText|
  {
    var (currentLine, previousLine) := Looked(SplitLines("", originalText[..matchIndex]));
    Contains(currentLine, OVERRIDE) || Contains(previousLine, OVERRIDE)
  }

  /** Appending one character to the text extends the last line or begins a new one. */
  lemma {:induction false} SplitSnoc(cur: string, s: string, c: char)
    ensures var lines := SplitLines(cur, s);
            SplitLines(cur, s + [c]) ==
            if c == '\n' then lines + [""] else lines[..|lines| - 1] + [lines[|lines| - 1] + [c]]
    decreases |s|
  {
    var t := s + [c];
    if s == "" {
      assert t[0] == c && t[1..] == "";
      assert SplitLines("", "") == [""];
    } else {
      assert t[0] == s[0] && t[1..] == s[1..] + [c];
      if s[0] == '\n' {
        SplitSnoc("", s[1..], c);
        var rest := SplitLines("", s[1..]);
        var lines := SplitLines(cur, s);
        assert lines == [cur] + rest && lines[..|lines| - 1] == [cur] + rest[..|rest| - 1];
      } else {
        SplitSnoc(cur + [s[0]], s[1..], c);
      }
    }
  }

  /** The two lines after one more character. */
  function NextLines(lines: (string, string), c: char): (string, string) {
    if c == '\n' then ("", lines.0) else (lines.0 + [c], lines.1)
  }

  lemma LookedSnoc(s: string, c: char)
    ensures Looked(SplitLines("", s + [c])) == NextLines(Looked(SplitLines("", s)), c)
  {
    SplitSnoc("", s, c);
  }

  /** The line that contains offset i, up to i, and the line before it, by position in `at`. */
  function LinesAt(s: string, at: string, i: nat): (string, string)
    requires i <= |s| == |at|
  {
    var k := LineStart(at, i);
    (s[k..i], if k > 0 then s[LineStart(at, k - 1)..k - 1] else "")
  }

  lemma LinesAtSnoc(s: string, i: nat)
    requires i < |s|
    ensures LinesAt(s, s, i + 1) == NextLines(LinesAt(s, s, i), s[i])
  {
    var k := LineStart(s, i);
    if s[i] == '\n' {
      assert LineStart(s, i + 1) == i + 1 && s[i + 1..i + 1] == "";
    } else {
      assert LineStart(s, i + 1) == k;
      assert s[k..i + 1] == s[k..i] + [s[i]];
    }
  }

  lemma LinesAtBreaks(s: string, t: string, i: nat)
    requires SameBreaks(s, t) && i <= |s|
    ensures LinesAt(s, t, i) == LinesAt(s, s, i)
  {
    LineOfBreaks(s, t, i);
    var k := LineStart(s, i);
    if k > 0 {
      LineOfBreaks(s, t, k - 1);
    }
  }

  lemma LookedPrefix(s: string, i: nat)
    requires i < |s|
    ensures Looked(SplitLines("", s[..i + 1])) == NextLines(Looked(SplitLines("", s[..i])), s[i])
  {
    assert s[..i + 1] == s[..i] + [s[i]];
    LookedSnoc(s[..i], s[i]);
  }

  lemma NoLines(s: string)
    ensures Looked(SplitLines("", s[..0])) == LinesAt(s, s, 0)
  {
    assert s[..0] == "" && s[0..0] == "";
    assert SplitLines("", "") == [""];
  }

  /** What `hasOverride` looks at, by position. */
  lemma {:induction false} LastLines(s: string, i: nat)
    requires i <= |s|
    ensures Looked(SplitLines("", s[..i])) == LinesAt(s, s, i)
  {
    if i == 0 {
      NoLines(s);
    } else {
      var j := i - 1;
      LastLines(s, j);
      LinesAtSnoc(s, j);
      LookedPrefix(s, j);
    }
  }

  /**
   The original lines that `hasOverride` looks at are those that, in the stripped text
   in which the match was found, contain and precede the match.
   */
  lemma OverrideLooksAtMatchLine(t: string, s: string, i: nat)
    requires IsStripped(t, s) && i <= |s|
    ensures var (currentLine, previousLine) := LinesAt(s, t, i);
            HasOverride(s, i) <==>
            || (exists k :: 0 <= k <= |currentLine| && "direct nats emit ok" <= currentLine[k..])
            || (exists k :: 0 <= k <= |previousLine| && "direct nats emit ok" <= previousLine[k..])
  {
    StrippedBreaks(t, s);
    LinesAtBreaks(s, t, i);
    LastLines(s, i);
    var (currentLine, previousLine) := LinesAt(s, t, i);
    ContainsIff(currentLine);
    ContainsIff(previousLine);
  }

  lemma ContainsIff(line: string)
    ensures Contains(line, OVERRIDE) <==> exists k :: 0 <= k <= |line| && "direct nats emit ok" <= line[k..]
  {
    forall k: nat | k <= |line| ensures StartsAt(line, OVERRIDE, k) <==> "direct nats emit ok" <= line[k..] {
    }
  }

  // --------------------------------------------------------------- the scanner

  /** From offset `from` to offset i the stripped text has been written. */
  ghost predicate Written(text: string, from: nat, out: string, i: nat) {
    from <= i <= |text| && |out| == i - from && forall k | from <= k < i :: out[k - from] == StrippedAt(text, k)
  }

  lemma WriteOne(text: string, from: nat, out: string, i: nat, c: char)
    requires i < |text| && Written(text, from, out, i) && c == StrippedAt(text, i)
    ensures Written(text, from, out + [c], i + 1)
  {
  }

  /** A one-character piece. */
  lemma OneStep(text: string, i: nat, m: Mode, m': Mode)
    requires i < |text| && At(text, i) == Start(m) && Step(text, i, m) == (1, m')
    ensures At(text, i + 1) == Start(m') && StrippedAt(text, i) == Out(text[i], InComment(m, m'))
  {
  }

  /** A piece of two. */
  lemma TwoSteps(text: string, i: nat, m: Mode, m': Mode)
    requires i < |text| && At(text, i) == Start(m) && Step(text, i, m) == (2, m')
    ensures At(text, i + 1) == Second(InComment(m, m'), m') && At(text, i + 2) == Start(m')
    ensures StrippedAt(text, i) == Out(text[i], InComment(m, m'))
    ensures StrippedAt(text, i + 1) == Out(text[i + 1], InComment(m, m'))
  {
    assert At(text, i + 1) == Second(InComment(m, m'), m');
  }

  method SkipLineComment(text: string, start: nat) returns (next: nat, out: string)
    requires Pair(text, start, '/', '/') && At(text, start) == Start(Code)
    ensures start < next <= |text| && Written(text, start, out, next)
    ensures next < |text| ==> text[next] == '\n' && At(text, next) == Start(Line)
  {
    var i := start;
    out := "";
    TwoSteps(text, start, Code, Line);
    while i < |text| && text[i] != '\n'
      invariant start <= i <= |text| && Written(text, start, out, i)
      invariant i >= start + 2 ==> At(text, i) == Start(Line)
    {
      if i >= start + 2 {
        OneStep(text, i, Line, Line);
      }
      WriteOne(text, start, out, i, ' ');
      out := out + " ";
      i := i + 1;
    }
    next := i;
  }

  method SkipBlockComment(text: string, start: nat) returns (next: nat, out: string)
    requires Pair(text, start, '/', '*') && At(text, start) == Start(Code)
    ensures start < next <= |text| && Written(text, start, out, next)
    ensures next < |text| ==> At(text, next) == Start(Code)
  {
    var i := start + 2;
    out := "  ";
    TwoSteps(text, start, Code, Block);
    while i < |text| && !(text[i] == '*' && i + 1 < |text| && text[i + 1] == '/')
      invariant start + 2 <= i <= |text| && Written(text, start, out, i) && At(text, i) == Start(Block)
    {
      OneStep(text, i, Block, Block);
      WriteOne(text, start, out, i, if text[i] == '\n' then '\n' else ' ');
      out := out + if text[i] == '\n' then "\n" else " ";
      i := i + 1;
    }
    if i < |text| {
      TwoSteps(text, i, Block, Code);
      out := out + "  ";
      i := i + 2;
    }
    next := i;
  }

  method ReadStringLiteral(text: string, start: nat, quote: char) returns (next: nat, out: string)
    requires start < |text| && text[start] == quote && IsQuote(quote) && At(text, start) == Start(Code)
    ensures start < next <= |text| && Written(text, start, out, next)
    ensures next < |text| ==> At(text, next) == Start(Code)
  {
    var i := start + 1;
    out := [quote];
    OneStep(text, start, Code, Literal(quote));
    while i < |text| && text[i] != quote
      invariant start < i <= |text| && Written(text, start, out, i) && At(text, i) == Start(Literal(quote))
    {
      if text[i] == '\\' && i + 1 < |text| {
        TwoSteps(text, i, Literal(quote), Literal(quote));
        out := out + [text[i], text[i + 1]];
        i := i + 2;
        continue;
      }
      OneStep(text, i, Literal(quote), Literal(quote));
      WriteOne(text, start, out, i, text[i]);
      out := out + [text[i]];
      i := i + 1;
    }
    if i < |text| {
      OneStep(text, i, Literal(quote), Code);
      WriteOne(text, start, out, i, text[i]);
      out := out + [text[i]];
      i := i + 1;
    }
    next := i;
  }

  /** A newline that ends a line comment stands, for the loop, in code: it is written and passed alike. */
  lemma LineEnd(text: string, i: nat)
    requires i < |text| && text[i] == '\n' && At(text, i) in {Start(Line), Start(Code)}
    ensures StrippedAt(text, i) == '\n' && At(text, i + 1) == Start(Code)
  {
  }

  /** The stripper writes exactly the reference scanner's stripped text. */
  method StripComments(text: string) returns (out: string)
    ensures IsStripped(out, text)
  {
    out := "";
    var i := 0;
    while i < |text|
      invariant i <= |text| && Written(text, 0, out, i)
      invariant i < |text| ==> At(text, i) == Start(Code) || (At(text, i) == Start(Line) && text[i] == '\n')
    {
      var ch := text[i];
      var next := if i + 1 < |text| then Some(text[i + 1]) else None;
      var j, piece;
      if ch == '/' && next == Some('/') {
        j, piece := SkipLineComment(text, i);
      } else if ch == '/' && next == Some('*') {
        j, piece := SkipBlockComment(text, i);
      } else if IsQuote(ch) {
        j, piece := ReadStringLiteral(text, i, ch);
      } else {
        if ch == '\n' {
          LineEnd(text, i);
        } else {
          OneStep(text, i, Code, Code);
        }
        j, piece := i + 1, [ch];
      }
      out := out + piece;
      i := j;
    }
  }
}
