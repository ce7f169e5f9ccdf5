/**
 A reference lexer for the PostgreSQL fragment that the statement splitter knows: line
 comments, block comments that do not nest, single-quoted strings with doubled quotes,
 and dollar quotes (sections 4.1.2.1, 4.1.2.4 and 4.1.5 of the PostgreSQL manual). It
 reads the text from left to right, one token piece at a time.
 */
module SqlLexer {
  import opened Wrappers
  import opened Scanner

  datatype Mode = Code | Line | Block | Quote | Dollar(tag: string)

  predicate IdentStart(c: char) {
    'A' <= c <= 'Z' || 'a' <= c <= 'z' || c == '_'
  }

  predicate IdentChar(c: char) {
    IdentStart(c) || '0' <= c <= '9'
  }

  /** JavaScript's white space and line terminators, which `trim` removes. */
  predicate IsSpace(c: char) {
    || c in {' ', '\t', '\n', '\r', '\U{0b}', '\U{0c}', '\U{a0}', '\U{1680}'}
    || '\U{2000}' <= c <= '\U{200a}'
    || c in {'\U{2028}', '\U{2029}', '\U{202f}', '\U{205f}', '\U{3000}', '\U{feff}'}
  }

  /** How many identifier characters `r` begins with. */
  function IdentRun(r: string): (n: nat)
    ensures n <= |r| && (n < |r| ==> !IdentChar(r[n])) && forall i | 0 <= i < n :: IdentChar(r[i])
  {
    if r != "" && IdentChar(r[0]) then 1 + IdentRun(r[1..]) else 0
  }

  /** The opening tag `$$` or `$name$` that `r` begins with, if any. */
  function DollarTag(r: string): (t: Option<string>)
    ensures t.Some? ==> 2 <= |t.value| && t.value <= r
  {
    if r == "" || r[0] != '$' then None
    else
      var k := IdentRun(r[1..]);
      if 1 + k < |r| && r[1 + k] == '$' && (k > 0 ==> IdentStart(r[1])) then Some(r[..k + 2]) else None
  }

  /** What the pattern for an opening tag accepts: two dollars, and between them nothing or an identifier. */
  predicate IsTag(t: string) {
    && |t| >= 2 && t[0] == '$' && t[|t| - 1] == '$'
    && (forall i | 1 <= i < |t| - 1 :: 'A' <= t[i] <= 'Z' || 'a' <= t[i] <= 'z' || t[i] == '_' || '0' <= t[i] <= '9')
    && (|t| > 2 ==> !('0' <= t[1] <= '9'))
  }

  /** A text opens a dollar quote with the tag t exactly when t is a tag and the text begins with it. */
  lemma DollarTagIff(r: string, t: string)
    ensures DollarTag(r) == Some(t) <==> IsTag(t) && t <= r
  {
    if r != "" && r[0] == '$' {
      var k := IdentRun(r[1..]);
      forall i | 1 <= i <= k ensures IdentChar(r[i]) {
        assert r[i] == r[1..][i - 1];
      }
      if IsTag(t) && t <= r {
        RunIs(r[1..], |t| - 2, t);
        assert t == r[..k + 2];
      }
    }
  }

  lemma RunIs(r: string, n: nat, t: string)
    requires |t| == n + 2 && n < |r| && r[n] == '$'
    requires forall i | 0 <= i < n :: r[i] == t[i + 1] && IdentChar(t[i + 1])
    ensures IdentRun(r) == n
  {
    assert forall i | 0 <= i < n :: IdentChar(r[i]);
    assert !IdentChar(r[n]);
  }

  /** `r` begins with the two characters a and b. */
  predicate Pair(r: string, a: char, b: char) {
    |r| >= 2 && r[0] == a && r[1] == b
  }

  /** One step of the lexer: how many characters it consumes, and the mode after them. */
  function Step(r: string, m: Mode): (s: (nat, Mode))
    ensures r != "" ==> 1 <= s.0 <= |r|
  {
    if r == "" then (0, m)
    else match m
    case Code =>
      if Pair(r, '-', '-') then (2, Line)
      else if Pair(r, '/', '*') then (2, Block)
      else if r[0] == '\'' then (1, Quote)
      else if DollarTag(r).Some? then (|DollarTag(r).value|, Dollar(DollarTag(r).value))
      else (1, Code)
    case Line => if r[0] == '\n' then (1, Code) else (1, Line)
    case Block => if Pair(r, '*', '/') then (2, Code) else (1, Block)
    case Quote =>
      if Pair(r, '\'', '\'') then (2, Quote) else if r[0] == '\'' then (1, Code) else (1, Quote)
    case Dollar(t) => if t != "" && t <= r then (|t|, Code) else (1, m)
  }

  /** The pieces of a text read from code. */
  function Lex(r: string): seq<Piece<Mode>> {
    StepProgress();
    Pieces(Step, r, Code)
  }

  lemma StepProgress()
    ensures Progress(Step)
  {
  }

  /** A semicolon in code. */
  predicate Cut(p: Piece<Mode>) {
    p.mode == Code && p.text == ";"
  }

  /** The segments between the cuts, `cur` being the text of the first so far. */
  function Segs(cur: string, ps: seq<Piece<Mode>>): seq<string>
    decreases |ps|
  {
    if ps == [] then [cur]
    else if Cut(ps[0]) then [cur] + Segs("", ps[1..])
    else Segs(cur + ps[0].text, ps[1..])
  }

  function TrimStart(s: string): string {
    if s != "" && IsSpace(s[0]) then TrimStart(s[1..]) else s
  }

  function TrimEnd(s: string): string {
    if s != "" && IsSpace(s[|s| - 1]) then TrimEnd(s[..|s| - 1]) else s
  }

  function Trim(s: string): string {
    TrimEnd(TrimStart(s))
  }

  /** Each segment trimmed, the empty ones dropped. */
  function Kept(segs: seq<string>): seq<string> {
    if segs == [] then []
    else (if Trim(segs[0]) == "" then [] else [Trim(segs[0])]) + Kept(segs[1..])
  }

  /** The statements of a script. */
  function Statements(s: string): seq<string> {
    Kept(Segs("", Lex(s)))
  }

  function Join(segs: seq<string>, sep: string): string {
    if segs == [] then ""
    else if |segs| == 1 then segs[0]
    else segs[0] + sep + Join(segs[1..], sep)
  }

  // ------------------------------------------------------- nothing is lost

  lemma {:induction false} SegsNonEmpty(cur: string, ps: seq<Piece<Mode>>)
    ensures Segs(cur, ps) != []
    decreases |ps|
  {
    if ps != [] && !Cut(ps[0]) {
      SegsNonEmpty(cur + ps[0].text, ps[1..]);
    }
  }

  lemma {:induction false} SegsJoin(cur: string, ps: seq<Piece<Mode>>)
    ensures Join(Segs(cur, ps), ";") == cur + Text(ps)
    decreases |ps|
  {
    if ps == [] {
    } else if Cut(ps[0]) {
      SegsJoin("", ps[1..]);
      SegsNonEmpty("", ps[1..]);
      assert Segs(cur, ps)[1..] == Segs("", ps[1..]);
      assert Join(Segs(cur, ps), ";") == cur + ";" + Text(ps[1..]);
      assert cur + ";" + Text(ps[1..]) == cur + (";" + Text(ps[1..]));
    } else {
      SegsJoin(cur + ps[0].text, ps[1..]);
      assert cur + ps[0].text + Text(ps[1..]) == cur + (ps[0].text + Text(ps[1..]));
    }
  }

  /** The untrimmed segments joined by semicolons give back the script. */
  lemma SegmentsJoin(s: string)
    ensures Join(Segs("", Lex(s)), ";") == s
  {
    SegsJoin("", Lex(s));
    TextOfPieces(Step, s, Code);
    assert "" + s == s;
  }

  // ----------------------------------------------------------- the first cut

  predicate NoCuts(ps: seq<Piece<Mode>>) {
    forall i | 0 <= i < |ps| :: !Cut(ps[i])
  }

  function FirstCut(ps: seq<Piece<Mode>>): (k: Option<nat>)
    ensures k.Some? ==> k.value < |ps| && Cut(ps[k.value]) && NoCuts(ps[..k.value])
    ensures k.None? ==> NoCuts(ps)
  {
    if ps == [] then None
    else if Cut(ps[0]) then Some(0)
    else
      var k := FirstCut(ps[1..]);
      assert k.Some? ==> forall i | 1 <= i < k.value + 1 :: ps[i] == ps[1..][..k.value][i - 1];
      assert k.None? ==> forall i | 1 <= i < |ps| :: ps[i] == ps[1..][i - 1];
      if k.None? then None else Some(k.value + 1)
  }

  lemma Assoc(a: string, b: string, c: string)
    ensures a + b + c == a + (b + c)
  {
  }

  lemma TextOfFirst(ps: seq<Piece<Mode>>, k: nat)
    requires k < |ps|
    ensures Text(ps[..k + 1]) == ps[0].text + Text(ps[1..][..k])
  {
    assert ps[..k + 1][1..] == ps[1..][..k];
  }

  lemma {:induction false} SegsByCut(cur: string, ps: seq<Piece<Mode>>)
    ensures var k := FirstCut(ps);
            Segs(cur, ps) ==
            if k.None? then [cur + Text(ps)] else [cur + Text(ps[..k.value])] + Segs("", ps[k.value + 1..])
    decreases |ps|
  {
    if ps == [] {
    } else if Cut(ps[0]) {
      assert ps[..0] == [] && cur + "" == cur;
    } else {
      SegsByCut(cur + ps[0].text, ps[1..]);
      var k := FirstCut(ps[1..]);
      if k.None? {
        Assoc(cur, ps[0].text, Text(ps[1..]));
      } else {
        TextOfFirst(ps, k.value);
        Assoc(cur, ps[0].text, Text(ps[1..][..k.value]));
        assert ps[1..][k.value + 1..] == ps[k.value + 2..];
      }
    }
  }

  // ---------------------------------------------------------- looking ahead

  /** Text that no token can straddle into: nothing, or a space or semicolon first. */
  predicate InertText(x: string) {
    x == "" || IsSpace(x[0]) || x[0] == ';'
  }

  predicate TagOk(m: Mode) {
    m.Dollar? ==> forall c | c in m.tag :: c == '$' || IdentChar(c)
  }

  lemma {:induction false} IdentRunPrefix(c: string, x: string)
    ensures IdentRun(c) < |c| ==> IdentRun(c + x) == IdentRun(c)
    ensures IdentRun(c) == |c| ==> IdentRun(c + x) == |c| + IdentRun(x)
    decreases |c|
  {
    if c == "" {
      assert c + x == x;
    } else {
      assert (c + x)[0] == c[0] && (c + x)[1..] == c[1..] + x;
      IdentRunPrefix(c[1..], x);
    }
  }

  lemma DollarTagPrefix(c: string, x: string)
    requires c != ""
    ensures DollarTag(c).Some? ==> DollarTag(c + x) == DollarTag(c)
    ensures DollarTag(c + x).Some? && |DollarTag(c + x).value| <= |c| ==> DollarTag(c) == DollarTag(c + x)
    ensures InertText(x) ==> DollarTag(c + x) == DollarTag(c)
  {
    if c[0] == '$' {
      assert (c + x)[0] == '$' && (c + x)[1..] == c[1..] + x;
      IdentRunPrefix(c[1..], x);
      var k := IdentRun(c[1..]);
      if k < |c[1..]| {
        assert (c + x)[..k + 2] == c[..k + 2];
      } else if x != "" && InertText(x) {
        assert IdentRun(x) == 0;
      }
    }
  }

  lemma TagCharsOk(r: string)
    requires DollarTag(r).Some?
    ensures TagOk(Dollar(DollarTag(r).value))
  {
    var k := IdentRun(r[1..]);
    var t := r[..k + 2];
    forall c | c in t ensures c == '$' || IdentChar(c) {
      var i :| 0 <= i < |t| && t[i] == c;
      if 0 < i <= k { assert IdentChar(r[1..][i - 1]); }
    }
  }

  lemma StepTagOk(r: string, m: Mode)
    requires r != "" && TagOk(m)
    ensures TagOk(Step(r, m).1)
  {
    if m.Code? && DollarTag(r).Some? {
      TagCharsOk(r);
    }
  }

  /** What follows `c` does not matter to a step that stays within `c`. */
  lemma StepPrefix(c: string, x: string, m: Mode)
    requires c != "" && Step(c + x, m).0 <= |c|
    ensures Step(c, m) == Step(c + x, m)
  {
    assert (c + x)[0] == c[0];
    assert |c| > 1 ==> (c + x)[1] == c[1];
    DollarTagPrefix(c, x);
    if m.Dollar? && m.tag <= c + x && |m.tag| <= |c| {
      assert m.tag == (c + x)[..|m.tag|] == c[..|m.tag|];
    }
  }

  lemma TagWithin(tag: string, c: string, x: string)
    requires InertText(x) && TagOk(Dollar(tag))
    ensures tag <= c + x <==> tag <= c
  {
    var w := c + x;
    if |tag| <= |c| {
      assert w[..|tag|] == c[..|tag|];
    } else if |tag| <= |w| {
      assert w[|c|] == x[0] && w[|c|] !in tag;
      assert tag[|c|] in tag;
    }
  }

  /** Inert text after `c` does not change the step. */
  lemma StepInert(c: string, x: string, m: Mode)
    requires c != "" && InertText(x) && TagOk(m)
    ensures Step(c + x, m) == Step(c, m)
  {
    assert (c + x)[0] == c[0];
    assert |c| > 1 ==> (c + x)[1] == c[1];
    assert |c| == 1 && x != "" ==> (c + x)[1] == x[0];
    DollarTagPrefix(c, x);
    if m.Dollar? {
      TagWithin(m.tag, c, x);
    }
  }

  /** The facts about Step that scanning needs. */
  lemma StepLocal()
    ensures Progress(Step) && Local(Step)
  {
    forall c: string, x: string, m: Mode {:trigger Step(c + x, m)} | c != "" && Step(c + x, m).0 <= |c|
      ensures Step(c, m) == Step(c + x, m)
    {
      StepPrefix(c, x, m);
    }
  }

  lemma StepPasses(x: string)
    requires InertText(x)
    ensures Progress(Step) && Keeps(Step, TagOk) && Inert(Step, TagOk, x)
  {
    forall c: string, m: Mode {:trigger Step(c + x, m)} | c != "" && TagOk(m)
      ensures Step(c + x, m) == Step(c, m)
    {
      StepInert(c, x, m);
    }
    forall r: string, m: Mode | r != "" && TagOk(m) ensures TagOk(Step(r, m).1) {
      StepTagOk(r, m);
    }
  }

  /** The mode after a text read from code. */
  function End(r: string): Mode {
    StepProgress();
    ModeAfter(Step, r, Code)
  }

  // ------------------------------------------------------------ white space

  predicate AllSpace(x: string) {
    forall c | c in x :: IsSpace(c)
  }

  /** Tags begin with a dollar sign. */
  predicate TagShape(m: Mode) {
    m.Dollar? ==> m.tag != "" && m.tag[0] == '$'
  }

  lemma {:induction false} TagShapeKept(c: string, m: Mode)
    requires TagShape(m) && Progress(Step)
    ensures TagShape(ModeAfter(Step, c, m))
    decreases |c|
  {
    if c != "" {
      TagShapeKept(c[Step(c, m).0..], Step(c, m).1);
    }
  }

  /** White space leads back to code only from code or from a line comment. */
  lemma {:induction false} SpaceToCode(x: string, m: Mode)
    requires AllSpace(x) && TagShape(m) && Progress(Step) && ModeAfter(Step, x, m) == Code
    ensures m == Code || m == Line
    decreases |x|
  {
    if x != "" && m != Code && m != Line {
      assert x[0] in x && Step(x, m) == (1, m);
      assert AllSpace(x[1..]);
      SpaceToCode(x[1..], m);
    }
  }

  /** A leading space is code by itself. */
  lemma SpaceFirst(w: char, r: string)
    requires IsSpace(w)
    ensures Lex([w] + r) == [Piece([w], Code)] + Lex(r)
    ensures End([w] + r) == End(r)
  {
    var t := [w] + r;
    assert t[0] == w && t[1..] == r && t[..1] == [w];
    assert Step(t, Code) == (1, Code);
  }

  lemma {:induction false} TrimStartSplit(s: string)
    ensures TrimStart(s) != "" ==> !IsSpace(TrimStart(s)[0])
    ensures NoCuts(Lex(s)) ==> NoCuts(Lex(TrimStart(s)))
    ensures End(s) == End(TrimStart(s))
  {
    if s != "" && IsSpace(s[0]) {
      var w, r := s[0], s[1..];
      TrimStartSplit(r);
      assert s == [w] + r;
      SpaceFirst(w, r);
      if NoCuts(Lex(s)) { NoCutsTail(Piece([w], Code), Lex(r)); }
    }
  }

  lemma NoCutsTail(p: Piece<Mode>, ps: seq<Piece<Mode>>)
    requires NoCuts([p] + ps)
    ensures NoCuts(ps)
  {
    forall i | 0 <= i < |ps| ensures !Cut(ps[i]) {
      assert ([p] + ps)[i + 1] == ps[i];
    }
  }

  lemma {:induction false} TrimEndSplit(s: string) returns (trail: string)
    ensures s == TrimEnd(s) + trail && AllSpace(trail)
    ensures TrimEnd(s) != "" ==> !IsSpace(TrimEnd(s)[|TrimEnd(s)| - 1]) && s != "" && TrimEnd(s)[0] == s[0]
  {
    if s != "" && IsSpace(s[|s| - 1]) {
      var trail1 := TrimEndSplit(s[..|s| - 1]);
      trail := trail1 + [s[|s| - 1]];
      assert s == s[..|s| - 1] + [s[|s| - 1]];
    } else {
      trail := "";
      assert s + trail == s;
    }
  }

  /** A trimmed, non-empty statement without a cut. */
  predicate Solid(t: string) {
    t != "" && !IsSpace(t[0]) && !IsSpace(t[|t| - 1]) && NoCuts(Lex(t))
  }

  /** A solid statement that a newline and a semicolon end. */
  predicate Closed(t: string) {
    Solid(t) && (End(t) == Code || End(t) == Line)
  }

  lemma TrimSolid(seg: string)
    requires NoCuts(Lex(seg)) && Trim(seg) != ""
    ensures Solid(Trim(seg))
    ensures End(seg) == Code ==> Closed(Trim(seg))
  {
    TrimStartSplit(seg);
    var s1 := TrimStart(seg);
    var trail := TrimEndSplit(s1);
    var t := TrimEnd(s1);
    assert InertText(trail) by { if trail != "" { assert trail[0] in trail; } }
    StepPasses(trail);
    Continue(Step, TagOk, t, trail, Code);
    assert forall i | 0 <= i < |Lex(t)| :: Lex(t)[i] == Lex(s1)[i];
    if End(seg) == Code {
      TagShapeKept(t, Code);
      SpaceToCode(trail, End(t));
    }
  }

  lemma TrimOfSolid(t: string)
    requires t != "" && !IsSpace(t[0]) && !IsSpace(t[|t| - 1])
    ensures Trim(t) == t && Trim(t + "\n") == t
  {
    assert (t + "\n")[0] == t[0];
    assert (t + "\n")[..|t|] == t;
  }

  // ------------------------------------------------------- splitting again

  /** What one segment contributes to the statements. */
  function Kept1(seg: string): seq<string> {
    if Trim(seg) == "" then [] else [Trim(seg)]
  }

  lemma KeptCons(seg: string, segs: seq<string>)
    ensures Kept([seg] + segs) == Kept1(seg) + Kept(segs)
  {
    assert ([seg] + segs)[1..] == segs;
  }

  /** The statements of a script without a cut. */
  lemma Uncut(s: string)
    requires NoCuts(Lex(s))
    ensures Statements(s) == Kept1(s)
  {
    SegsByCut("", Lex(s));
    TextOfPieces(Step, s, Code);
    assert "" + s == s;
    KeptCons(s, []);
    assert [s] + [] == [s];
  }

  /** The statements of a script whose first cut follows `seg` and precedes `rest`. */
  lemma CutAfter(ps: seq<Piece<Mode>>, k: nat, seg: string, rest: string)
    requires k < |ps| && FirstCut(ps) == Some(k)
    requires Text(ps[..k]) == seg && Lex(rest) == ps[k + 1..]
    ensures Kept(Segs("", ps)) == Kept1(seg) + Statements(rest)
  {
    SegsByCut("", ps);
    assert "" + seg == seg;
    KeptCons(seg, Segs("", ps[k + 1..]));
  }

  lemma {:induction false} FirstCutIs(ps: seq<Piece<Mode>>, k: nat)
    requires k < |ps| && Cut(ps[k]) && NoCuts(ps[..k])
    ensures FirstCut(ps) == Some(k)
  {
    if k > 0 {
      assert !Cut(ps[..k][0]);
      assert ps[1..][..k - 1] == ps[..k][1..];
      FirstCutIs(ps[1..], k - 1);
    }
  }

  /** After a cut the scanner is in code. */
  lemma {:induction false} CutThenCode(r: string, k: nat, m: Mode)
    requires Progress(Step) && k < |Pieces(Step, r, m)| && Cut(Pieces(Step, r, m)[k])
    ensures ModeAt(Step, r, m, k + 1) == Code
    decreases |r|
  {
    var n, m' := Step(r, m).0, Step(r, m).1;
    var qs := Pieces(Step, r[n..], m');
    NextPiece(r, m, qs);
    NextMode(r, m, k);
    if k == 0 {
      CutIsCode(r, m);
      FirstMode(r[n..], m');
    } else {
      CutThenCode(r[n..], k - 1, m');
    }
  }

  lemma CutIsCode(r: string, m: Mode)
    requires r != "" && Cut(Piece(r[..Step(r, m).0], m))
    ensures Step(r, m).1 == Code
  {
    assert r[0] == r[..Step(r, m).0][0];
  }

  lemma NextMode(r: string, m: Mode, k: nat)
    requires Progress(Step) && r != "" && k < |Pieces(Step, r, m)|
    requires k <= |Pieces(Step, r[Step(r, m).0..], Step(r, m).1)|
    ensures ModeAt(Step, r, m, k + 1) == ModeAt(Step, r[Step(r, m).0..], Step(r, m).1, k)
  {
  }

  /** The pieces after the first are those of the rest, and the last mode is theirs. */
  lemma NextPiece(r: string, m: Mode, qs: seq<Piece<Mode>>)
    requires Progress(Step) && r != "" && qs == Pieces(Step, r[Step(r, m).0..], Step(r, m).1)
    ensures Pieces(Step, r, m) == [Piece(r[..Step(r, m).0], m)] + qs
    ensures ModeAfter(Step, r, m) == ModeAfter(Step, r[Step(r, m).0..], Step(r, m).1)
  {
  }

  lemma FirstMode(r: string, m: Mode)
    requires Progress(Step)
    ensures ModeAt(Step, r, m, 0) == m
  {
  }

  /** What the first cut of `s` separates: a segment that ends in code, and the rest. */
  lemma CutSplit(s: string, k: nat)
    requires FirstCut(Lex(s)) == Some(k)
    ensures var ps := Lex(s); var seg, rest := Text(ps[..k]), Text(ps[k + 1..]);
            && Lex(seg) == ps[..k] && End(seg) == Code
            && Lex(rest) == ps[k + 1..] && |rest| < |s|
            && Statements(s) == Kept1(seg) + Statements(rest)
  {
    StepLocal();
    var ps := Lex(s);
    PiecesSplit(Step, s, Code, k);
    PiecesSplit(Step, s, Code, k + 1);
    CutThenCode(s, k, Code);
    CutAfter(ps, k, Text(ps[..k]), Text(ps[k + 1..]));
    TextSplit(ps, k);
    TextOfPieces(Step, s, Code);
    assert ps[k..][1..] == ps[k + 1..] && ps[k..][0] == ps[k];
  }

  predicate AllSolid(ts: seq<string>) {
    forall i | 0 <= i < |ts| :: Solid(ts[i])
  }

  predicate AllClosed(ts: seq<string>) {
    forall i | 0 <= i < |ts| :: Closed(ts[i])
  }

  predicate ClosedButLast(ts: seq<string>) {
    forall i | 0 <= i < |ts| - 1 :: Closed(ts[i])
  }

  lemma KeptSegment(seg: string)
    requires NoCuts(Lex(seg))
    ensures |Kept1(seg)| <= 1 && AllSolid(Kept1(seg)) && (End(seg) == Code ==> AllClosed(Kept1(seg)))
  {
    if Trim(seg) != "" { TrimSolid(seg); }
  }

  lemma ClosedThen(a: seq<string>, b: seq<string>)
    requires AllSolid(a) && AllClosed(a) && AllSolid(b) && ClosedButLast(b)
    ensures AllSolid(a + b) && ClosedButLast(a + b)
  {
  }

  /** Every statement kept is solid, and every one but the last is closed. */
  lemma {:induction false} KeptSolid(s: string)
    ensures AllSolid(Statements(s)) && ClosedButLast(Statements(s))
    decreases |s|
  {
    var ps := Lex(s);
    var cut := FirstCut(ps);
    if cut.None? {
      Uncut(s);
      KeptSegment(s);
    } else {
      CutSplit(s, cut.value);
      var seg, rest := Text(ps[..cut.value]), Text(ps[cut.value + 1..]);
      KeptSegment(seg);
      KeptSolid(rest);
      ClosedThen(Kept1(seg), Statements(rest));
    }
  }

  lemma TextCons(p: Piece<Mode>, qs: seq<Piece<Mode>>, k: nat)
    requires k < |qs| && FirstCut(qs) == Some(k) && !Cut(p)
    ensures var ps := [p] + qs;
            && FirstCut(ps) == Some(k + 1) && ps[k + 2..] == qs[k + 1..]
            && Text(ps[..k + 1]) == p.text + Text(qs[..k])
  {
    var ps := [p] + qs;
    assert ps[1..] == qs;
    assert ps[..k + 1][1..] == qs[..k];
  }

  /** A leading newline does not change the statements. */
  lemma NewlineFirst(r: string)
    ensures Statements("\n" + r) == Statements(r)
  {
    var nl, qs := Piece("\n", Code), Lex(r);
    SpaceFirst('\n', r);
    assert ("\n" + r)[1..] == r;
    if FirstCut(qs).None? {
      assert NoCuts([nl] + qs);
      Uncut(r);
      Uncut("\n" + r);
    } else {
      var k := FirstCut(qs).value;
      var seg := Text(qs[..k]);
      CutSplit(r, k);
      TextCons(nl, qs, k);
      CutAfter([nl] + qs, k + 1, "\n" + seg, Text(qs[k + 1..]));
      assert ("\n" + seg)[1..] == seg;
    }
  }

  const SEPARATOR: string := "\n;\n"

  /** The separator, read in code or in a line comment. */
  lemma SeparatorPieces(r: string, m: Mode)
    requires Progress(Step) && (m == Code || m == Line)
    ensures Pieces(Step, "\n;" + r, m) == [Piece("\n", m), Piece(";", Code)] + Lex(r)
  {
    var x := "\n;" + r;
    assert x[0] == '\n' && x[..1] == "\n" && x[1..] == ";" + r;
    var y := ";" + r;
    assert y[0] == ';' && y[..1] == ";" && y[1..] == r;
    assert Step(x, m) == (1, Code) && Step(y, Code) == (1, Code);
  }

  /** A closed text and a separator are read one after the other. */
  lemma ClosedPieces(t: string, y: string)
    requires Closed(t)
    ensures Lex(t + ("\n;" + y)) == Lex(t) + ([Piece("\n", End(t)), Piece(";", Code)] + Lex(y))
  {
    var x := "\n;" + y;
    assert x[0] == '\n';
    StepPasses(x);
    Continue(Step, TagOk, t, x, Code);
    SeparatorPieces(y, End(t));
  }

  lemma ClosedStatements(t: string, y: string)
    requires Closed(t)
    ensures Statements(t + ("\n;" + y)) == Kept1(t + "\n") + Statements(y)
  {
    ClosedPieces(t, y);
    var nl := Piece("\n", End(t));
    var ps := Lex(t + ("\n;" + y));
    assert ps == Lex(t) + [nl, Piece(";", Code)] + Lex(y);
    SeparatedText(Lex(t), nl, ps, Lex(y));
    TextOfPieces(Step, t, Code);
    CutAfter(ps, |Lex(t)| + 1, t + "\n", y);
  }

  lemma ClosedFirst(t: string, r: string)
    requires Closed(t)
    ensures Statements(t + SEPARATOR + r) == [t] + Statements(r)
  {
    SeparatorText(t, r);
    ClosedStatements(t, "\n" + r);
    TrimOfSolid(t);
    NewlineFirst(r);
  }

  lemma SeparatorText(t: string, r: string)
    ensures t + SEPARATOR + r == t + ("\n;" + ("\n" + r))
  {
  }

  lemma SeparatedText(ts: seq<Piece<Mode>>, nl: Piece<Mode>, ps: seq<Piece<Mode>>, ys: seq<Piece<Mode>>)
    requires NoCuts(ts) && nl.text == "\n" && ps == ts + [nl, Piece(";", Code)] + ys
    ensures FirstCut(ps) == Some(|ts| + 1) && Text(ps[..|ts| + 1]) == Text(ts) + "\n" && ps[|ts| + 2..] == ys
  {
    var k := |ts| + 1;
    assert ps[..k] == ts + [nl];
    assert ps[k] == Piece(";", Code);
    FirstCutIs(ps, k);
    TextSplit(ps[..k], |ts|);
    assert ps[..k][..|ts|] == ts && ps[..k][|ts|..] == [nl];
    assert [nl][1..] == [];
    assert Text([nl]) == "\n";
  }

  /** Statements that are solid, and closed but for the last, are found again after being rejoined. */
  lemma {:induction false} StatementsOfJoin(ts: seq<string>)
    requires AllSolid(ts) && ClosedButLast(ts)
    ensures Statements(Join(ts, SEPARATOR)) == ts
    decreases |ts|
  {
    if ts == [] {
      Uncut("");
    } else if |ts| == 1 {
      TrimOfSolid(ts[0]);
      Uncut(ts[0]);
    } else {
      StatementsOfJoin(ts[1..]);
      ClosedFirst(ts[0], Join(ts[1..], SEPARATOR));
    }
  }

  /** Splitting the statements rejoined by newline, semicolon, newline returns the same statements. */
  lemma ResplitStable(s: string)
    ensures Statements(Join(Statements(s), SEPARATOR)) == Statements(s)
  {
    KeptSolid(s);
    StatementsOfJoin(Statements(s));
  }

  // ------------------------------------------------- what trimming takes away

  /** Only white space and line terminators of ECMA-262 (sections 12.2 and 12.3), by code point. */
  predicate Blank(x: string) {
    forall i | 0 <= i < |x| ::
      || x[i] as int in {0x09, 0x0A, 0x0B, 0x0C, 0x0D, 0x20, 0xA0, 0x1680}
      || x[i] as int in {0x2028, 0x2029, 0x202F, 0x205F, 0x3000, 0xFEFF}
      || 0x2000 <= x[i] as int <= 0x200A
  }

  lemma SpaceIsBlank(c: char)
    ensures IsSpace(c) <==> Blank([c])
  {
    assert [c][0] == c;
  }

  lemma AllSpaceIsBlank(x: string)
    ensures AllSpace(x) <==> Blank(x)
  {
    forall i | 0 <= i < |x| ensures IsSpace(x[i]) <==> Blank([x[i]]) {
      SpaceIsBlank(x[i]);
    }
    forall i | 0 <= i < |x| ensures Blank([x[i]]) ==> [x[i]][0] == x[i] {
    }
    if Blank(x) {
      forall c | c in x ensures IsSpace(c) {
        var i :| 0 <= i < |x| && x[i] == c;
        assert Blank([c]);
      }
    } else {
      var i :| 0 <= i < |x| && !Blank([x[i]]);
      assert x[i] in x;
    }
  }

  /** t is seg without the blanks at both ends, and there is something of it. */
  ghost predicate IsTrimmed(seg: string, t: string) {
    && t != "" && !Blank([t[0]]) && !Blank([t[|t| - 1]])
    && exists a, b :: seg == a + t + b && Blank(a) && Blank(b)
  }

  /** The statements are the trimmed segments in their order, without those that are all blank. */
  ghost predicate AreTrimmed(segs: seq<string>, statements: seq<string>) {
    if segs == [] then statements == []
    else if Blank(segs[0]) then AreTrimmed(segs[1..], statements)
    else statements != [] && IsTrimmed(segs[0], statements[0]) && AreTrimmed(segs[1..], statements[1..])
  }

  lemma {:induction false} LeadSplit(s: string) returns (lead: string)
    ensures s == lead + TrimStart(s) && Blank(lead)
    ensures TrimStart(s) != "" ==> !Blank([TrimStart(s)[0]])
  {
    if s != "" && IsSpace(s[0]) {
      var lead1 := LeadSplit(s[1..]);
      SpaceIsBlank(s[0]);
      lead := [s[0]] + lead1;
      assert s == [s[0]] + s[1..];
    } else {
      lead := "";
      if s != "" { SpaceIsBlank(s[0]); }
    }
  }

  lemma TrimSplit(seg: string) returns (lead: string, trail: string)
    ensures seg == lead + Trim(seg) + trail && Blank(lead) && Blank(trail)
    ensures Trim(seg) != "" ==> !Blank([Trim(seg)[0]]) && !Blank([Trim(seg)[|Trim(seg)| - 1]])
  {
    lead := LeadSplit(seg);
    var s1, t := TrimStart(seg), Trim(seg);
    trail := TrimEndSplit(s1);
    AllSpaceIsBlank(trail);
    Assoc(lead, t, trail);
    if t != "" { SpaceIsBlank(t[|t| - 1]); }
  }

  lemma TrimIsTrimmed(seg: string)
    ensures Trim(seg) == "" <==> Blank(seg)
    ensures Trim(seg) != "" ==> IsTrimmed(seg, Trim(seg))
  {
    var lead, trail := TrimSplit(seg);
    var t := Trim(seg);
    if t != "" {
      assert seg[|lead|] == t[0] == [t[0]][0];
    }
  }

  lemma {:induction false} KeptAreTrimmed(segs: seq<string>)
    ensures AreTrimmed(segs, Kept(segs))
  {
    if segs != [] {
      TrimIsTrimmed(segs[0]);
      KeptAreTrimmed(segs[1..]);
      if Trim(segs[0]) == "" {
        assert Kept(segs) == [] + Kept(segs[1..]) == Kept(segs[1..]);
      } else {
        assert Kept(segs)[1..] == Kept(segs[1..]);
      }
    }
  }

  /** Each statement is a segment of the script without the blanks around it; only blank segments yield none. */
  lemma StatementsAreTrimmed(s: string)
    ensures AreTrimmed(Segs("", Lex(s)), Statements(s))
  {
    KeptAreTrimmed(Segs("", Lex(s)));
  }

  /** The characters from ! to ~, in order. */
  function Printable(x: string): string {
    if x == "" then ""
    else (if '!' <= x[0] <= '~' then [x[0]] else "") + Printable(x[1..])
  }

  lemma {:induction false} PrintableJoined(a: string, b: string)
    ensures Printable(a + b) == Printable(a) + Printable(b)
  {
    if a == "" {
      assert a + b == b;
    } else {
      assert (a + b)[0] == a[0] && (a + b)[1..] == a[1..] + b;
      PrintableJoined(a[1..], b);
    }
  }

  lemma {:induction false} BlankNotPrintable(x: string)
    requires Blank(x)
    ensures Printable(x) == ""
  {
    if x != "" {
      BlankNotPrintable(x[1..]);
    }
  }

  lemma TrimmedPrintable(seg: string, t: string)
    requires IsTrimmed(seg, t)
    ensures Printable(seg) == Printable(t)
  {
    var a, b :| seg == a + t + b && Blank(a) && Blank(b);
    PrintableJoined(a + t, b);
    PrintableJoined(a, t);
    BlankNotPrintable(a);
    BlankNotPrintable(b);
  }

  lemma {:induction false} PrintableKept(segs: seq<string>, statements: seq<string>)
    requires AreTrimmed(segs, statements)
    ensures Printable(Join(statements, "")) == Printable(Join(segs, ""))
    decreases |segs|
  {
    if segs != [] {
      JoinCons(segs);
      PrintableJoined(segs[0], Join(segs[1..], ""));
      if Blank(segs[0]) {
        BlankNotPrintable(segs[0]);
        PrintableKept(segs[1..], statements);
      } else {
        TrimmedPrintable(segs[0], statements[0]);
        PrintableKept(segs[1..], statements[1..]);
        JoinCons(statements);
        PrintableJoined(statements[0], Join(statements[1..], ""));
      }
    }
  }

  lemma JoinCons(segs: seq<string>)
    requires segs != []
    ensures Join(segs, "") == segs[0] + Join(segs[1..], "")
  {
    if |segs| == 1 {
      assert segs[0] + "" == segs[0];
    } else {
      assert segs[0] + "" == segs[0];
    }
  }

  /** So the printable characters of the statements are, in order, those of the script without its cuts. */
  lemma NothingPrintableLost(s: string)
    ensures Printable(Join(Statements(s), "")) == Printable(Join(Segs("", Lex(s)), ""))
  {
    StatementsAreTrimmed(s);
    PrintableKept(Segs("", Lex(s)), Statements(s));
  }

  // ---------------------------------------------------- what is read as one span

  /** `x` is in `text` at position i. */
  predicate OccursAt(text: string, x: string, i: nat)
    requires i <= |text|
  {
    x <= text[i..]
  }

  /** Read in mode m, `text` holds no cut, and `rest` is then read from code. */
  ghost predicate Reads(m: Mode, text: string, rest: string) {
    StepProgress();
    exists ps :: NoCuts(ps) && Text(ps) == text && Pieces(Step, text + rest, m) == ps + Lex(rest)
  }

  /** `text` is one span of the script: before the rest it holds no cut, and the rest is read as if it stood alone. */
  ghost predicate IsSpan(text: string, rest: string) {
    Reads(Code, text, rest)
  }

  lemma ReadsMore(m: Mode, first: string, m': Mode, text: string, rest: string)
    requires first != "" && (m != Code || first[0] != ';') && Step(first + (text + rest), m) == (|first|, m')
    requires Reads(m', text, rest)
    ensures Reads(m, first + text, rest)
  {
    StepProgress();
    var ps :| NoCuts(ps) && Text(ps) == text && Pieces(Step, text + rest, m') == ps + Lex(rest);
    var r, p := first + (text + rest), Piece(first, m);
    assert r[..|first|] == first && r[|first|..] == text + rest;
    assert Pieces(Step, r, m) == [p] + (ps + Lex(rest));
    assert [p] + (ps + Lex(rest)) == ([p] + ps) + Lex(rest);
    assert ([p] + ps)[1..] == ps && first + text + rest == r;
    assert !Cut(p);
  }

  lemma ReadsNothing(rest: string)
    ensures Reads(Code, "", rest)
  {
    StepProgress();
    assert "" + rest == rest;
    assert Text<Mode>([]) == "" && [] + Lex(rest) == Lex(rest);
  }

  /** In mode m, `text` is passed by one character, and m stays. */
  predicate Passes(m: Mode, text: string) {
    Step(text, m) == (1, m)
  }

  lemma {:induction false} ReadsThrough(m: Mode, body: string, close: string, rest: string)
    requires m != Code && close != "" && Step(close + rest, m) == (|close|, Code)
    requires forall i | 0 <= i < |body| :: Passes(m, body[i..] + (close + rest))
    ensures Reads(m, body + close, rest)
    decreases |body|
  {
    if body == "" {
      ReadsNothing(rest);
      assert "" + rest == rest && close + "" == close && "" + close == close;
      ReadsMore(m, close, Code, "", rest);
    } else {
      var first, tail := body[..1], body[1..];
      forall i | 0 <= i < |tail| ensures Passes(m, tail[i..] + (close + rest)) {
        assert tail[i..] == body[i + 1..];
        assert Passes(m, body[i + 1..] + (close + rest));
      }
      ReadsThrough(m, tail, close, rest);
      assert Passes(m, body[0..] + (close + rest)) && body[0..] == body;
      HeadAndTail(body, close, rest);
      ReadsMore(m, first, m, tail + close, rest);
    }
  }

  lemma HeadAndTail(body: string, close: string, rest: string)
    requires body != ""
    ensures body + (close + rest) == body[..1] + (body[1..] + close + rest)
    ensures body[..1] + (body[1..] + close) == body + close
  {
  }

  /** A line comment runs to the end of its line, whatever it contains. */
  lemma LineCommentIsSpan(body: string, rest: string)
    requires '\n' !in body
    ensures IsSpan("--" + (body + "\n"), rest)
  {
    forall i | 0 <= i < |body| ensures Passes(Line, body[i..] + ("\n" + rest)) {
      assert (body[i..] + ("\n" + rest))[0] == body[i];
    }
    ReadsThrough(Line, body, "\n", rest);
    ReadsMore(Code, "--", Line, body + "\n", rest);
  }

  /** A block comment runs to the first close, whatever it contains. */
  lemma BlockCommentIsSpan(body: string, rest: string)
    requires forall i | 0 <= i < |body| :: !OccursAt(body + "*/", "*/", i)
    ensures IsSpan("/*" + (body + "*/"), rest)
  {
    forall i | 0 <= i < |body| ensures Passes(Block, body[i..] + ("*/" + rest)) {
      assert !OccursAt(body + "*/", "*/", i);
      PairWithin(body, i, rest);
    }
    ReadsThrough(Block, body, "*/", rest);
    ReadsMore(Code, "/*", Block, body + "*/", rest);
  }

  lemma PairWithin(body: string, i: nat, rest: string)
    requires i < |body|
    ensures Pair(body[i..] + ("*/" + rest), '*', '/') ==> OccursAt(body + "*/", "*/", i)
  {
    var x, y := body[i..] + ("*/" + rest), (body + "*/")[i..];
    assert |y| >= 2 && y[0] == x[0] && y[1] == x[1];
  }

  /** A dollar-quoted text runs to the first repetition of its tag, whatever it contains. */
  lemma DollarQuoteIsSpan(tag: string, body: string, rest: string)
    requires IsTag(tag)
    requires forall i | 0 <= i < |body| :: !OccursAt(body + tag, tag, i)
    ensures IsSpan(tag + (body + tag), rest)
  {
    forall i | 0 <= i < |body| ensures Passes(Dollar(tag), body[i..] + (tag + rest)) {
      assert !OccursAt(body + tag, tag, i);
      TagOccurs(tag, body, i, rest);
    }
    assert tag <= tag + rest;
    ReadsThrough(Dollar(tag), body, tag, rest);
    DollarTagIff(tag + (body + tag + rest), tag);
    ReadsMore(Code, tag, Dollar(tag), body + tag, rest);
  }

  lemma TagOccurs(tag: string, body: string, i: nat, rest: string)
    requires i < |body|
    ensures tag <= body[i..] + (tag + rest) ==> OccursAt(body + tag, tag, i)
  {
    var x, y := body[i..] + (tag + rest), (body + tag)[i..];
    assert y == body[i..] + tag;
    if tag <= x {
      forall k | 0 <= k < |tag| ensures y[k] == tag[k] {
        assert x[k] == tag[k];
      }
    }
  }

  /** A text with each quote doubled. */
  function DoubleQuotes(body: string): string {
    if body == "" then ""
    else (if body[0] == '\'' then "''" else [body[0]]) + DoubleQuotes(body[1..])
  }

  lemma {:induction false} QuotedRun(body: string, rest: string)
    requires rest == "" || rest[0] != '\''
    ensures Reads(Quote, DoubleQuotes(body) + "'", rest)
  {
    if body == "" {
      ReadsNothing(rest);
      assert "" + rest == rest && "" + "'" == "'" + "" == "'";
      assert Step("'" + rest, Quote) == (1, Code);
      ReadsMore(Quote, "'", Code, "", rest);
    } else {
      QuotedRun(body[1..], rest);
      var head, tail := if body[0] == '\'' then "''" else [body[0]], DoubleQuotes(body[1..]) + "'";
      assert Step(head + (tail + rest), Quote) == (|head|, Quote);
      ReadsMore(Quote, head, Quote, tail, rest);
      assert head + tail == DoubleQuotes(body) + "'";
    }
  }

  /** A quoted string, its quotes doubled, runs to its closing quote, whatever it contains. */
  lemma QuotedStringIsSpan(body: string, rest: string)
    requires rest == "" || rest[0] != '\''
    ensures IsSpan("'" + (DoubleQuotes(body) + "'"), rest)
  {
    QuotedRun(body, rest);
    var x := DoubleQuotes(body) + "'";
    assert ("'" + (x + rest))[0] == '\'';
    ReadsMore(Code, "'", Quote, x, rest);
  }

  /**
   Any other character stands for itself: unless it begins one of these spans, it is a piece of
   its own, after which the rest is read from code, and it is a cut exactly if it is a semicolon.
   */
  lemma PlainCharacter(c: char, rest: string)
    requires c != '\'' && !("--" <= [c] + rest) && !("/*" <= [c] + rest)
    requires forall tag | tag <= [c] + rest :: !IsTag(tag)
    ensures Lex([c] + rest) == [Piece([c], Code)] + Lex(rest)
    ensures Cut(Lex([c] + rest)[0]) <==> c == ';'
  {
    StepProgress();
    var r := [c] + rest;
    if DollarTag(r).Some? {
      DollarTagIff(r, DollarTag(r).value);
    }
    assert Pair(r, '-', '-') ==> "--" <= r;
    assert Pair(r, '/', '*') ==> "/*" <= r;
    assert r[..1] == [c] && r[1..] == rest;
    assert [c] == ";" <==> c == ';' by {
      assert [c][0] == c;
    }
  }

  /** So a span ends no segment: it is part of the one that goes on in the rest. */
  lemma SpanEndsNothing(text: string, rest: string)
    requires IsSpan(text, rest)
    ensures Segs("", Lex(text + rest)) == Segs(text, Lex(rest))
  {
    StepProgress();
    var ps :| NoCuts(ps) && Text(ps) == text && Pieces(Step, text + rest, Code) == ps + Lex(rest);
    SegsOver("", ps, Lex(rest));
    assert "" + text == text;
  }

  lemma {:induction false} SegsOver(cur: string, ps: seq<Piece<Mode>>, qs: seq<Piece<Mode>>)
    requires NoCuts(ps)
    ensures Segs(cur, ps + qs) == Segs(cur + Text(ps), qs)
    decreases |ps|
  {
    if ps == [] {
      assert ps + qs == qs && cur + "" == cur;
    } else {
      assert (ps + qs)[0] == ps[0] && (ps + qs)[1..] == ps[1..] + qs;
      assert !Cut(ps[0]);
      forall i | 0 <= i < |ps[1..]| ensures !Cut(ps[1..][i]) { assert ps[1..][i] == ps[i + 1]; }
      SegsOver(cur + ps[0].text, ps[1..], qs);
      Assoc(cur, ps[0].text, Text(ps[1..]));
    }
  }
}
