/**
 Left-to-right scanning with modes, for any step function: from the rest of the text and
 the current mode, a step says how many characters the next piece takes and which mode
 follows it. The lexer of SQL scripts is an instance.
 */
module Scanner {
  import opened Wrappers

  type Stepper<!M> = (string, M) -> (nat, M)

  /** A piece of text and the mode in which it was read. */
  datatype Piece<M> = Piece(text: string, mode: M)

  ghost predicate Progress<M(!new)>(step: Stepper<M>) {
    forall r: string, m: M :: r != "" ==> 1 <= step(r, m).0 <= |r|
  }

  function Pieces<M(!new)>(step: Stepper<M>, r: string, m: M): seq<Piece<M>>
    requires Progress(step)
    decreases |r|
  {
    if r == "" then []
    else [Piece(r[..step(r, m).0], m)] + Pieces(step, r[step(r, m).0..], step(r, m).1)
  }

  /** The mode in which the scanner leaves `r`. */
  function ModeAfter<M(!new)>(step: Stepper<M>, r: string, m: M): M
    requires Progress(step)
    decreases |r|
  {
    if r == "" then m else ModeAfter(step, r[step(r, m).0..], step(r, m).1)
  }

  function Text<M>(ps: seq<Piece<M>>): string {
    if ps == [] then "" else ps[0].text + Text(ps[1..])
  }

  lemma {:induction false} TextOfPieces<M(!new)>(step: Stepper<M>, r: string, m: M)
    requires Progress(step)
    ensures Text(Pieces(step, r, m)) == r
    decreases |r|
  {
    if r != "" {
      var n, m' := step(r, m).0, step(r, m).1;
      TextOfPieces(step, r[n..], m');
      assert Pieces(step, r, m)[1..] == Pieces(step, r[n..], m');
      assert r == r[..n] + r[n..];
    }
  }

  lemma {:induction false} TextSplit<M>(ps: seq<Piece<M>>, i: nat)
    requires i <= |ps|
    ensures Text(ps) == Text(ps[..i]) + Text(ps[i..])
  {
    if i == 0 {
      assert ps[..0] == [] && ps[0..] == ps;
    } else {
      TextSplit(ps[1..], i - 1);
      assert ps[..i][1..] == ps[1..][..i - 1] && ps[1..][i - 1..] == ps[i..];
      assert ps[0].text + (Text(ps[1..][..i - 1]) + Text(ps[i..]))
          == ps[0].text + Text(ps[1..][..i - 1]) + Text(ps[i..]);
    }
  }

  /** What follows `c` does not matter to a step that stays within `c`. */
  ghost predicate Local<M(!new)>(step: Stepper<M>) {
    forall c: string, x: string, m: M {:trigger step(c + x, m)} ::
      c != "" && step(c + x, m).0 <= |c| ==> step(c, m) == step(c + x, m)
  }

  /** The mode before piece i, or after them all. */
  function ModeAt<M(!new)>(step: Stepper<M>, r: string, m: M, i: nat): M
    requires Progress(step) && i <= |Pieces(step, r, m)|
  {
    if i < |Pieces(step, r, m)| then Pieces(step, r, m)[i].mode else ModeAfter(step, r, m)
  }

  /** The pieces after the first i are what their own text scans to, from the mode reached. */
  lemma {:induction false} PiecesAfter<M(!new)>(step: Stepper<M>, r: string, m: M, i: nat)
    requires Progress(step) && i <= |Pieces(step, r, m)|
    ensures var ps, x, m' := Pieces(step, r, m), Text(Pieces(step, r, m)[i..]), ModeAt(step, r, m, i);
            Pieces(step, x, m') == ps[i..] && ModeAfter(step, x, m') == ModeAfter(step, r, m)
    decreases |r|
  {
    var ps := Pieces(step, r, m);
    if i == 0 {
      TextOfPieces(step, r, m);
      assert ps[0..] == ps;
      if ps == [] { assert r == ""; }
    } else {
      var n, m' := step(r, m).0, step(r, m).1;
      var qs := Pieces(step, r[n..], m');
      assert ps == [Piece(r[..n], m)] + qs;
      PiecesAfter(step, r[n..], m', i - 1);
      assert ModeAt(step, r, m, i) == ModeAt(step, r[n..], m', i - 1);
      assert ps[i..] == qs[i - 1..];
    }
  }

  /** The first i pieces are what their own text scans to. */
  lemma {:induction false} PiecesBefore<M(!new)>(step: Stepper<M>, r: string, m: M, i: nat)
    requires Progress(step) && Local(step) && i <= |Pieces(step, r, m)|
    ensures var ps, c := Pieces(step, r, m), Text(Pieces(step, r, m)[..i]);
            Pieces(step, c, m) == ps[..i] && ModeAfter(step, c, m) == ModeAt(step, r, m, i)
    decreases |r|
  {
    var ps := Pieces(step, r, m);
    if i == 0 {
      assert ps[..0] == [];
      if ps == [] { assert r == ""; }
    } else {
      var n, m' := step(r, m).0, step(r, m).1;
      var qs := Pieces(step, r[n..], m');
      assert ps == [Piece(r[..n], m)] + qs;
      PiecesBefore(step, r[n..], m', i - 1);
      assert ModeAt(step, r, m, i) == ModeAt(step, r[n..], m', i - 1);
      assert ps[..i] == [Piece(r[..n], m)] + qs[..i - 1];
      TextSplit(ps, i);
      TextOfPieces(step, r, m);
      FirstPiece(step, r, m, qs[..i - 1], Text(ps[i..]));
    }
  }

  /** A first piece followed by the text of others is scanned as itself, whatever came after them. */
  lemma FirstPiece<M(!new)>(step: Stepper<M>, r: string, m: M, qs: seq<Piece<M>>, x: string)
    requires Progress(step) && Local(step) && r != ""
    requires r == Text([Piece(r[..step(r, m).0], m)] + qs) + x
    ensures var n, c := step(r, m).0, Text([Piece(r[..step(r, m).0], m)] + qs);
            step(c, m) == step(r, m) && c != "" && c[..n] == r[..n] && c[n..] == Text(qs)
  {
    var n := step(r, m).0;
    var c := Text([Piece(r[..n], m)] + qs);
    assert ([Piece(r[..n], m)] + qs)[1..] == qs;
    assert c == r[..n] + Text(qs);
    assert step(c + x, m) == step(r, m);
  }

  /** The first i pieces are what their own text scans to, and so are the rest. */
  lemma PiecesSplit<M(!new)>(step: Stepper<M>, r: string, m: M, i: nat)
    requires Progress(step) && Local(step) && i <= |Pieces(step, r, m)|
    ensures var ps := Pieces(step, r, m);
            && Pieces(step, Text(ps[..i]), m) == ps[..i]
            && ModeAfter(step, Text(ps[..i]), m) == ModeAt(step, r, m, i)
            && Pieces(step, Text(ps[i..]), ModeAt(step, r, m, i)) == ps[i..]
            && ModeAfter(step, Text(ps[i..]), ModeAt(step, r, m, i)) == ModeAfter(step, r, m)
  {
    PiecesBefore(step, r, m, i);
    PiecesAfter(step, r, m, i);
  }

  /** `x` cannot take part in a step that begins before it, in any mode of `ok`. */
  ghost predicate Inert<M(!new)>(step: Stepper<M>, ok: M -> bool, x: string) {
    forall c: string, m: M {:trigger step(c + x, m)} ::
      c != "" && ok(m) ==> step(c + x, m) == step(c, m)
  }

  ghost predicate Keeps<M(!new)>(step: Stepper<M>, ok: M -> bool) {
    forall r: string, m: M :: r != "" && ok(m) ==> ok(step(r, m).1)
  }

  /** Scanning `t` and then inert text is scanning the one and then the other. */
  lemma {:induction false} Continue<M(!new)>(step: Stepper<M>, ok: M -> bool, t: string, x: string, m: M)
    requires Progress(step) && Keeps(step, ok) && Inert(step, ok, x) && ok(m)
    ensures ok(ModeAfter(step, t, m))
    ensures Pieces(step, t + x, m) == Pieces(step, t, m) + Pieces(step, x, ModeAfter(step, t, m))
    ensures ModeAfter(step, t + x, m) == ModeAfter(step, x, ModeAfter(step, t, m))
    decreases |t|
  {
    if t == "" {
      assert t + x == x;
    } else {
      var n, m' := step(t, m).0, step(t, m).1;
      assert step(t + x, m) == (n, m');
      assert (t + x)[n..] == t[n..] + x && (t + x)[..n] == t[..n];
      Continue(step, ok, t[n..], x, m');
    }
  }
}
