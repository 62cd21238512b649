// Splitting by delimiters and trimming blanks.
module StringUtil {
  import opened Text

  const BLANKS: set<Byte> := {' ', '\t'}

  /** The stretch from pos to next, left out when empty. */
  function Piece(s: string, pos: nat, next: nat): seq<string>
    requires pos <= next <= |s|
  {
    if next > pos then [s[pos..next]] else []
  }

  /** The nonempty stretches between delimiters, in order, from pos on. */
  function PiecesFrom(s: string, delims: set<Byte>, pos: nat): seq<string>
    requires pos <= |s|
    decreases |s| - pos
  {
    var next := FindFirstOf(s, delims, pos);
    if next == |s| then Piece(s, pos, next) else Piece(s, pos, next) + PiecesFrom(s, delims, next + 1)
  }

  /** What split returns. */
  function Pieces(s: string, delims: set<Byte>): seq<string> {
    PiecesFrom(s, delims, 0)
  }

  lemma Regroup<T>(a: seq<T>, b: seq<T>, c: seq<T>)
    ensures (a + b) + c == a + (b + c)
  {
  }

  /** StringUtil::split; the one-character overloads pass a one-element `delims`. */
  method Split(s: string, delims: set<Byte>) returns (result: seq<string>)
    ensures result == Pieces(s, delims)
  {
    result := [];
    var pos := 0;
    while true
      invariant 0 <= pos <= |s| && result + PiecesFrom(s, delims, pos) == Pieces(s, delims)
      decreases |s| - pos
    {
      var next := FindFirstOf(s, delims, pos);
      if next == |s| { break; }
      Regroup(result, Piece(s, pos, next), PiecesFrom(s, delims, next + 1));
      Append(result, s, pos, next);
      if next > pos {
        result := result + [s[pos..next]];
      }
      pos := next + 1;
    }
    Append(result, s, pos, |s|);
    if pos < |s| {
      result := result + [s[pos..]];
    }
  }

  lemma Append(result: seq<string>, s: string, pos: nat, next: nat)
    requires pos <= next <= |s|
    ensures result + Piece(s, pos, next) == if next > pos then result + [s[pos..next]] else result
    ensures next == |s| ==> s[pos..next] == s[pos..]
  {
    assert result + [] == result;
  }

  /** Splitting from pos is splitting the rest of the text. */
  lemma {:induction false} PiecesShift(s: string, delims: set<Byte>, base: nat, pos: nat)
    requires base <= pos <= |s|
    ensures PiecesFrom(s, delims, pos) == PiecesFrom(s[base..], delims, pos - base)
    decreases |s| - pos
  {
    FindFirstOfShift(s, delims, base, pos);
    var next := FindFirstOf(s, delims, pos);
    Slices(s, base, pos, next);
    if next < |s| {
      PiecesShift(s, delims, base, next + 1);
    }
  }

  lemma Slices(s: string, base: nat, a: nat, b: nat)
    requires base <= a <= b <= |s|
    ensures Piece(s[base..], a - base, b - base) == Piece(s, a, b)
  {
    assert s[base..][a - base..b - base] == s[a..b];
  }

  function Concat(ps: seq<string>): string {
    if ps == [] then [] else ps[0] + Concat(ps[1..])
  }

  /** The text from pos on, without its delimiters. */
  function Strip(s: string, delims: set<Byte>, pos: nat): string
    requires pos <= |s|
    decreases |s| - pos
  {
    if pos == |s| then [] else (if s[pos] in delims then [] else [s[pos]]) + Strip(s, delims, pos + 1)
  }

  predicate IsPiece(p: string, delims: set<Byte>) {
    p != [] && Free(p, delims)
  }

  /** Stripping from pos takes everything up to the next delimiter as it is. */
  lemma {:induction false} StripRun(s: string, delims: set<Byte>, pos: nat, next: nat)
    requires pos <= next <= |s| && forall j :: pos <= j < next ==> s[j] !in delims
    ensures Strip(s, delims, pos) == s[pos..next] + Strip(s, delims, next)
    decreases next - pos
  {
    if pos == next {
      assert s[pos..next] == [];
    } else {
      StripRun(s, delims, pos + 1, next);
      assert s[pos..next] == [s[pos]] + s[pos + 1..next];
      Regroup([s[pos]], s[pos + 1..next], Strip(s, delims, next));
    }
  }

  lemma ConcatStep(s: string, pos: nat, next: nat, rest: seq<string>)
    requires pos <= next <= |s|
    ensures Concat(Piece(s, pos, next) + rest) == s[pos..next] + Concat(rest)
  {
    if pos == next {
      assert [] + rest == rest;
    } else {
      assert ([s[pos..next]] + rest)[1..] == rest;
    }
  }

  /** Every piece is nonempty and free of delimiters ... */
  lemma {:induction false} PiecesArePieces(s: string, delims: set<Byte>, pos: nat)
    requires pos <= |s|
    ensures forall p :: p in PiecesFrom(s, delims, pos) ==> IsPiece(p, delims)
    decreases |s| - pos
  {
    var next := FindFirstOf(s, delims, pos);
    assert Free(s[pos..next], delims);
    if next < |s| {
      PiecesArePieces(s, delims, next + 1);
    }
  }

  /** ... and together they are the text without its delimiters. */
  lemma {:induction false} PiecesAreTheRest(s: string, delims: set<Byte>, pos: nat)
    requires pos <= |s|
    ensures Concat(PiecesFrom(s, delims, pos)) == Strip(s, delims, pos)
    decreases |s| - pos
  {
    var next := FindFirstOf(s, delims, pos);
    StripRun(s, delims, pos, next);
    if next < |s| {
      PiecesAreTheRest(s, delims, next + 1);
      ConcatStep(s, pos, next, PiecesFrom(s, delims, next + 1));
    } else {
      ConcatStep(s, pos, next, []);
      assert Piece(s, pos, next) + [] == Piece(s, pos, next);
    }
  }

  function Join(ps: seq<string>, d: Byte): string {
    if ps == [] then [] else if |ps| == 1 then ps[0] else ps[0] + [d] + Join(ps[1..], d)
  }

  /** Splitting undoes joining, for any list of nonempty delimiter-free pieces. */
  lemma {:induction false} SplitUndoesJoin(ps: seq<string>, d: Byte)
    requires forall p :: p in ps ==> IsPiece(p, {d})
    ensures Pieces(Join(ps, d), {d}) == ps
  {
    if |ps| >= 1 { assert ps[0] in ps && IsPiece(ps[0], {d}); }
    if |ps| == 1 {
      FindFirstOfIs(ps[0], {d}, 0, |ps[0]|);
      assert ps[0][0..|ps[0]|] == ps[0] && ps == [ps[0]];
    } else if |ps| > 1 {
      var s := Join(ps, d);
      assert s[|ps[0]|] == d && forall j :: 0 <= j < |ps[0]| ==> s[j] == ps[0][j];
      FindFirstOfIs(s, {d}, 0, |ps[0]|);
      assert s[0..|ps[0]|] == ps[0] && s[|ps[0]| + 1..] == Join(ps[1..], d);
      PiecesShift(s, {d}, |ps[0]| + 1, |ps[0]| + 1);
      SplitUndoesJoin(ps[1..], d);
      assert [ps[0]] + ps[1..] == ps;
    }
  }

  /** StringUtil::trim */
  function Trim(s: string): string {
    var start := FindFirstNotOf(s, BLANKS, 0);
    if start == |s| then [] else
      var end := EndNotOf(s, BLANKS);
      s[start..end]
  }

  /** s[a..b] is what remains of s once the blanks at both ends are gone. */
  ghost predicate Core(s: string, a: nat, b: nat) {
    && a <= b <= |s|
    && (forall i :: 0 <= i < a || b <= i < |s| ==> s[i] in BLANKS)
    && (a < b ==> s[a] !in BLANKS && s[b - 1] !in BLANKS)
  }

  /** Trim takes the blanks off both ends and nothing else ... */
  lemma TrimTakesBlanks(s: string) returns (a: nat, b: nat)
    ensures Core(s, a, b) && Trim(s) == s[a..b]
  {
    a, b := FindFirstNotOf(s, BLANKS, 0), EndNotOf(s, BLANKS);
    if a == |s| {
      b := |s|;
    }
  }

  /** ... and that determines it. */
  lemma TrimIs(s: string, a: nat, b: nat)
    requires Core(s, a, b)
    ensures Trim(s) == s[a..b]
  {
    var start, end := FindFirstNotOf(s, BLANKS, 0), EndNotOf(s, BLANKS);
    if a < b {
      assert start == a && end == b;
    } else {
      assert start == |s|;
    }
  }

  /** A blank in front makes no difference. */
  lemma TrimAfterBlank(s: string)
    ensures Trim(" " + s) == Trim(s)
  {
    var a, b := TrimTakesBlanks(s);
    var t := " " + s;
    assert forall i :: 1 <= i < |t| ==> t[i] == s[i - 1];
    assert Core(t, a + 1, b + 1);
    TrimIs(t, a + 1, b + 1);
    assert t[a + 1..b + 1] == s[a..b];
  }

  /** Trimming a second time changes nothing. */
  lemma TrimTwice(s: string)
    ensures Trim(Trim(s)) == Trim(s)
  {
    var a, b := TrimTakesBlanks(s);
    assert Core(s[a..b], 0, b - a);
    TrimIs(s[a..b], 0, b - a);
  }
}
