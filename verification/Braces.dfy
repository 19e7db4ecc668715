/**
 * csh's brace expansion: a vector of words in which every word with braces is replaced,
 * in place, by the words it stands for.
 */
module Braces {
  import opened Common

  const GLOBSPACE := 100

  // The words, or the character that is missing.
  datatype Result = Words(ws: seq<Word>) | Missing(c: char)

  // ----- one brace -----

  // The place of the first c from p on, or the end.
  function Find(s: Word, p: nat, c: char): (q: nat)
    requires p <= |s|
    ensures p <= q <= |s| && (q < |s| ==> s[q] == c) && forall j | p <= j < q :: s[j] != c
    decreases |s| - p
  {
    if p == |s| || s[p] == c then p else Find(s, p + 1, c)
  }

  datatype Close = At(pe: nat) | Lacks(c: char)

  // The brace that closes, from p on and i braces deep.  What is between brackets is
  // passed over.
  function Closing(s: Word, p: nat, i: nat): (r: Close)
    requires p <= |s|
    ensures r.At? ==> p <= r.pe < |s| && s[r.pe] == '}'
    decreases |s| - p
  {
    if p == |s| then Lacks('}')
    else if s[p] == '[' then
      var q := Find(s, p + 1, ']');
      if q == |s| then Lacks(']') else Closing(s, q + 1, i)
    else if s[p] == '{' then Closing(s, p + 1, i + 1)
    else if s[p] == '}' then if i == 0 then At(p) else Closing(s, p + 1, i - 1)
    else Closing(s, p + 1, i)
  }

  // The pieces between the commas from pl to the closing brace; pm is where the walk is.
  function Pieces(s: Word, pl: nat, pm: nat, i: nat): (r: seq<Word>)
    requires pl <= pm <= |s| && Closing(s, pm, i).At?
    ensures r != []
    decreases |s| - pm
  {
    if s[pm] == '[' then Pieces(s, pl, Find(s, pm + 1, ']') + 1, i)
    else if s[pm] == '{' then Pieces(s, pl, pm + 1, i + 1)
    else if s[pm] == '}' then if i == 0 then [s[pl..pm]] else Pieces(s, pl, pm + 1, i - 1)
    else if s[pm] == ',' && i == 0 then [s[pl..pm]] + Pieces(s, pm + 1, pm + 1, 0)
    else Pieces(s, pl, pm + 1, i)
  }

  function Around(prefix: Word, pieces: seq<Word>, suffix: Word): seq<Word> {
    if pieces == [] then [] else [prefix + pieces[0] + suffix] + Around(prefix, pieces[1..], suffix)
  }

  // What one brace makes of a word.
  function Brace(s: Word): Result
    requires '{' in s
  {
    var b := Find(s, 0, '{');
    FindThere(s, 0, '{');
    var r := Closing(s, b + 1, 0);
    if r.Lacks? then Missing(r.c)
    else Words(Around(s[..b], Pieces(s, b + 1, b + 1, 0), s[r.pe + 1..]))
  }

  lemma FindThere(s: Word, p: nat, c: char)
    requires p <= |s| && c in s[p..]
    ensures Find(s, p, c) < |s|
  {
  }

  // ----- every result has fewer braces -----

  function Lefts(s: Word): nat {
    if s == [] then 0 else (if s[0] == '{' then 1 else 0) + Lefts(s[1..])
  }

  lemma {:induction false} LeftsConcat(a: Word, b: Word)
    ensures Lefts(a + b) == Lefts(a) + Lefts(b)
  {
    if a == [] {
      assert a + b == b;
    } else {
      LeftsConcat(a[1..], b);
      assert (a + b)[1..] == a[1..] + b;
    }
  }

  // The pieces and the commas between them are what is between the braces.
  function Joined(pieces: seq<Word>): Word
    requires pieces != []
  {
    if |pieces| == 1 then pieces[0] else pieces[0] + "," + Joined(pieces[1..])
  }

  lemma {:induction false} PiecesJoin(s: Word, pl: nat, pm: nat, i: nat)
    requires pl <= pm <= |s| && Closing(s, pm, i).At?
    ensures Joined(Pieces(s, pl, pm, i)) == s[pl..Closing(s, pm, i).pe]
    decreases |s| - pm
  {
    if s[pm] == '[' {
      PiecesJoin(s, pl, Find(s, pm + 1, ']') + 1, i);
    } else if s[pm] == '{' {
      PiecesJoin(s, pl, pm + 1, i + 1);
    } else if s[pm] == '}' {
      if i > 0 {
        PiecesJoin(s, pl, pm + 1, i - 1);
      }
    } else if s[pm] == ',' && i == 0 {
      PiecesJoin(s, pm + 1, pm + 1, 0);
      var pe, rest := Closing(s, pm, i).pe, Pieces(s, pm + 1, pm + 1, 0);
      assert ([s[pl..pm]] + rest)[1..] == rest;
      assert s[pl..pm] + "," + s[pm + 1..pe] == s[pl..pe];
    } else {
      PiecesJoin(s, pl, pm + 1, i);
    }
  }

  lemma {:induction false} PieceWithin(pieces: seq<Word>, k: nat)
    requires k < |pieces|
    ensures Lefts(pieces[k]) <= Lefts(Joined(pieces))
  {
    if |pieces| > 1 {
      LeftsConcat(pieces[0] + ",", Joined(pieces[1..]));
      LeftsConcat(pieces[0], ",");
      if k > 0 {
        PieceWithin(pieces[1..], k - 1);
      }
    }
  }

  lemma {:induction false} AroundAt(prefix: Word, pieces: seq<Word>, suffix: Word)
    ensures var r := Around(prefix, pieces, suffix);
      |r| == |pieces| && forall k | 0 <= k < |r| :: r[k] == prefix + pieces[k] + suffix
  {
    if pieces != [] {
      AroundAt(prefix, pieces[1..], suffix);
    }
  }

  lemma CutBrace(a: Word, piece: Word, body: Word, rest: Word)
    requires Lefts(piece) <= Lefts(body)
    ensures Lefts(a + piece + rest) < Lefts(a + "{" + body + ("}" + rest))
  {
    LeftsConcat(a + piece, rest);
    LeftsConcat(a, piece);
    LeftsConcat(a + "{" + body, "}" + rest);
    LeftsConcat(a + "{", body);
    LeftsConcat(a, "{");
    LeftsConcat("}", rest);
  }

  // ----- what is between the braces -----

  // Read from depth i, w ends at depth j without closing a brace it did not open, and
  // brackets are closed; if `whole`, there is no comma at depth 0.
  predicate Spans(w: Word, i: nat, j: nat, whole: bool)
    decreases |w|
  {
    if w == "" then i == j
    else if w[0] == '[' then
      var q := Find(w, 1, ']');
      q < |w| && Spans(w[q + 1..], i, j, whole)
    else if w[0] == '{' then Spans(w[1..], i + 1, j, whole)
    else if w[0] == '}' then i > 0 && Spans(w[1..], i - 1, j, whole)
    else !(whole && w[0] == ',' && i == 0) && Spans(w[1..], i, j, whole)
  }

  // Looking in a part of a word.
  lemma {:induction false} FindIn(s: Word, p: nat, c: char, e: nat)
    requires p <= |s| && Find(s, p, c) < e <= |s|
    ensures forall a | 0 <= a <= p :: Find(s[a..e], p - a, c) == Find(s, p, c) - a
    decreases |s| - p
  {
    if s[p] != c {
      FindIn(s, p + 1, c, e);
    }
  }

  lemma {:induction false} SpansConcat(a: Word, b: Word, i: nat, j: nat, k: nat, whole: bool)
    requires Spans(a, i, j, whole) && Spans(b, j, k, whole)
    ensures Spans(a + b, i, k, whole)
    decreases |a|
  {
    if a == "" {
      assert a + b == b;
    } else if a[0] == '[' {
      var q := Find(a, 1, ']');
      SpansConcat(a[q + 1..], b, i, j, k, whole);
      assert (a + b)[q + 1..] == a[q + 1..] + b;
      FindFirst(a + b, 1, ']', q);
    } else {
      var i' := if a[0] == '{' then i + 1 else if a[0] == '}' then i - 1 else i;
      SpansConcat(a[1..], b, i', j, k, whole);
      assert (a + b)[1..] == a[1..] + b;
    }
  }

  lemma {:induction false} FindFirst(s: Word, p: nat, c: char, q: nat)
    requires p <= q < |s| && s[q] == c && forall j | p <= j < q :: s[j] != c
    ensures Find(s, p, c) == q
    decreases q - p
  {
    if p < q {
      FindFirst(s, p + 1, c, q);
    }
  }

  // One step of the walk.
  lemma StepSpans(s: Word, p: nat, n: nat, i: nat, whole: bool)
    requires p < |s| && (s[p] == '}' ==> i > 0) && !(whole && s[p] == ',' && i == 0)
    requires n == (if s[p] == '[' then Find(s, p + 1, ']') + 1 else p + 1) && n <= |s|
    ensures Spans(s[p..n], i, if s[p] == '{' then i + 1 else if s[p] == '}' then i - 1 else i, whole)
  {
    var w := s[p..n];
    if s[p] == '[' {
      FindIn(s, p + 1, ']', n);
      assert Find(w, 1, ']') == n - 1 - p && w[n - p..] == "";
    } else {
      assert w[1..] == "";
    }
  }

  // The closing brace is the matching one: what is before it is even.
  lemma {:induction false} ClosingEven(s: Word, a: nat, p: nat, i: nat)
    requires a <= p <= |s| && Closing(s, p, i).At? && Spans(s[a..p], 0, i, false)
    ensures Spans(s[a..Closing(s, p, i).pe], 0, 0, false)
    decreases |s| - p
  {
    if !(s[p] == '}' && i == 0) {
      var n := if s[p] == '[' then Find(s, p + 1, ']') + 1 else p + 1;
      var i' := if s[p] == '{' then i + 1 else if s[p] == '}' then i - 1 else i;
      StepSpans(s, p, n, i, false);
      SpansConcat(s[a..p], s[p..n], 0, i, i', false);
      assert s[a..p] + s[p..n] == s[a..n];
      ClosingEven(s, a, n, i');
    }
  }

  // Every piece is even and has no comma of its own.
  lemma {:induction false} PiecesWhole(s: Word, pl: nat, pm: nat, i: nat)
    requires pl <= pm <= |s| && Closing(s, pm, i).At? && Spans(s[pl..pm], 0, i, true)
    ensures forall k | 0 <= k < |Pieces(s, pl, pm, i)| :: Spans(Pieces(s, pl, pm, i)[k], 0, 0, true)
    decreases |s| - pm
  {
    if s[pm] == ',' && i == 0 {
      assert s[pm + 1..pm + 1] == "";
      PiecesWhole(s, pm + 1, pm + 1, 0);
    } else if !(s[pm] == '}' && i == 0) {
      var n := if s[pm] == '[' then Find(s, pm + 1, ']') + 1 else pm + 1;
      var i' := if s[pm] == '{' then i + 1 else if s[pm] == '}' then i - 1 else i;
      StepSpans(s, pm, n, i, true);
      SpansConcat(s[pl..pm], s[pm..n], 0, i, i', true);
      assert s[pl..pm] + s[pm..n] == s[pl..n];
      PiecesWhole(s, pl, n, i');
    }
  }

  // The parts of a word with a brace that closes.
  lemma BraceParts(s: Word) returns (a: Word, body: Word, rest: Word, pieces: seq<Word>)
    requires '{' in s && Brace(s).Words?
    ensures s == a + "{" + body + ("}" + rest) && '{' !in a && Spans(body, 0, 0, false)
    ensures forall k | 0 <= k < |pieces| :: Spans(pieces[k], 0, 0, true)
    ensures pieces != [] && Joined(pieces) == body && Brace(s).ws == Around(a, pieces, rest)
  {
    var b, pe := BracePlaces(s);
    a, body, rest, pieces := s[..b], s[b + 1..pe], s[pe + 1..], Pieces(s, b + 1, b + 1, 0);
    ThreeParts(s, b, pe);
    BodyParts(s, b + 1);
  }

  lemma BracePlaces(s: Word) returns (b: nat, pe: nat)
    requires '{' in s && Brace(s).Words?
    ensures b < pe < |s| && s[b] == '{' && s[pe] == '}' && '{' !in s[..b] && Closing(s, b + 1, 0) == At(pe)
    ensures Brace(s).ws == Around(s[..b], Pieces(s, b + 1, b + 1, 0), s[pe + 1..])
  {
    b := Find(s, 0, '{');
    FindThere(s, 0, '{');
    pe := Closing(s, b + 1, 0).pe;
  }

  lemma BodyParts(s: Word, p: nat)
    requires p <= |s| && Closing(s, p, 0).At?
    ensures var pieces, body := Pieces(s, p, p, 0), s[p..Closing(s, p, 0).pe];
      Joined(pieces) == body && Spans(body, 0, 0, false) && forall k | 0 <= k < |pieces| :: Spans(pieces[k], 0, 0, true)
  {
    PiecesJoin(s, p, p, 0);
    assert s[p..p] == "";
    ClosingEven(s, p, p, 0);
    PiecesWhole(s, p, p, 0);
  }

  lemma ThreeParts(s: Word, b: nat, pe: nat)
    requires b < pe < |s| && s[b] == '{' && s[pe] == '}'
    ensures s == s[..b] + "{" + s[b + 1..pe] + ("}" + s[pe + 1..])
  {
  }

  lemma FewerBraces(s: Word)
    requires '{' in s && Brace(s).Words?
    ensures forall k | 0 <= k < |Brace(s).ws| :: Lefts(Brace(s).ws[k]) < Lefts(s)
  {
    var a, body, rest, pieces := BraceParts(s);
    AroundAt(a, pieces, rest);
    forall k | 0 <= k < |pieces| ensures Lefts(a + pieces[k] + rest) < Lefts(s) {
      PieceWithin(pieces, k);
      CutBrace(a, pieces[k], body, rest);
    }
  }

  // ----- what a vector of words stands for -----

  // `{` and `{}` are left alone.
  predicate Untouched(s: Word) {
    |s| > 0 && s[0] == '{' && (|s| == 1 || (s[1] == '}' && |s| == 2))
  }

  predicate Expands(s: Word) {
    '{' in s && !Untouched(s)
  }

  predicate Below(ws: seq<Word>, n: nat) {
    forall k | 0 <= k < |ws| :: Lefts(ws[k]) < n
  }

  function Append(a: Result, b: Result): Result {
    if a.Missing? then a else if b.Missing? then b else Words(a.ws + b.ws)
  }

  // The words a word stands for: those its brace makes of it, expanded in turn.
  function Expand(s: Word): Result
    decreases Lefts(s), 1, 0
  {
    if !Expands(s) then Words([s])
    else if Brace(s).Missing? then Brace(s)
    else
      FewerBraces(s);
      ExpandBelow(Brace(s).ws, Lefts(s))
  }

  function ExpandBelow(ws: seq<Word>, ghost n: nat): Result
    requires Below(ws, n)
    decreases n, 0, |ws|
  {
    if ws == [] then Words([]) else Append(Expand(ws[0]), ExpandBelow(ws[1..], n))
  }

  function ExpandAll(ws: seq<Word>): Result {
    if ws == [] then Words([]) else Append(Expand(ws[0]), ExpandAll(ws[1..]))
  }

  lemma {:induction false} BelowIsAll(ws: seq<Word>, n: nat)
    requires Below(ws, n)
    ensures ExpandBelow(ws, n) == ExpandAll(ws)
  {
    if ws != [] {
      BelowIsAll(ws[1..], n);
    }
  }

  lemma AppendAssoc(a: Result, b: Result, c: Result)
    ensures Append(Append(a, b), c) == Append(a, Append(b, c)) && Append(Words([]), a) == a
  {
    assert a.Words? && b.Words? && c.Words? ==> a.ws + b.ws + c.ws == a.ws + (b.ws + c.ws);
    assert a.Words? ==> [] + a.ws == a.ws;
  }

  lemma {:induction false} ExpandConcat(a: seq<Word>, b: seq<Word>)
    ensures ExpandAll(a + b) == Append(ExpandAll(a), ExpandAll(b))
  {
    if a == [] {
      assert a + b == b;
      AppendAssoc(ExpandAll(b), ExpandAll(b), ExpandAll(b));
    } else {
      ExpandConcat(a[1..], b);
      AppendAssoc(Expand(a[0]), ExpandAll(a[1..]), ExpandAll(b));
      assert (a + b)[1..] == a[1..] + b;
    }
  }

  // Replacing the first word by what its brace makes of it changes nothing.
  lemma ExpandOnce(s: Word, ws: seq<Word>)
    requires Expands(s)
    ensures ExpandAll([s] + ws)
         == if Brace(s).Missing? then Brace(s) else ExpandAll(Brace(s).ws + ws)
  {
    assert ([s] + ws)[1..] == ws;
    if Brace(s).Words? {
      FewerBraces(s);
      BelowIsAll(Brace(s).ws, Lefts(s));
      ExpandConcat(Brace(s).ws, ws);
    }
  }

  // How many turns of the loop a word takes.
  ghost function Work(s: Word): nat
    decreases Lefts(s), 1, 0
  {
    if !Expands(s) || Brace(s).Missing? then 1
    else
      FewerBraces(s);
      1 + WorkBelow(Brace(s).ws, Lefts(s))
  }

  ghost function WorkBelow(ws: seq<Word>, n: nat): nat
    requires Below(ws, n)
    decreases n, 0, |ws|
  {
    if ws == [] then 0 else Work(ws[0]) + WorkBelow(ws[1..], n)
  }

  ghost function WorkAll(ws: seq<Word>): nat {
    if ws == [] then 0 else Work(ws[0]) + WorkAll(ws[1..])
  }

  lemma {:induction false} WorkConcat(a: seq<Word>, b: seq<Word>, n: nat)
    requires Below(a, n)
    ensures WorkAll(a + b) == WorkBelow(a, n) + WorkAll(b)
  {
    if a == [] {
      assert a + b == b;
    } else {
      WorkConcat(a[1..], b, n);
      assert (a + b)[1..] == a[1..] + b;
    }
  }

  lemma WorkOnce(s: Word, ws: seq<Word>)
    requires Expands(s) && Brace(s).Words?
    ensures WorkAll(Brace(s).ws + ws) < WorkAll([s] + ws)
  {
    FewerBraces(s);
    WorkConcat(Brace(s).ws, ws, Lefts(s));
    assert ([s] + ws)[1..] == ws;
  }

  predicate Flat(ws: seq<Word>) {
    forall k | 0 <= k < |ws| :: !Expands(ws[k])
  }

  // What comes out has nothing left to expand, so expanding it again changes nothing.
  lemma {:induction false} ExpandFlat(s: Word)
    requires Expand(s).Words?
    ensures Flat(Expand(s).ws)
    decreases Lefts(s), 1, 0
  {
    if Expands(s) {
      FewerBraces(s);
      BelowFlat(Brace(s).ws, Lefts(s));
    }
  }

  lemma {:induction false} BelowFlat(ws: seq<Word>, n: nat)
    requires Below(ws, n) && ExpandBelow(ws, n).Words?
    ensures Flat(ExpandBelow(ws, n).ws)
    decreases n, 0, |ws|
  {
    if ws != [] {
      ExpandFlat(ws[0]);
      BelowFlat(ws[1..], n);
    }
  }

  lemma {:induction false} FlatStays(ws: seq<Word>)
    requires Flat(ws)
    ensures ExpandAll(ws) == Words(ws)
  {
    if ws != [] {
      assert forall k | 0 <= k < |ws| - 1 :: ws[1..][k] == ws[k + 1];
      FlatStays(ws[1..]);
      assert ws == [ws[0]] + ws[1..];
    }
  }

  lemma {:induction false} AllFlat(ws: seq<Word>)
    requires ExpandAll(ws).Words?
    ensures Flat(ExpandAll(ws).ws)
  {
    if ws != [] {
      ExpandFlat(ws[0]);
      AllFlat(ws[1..]);
    }
  }

  lemma ExpandTwice(ws: seq<Word>)
    requires ExpandAll(ws).Words?
    ensures ExpandAll(ExpandAll(ws).ws) == ExpandAll(ws)
  {
    AllFlat(ws);
    FlatStays(ExpandAll(ws).ws);
  }

  // ----- vectors of words, ended by an empty slot -----

  ghost predicate Vector(nv: array<Option<Word>>, ws: seq<Word>)
    reads nv
  {
    |ws| < nv.Length && (forall k | 0 <= k < |ws| :: nv[k] == Some(ws[k])) && nv[|ws|] == None
  }

  method Realloc(nv: array<Option<Word>>, size: nat) returns (r: array<Option<Word>>)
    requires nv.Length <= size
    ensures fresh(r) && r.Length == size && r[..nv.Length] == nv[..]
  {
    r := new Option<Word>[size](_ => None);
    for i := 0 to nv.Length
      invariant r[..i] == nv[..i]
    {
      r[i] := nv[i];
    }
  }

  // ----- globbrace -----

  method FindClose(s: Word, p: nat) returns (r: Close)
    requires p <= |s|
    ensures r == Closing(s, p, 0)
  {
    var i, pe := 0, p;
    while pe < |s|
      invariant p <= pe <= |s| && i >= 0 && Closing(s, p, 0) == Closing(s, pe, i)
    {
      if s[pe] == '[' {
        pe := SkipTo(s, pe + 1, ']');
        if pe == |s| {
          return Lacks(']');
        }
      } else if s[pe] == '{' {
        i := i + 1;
      } else if s[pe] == '}' {
        if i == 0 {
          return At(pe);
        }
        i := i - 1;
      }
      pe := pe + 1;
    }
    r := Lacks('}');
  }

  method SkipTo(s: Word, p: nat, c: char) returns (q: nat)
    requires p <= |s|
    ensures q == Find(s, p, c)
  {
    q := p;
    while q < |s| && s[q] != c
      invariant p <= q <= |s| && Find(s, p, c) == Find(s, q, c)
    {
      q := q + 1;
    }
  }

  // What the last loop keeps: the words made, and those of the pieces to come, are the goal.
  ghost predicate Cutting(s: Word, lm: Word, pe: nat, pl: nat, pm: nat, i: nat, made: seq<Word>, goal: seq<Word>) {
    pl <= pm <= pe + 1 <= |s| &&
    if pm == pe + 1 then goal == made
    else Closing(s, pm, i) == At(pe) && goal == made + Around(lm, Pieces(s, pl, pm, i), s[pe + 1..])
  }

  lemma CutOn(s: Word, lm: Word, pe: nat, pl: nat, pm: nat, i: nat, made: seq<Word>, goal: seq<Word>)
    requires Cutting(s, lm, pe, pl, pm, i, made, goal) && pm <= pe
    requires !(s[pm] == '}' && i == 0) && !(s[pm] == ',' && i == 0)
    ensures var next := if s[pm] == '[' then Find(s, pm + 1, ']') + 1 else pm + 1;
      var deep := if s[pm] == '{' then i + 1 else if s[pm] == '}' then i - 1 else i;
      next <= |s| && Cutting(s, lm, pe, pl, next, deep, made, goal) == true
  {
  }

  lemma CutOff(s: Word, lm: Word, pe: nat, pl: nat, pm: nat, i: nat, made: seq<Word>, goal: seq<Word>)
    requires Cutting(s, lm, pe, pl, pm, i, made, goal) && pm <= pe
    requires i == 0 && (s[pm] == '}' || s[pm] == ',')
    ensures Cutting(s, lm, pe, pm + 1, pm + 1, i, made + [lm + s[pl..pm] + s[pe + 1..]], goal) == true
  {
    var rest := if s[pm] == '}' then [] else Pieces(s, pm + 1, pm + 1, 0);
    assert Pieces(s, pl, pm, i) == [s[pl..pm]] + rest;
    AroundCons(lm, s[pl..pm], rest, s[pe + 1..], made);
  }

  lemma AroundCons(prefix: Word, piece: Word, rest: seq<Word>, suffix: Word, made: seq<Word>)
    ensures made + Around(prefix, [piece] + rest, suffix)
         == made + [prefix + piece + suffix] + Around(prefix, rest, suffix)
    ensures Around(prefix, [], suffix) == [] && forall x: seq<Word> :: x + [] == x
  {
    assert ([piece] + rest)[1..] == rest;
  }

  // The last loop: a word for every piece.
  method CutPieces(s: Word, p: nat, lm: Word, pe: nat) returns (nv: array<Option<Word>>, len: nat)
    requires p <= |s| && Closing(s, p, 0) == At(pe)
    ensures var ws := Around(lm, Pieces(s, p, p, 0), s[pe + 1..]); fresh(nv) && Vector(nv, ws) && len == |ws|
  {
    nv, len := new Option<Word>[GLOBSPACE](_ => None), 0;
    ghost var made: seq<Word>, goal := [], Around(lm, Pieces(s, p, p, 0), s[pe + 1..]);
    assert made + goal == goal;
    var i, pl, pm := 0, p, p;
    while pm <= pe
      invariant i >= 0 && 0 <= pl <= pm && Cutting(s, lm, pe, pl, pm, i, made, goal) == true
      invariant fresh(nv) && len == |made| < nv.Length
      invariant forall k | 0 <= k < len :: nv[k] == Some(made[k])
    {
      if (s[pm] == '}' || s[pm] == ',') && i == 0 {
        CutOff(s, lm, pe, pl, pm, i, made, goal);
        var w := lm + s[pl..pm] + s[pe + 1..];
        made := made + [w];
        nv := Push(nv, len, w);
        len := len + 1;
        pl := pm + 1;
      } else {
        CutOn(s, lm, pe, pl, pm, i, made, goal);
        if s[pm] == '[' {
          pm := SkipTo(s, pm + 1, ']');
        } else if s[pm] == '{' {
          i := i + 1;
        } else if s[pm] == '}' {
          i := i - 1;
        }
      }
      pm := pm + 1;
    }
    nv[len] := None;
  }

  // Stores a word, and sees to it that there is room for one more.
  method Push(nv: array<Option<Word>>, len: nat, w: Word) returns (r: array<Option<Word>>)
    requires len < nv.Length
    modifies nv
    ensures r == nv || fresh(r)
    ensures len + 1 < r.Length && r[len] == Some(w) && r[..len] == old(nv[..len])
  {
    nv[len] := Some(w);
    r := nv;
    if len + 1 == nv.Length {
      r := Realloc(nv, nv.Length + GLOBSPACE);
      assert r[..nv.Length][..len] == r[..len] && r[..nv.Length][len] == r[len];
    }
  }

  method GlobBrace(s: Word) returns (missing: Option<char>, bl: array<Option<Word>>, len: nat)
    requires '{' in s
    ensures fresh(bl)
    ensures match Brace(s)
      case Missing(c) => missing == Some(c)
      case Words(ws) => missing == None && Vector(bl, ws) && len == |ws|
  {
    FindThere(s, 0, '{');
    var p := 0;
    while s[p] != '{'
      invariant 0 <= p < |s| && Find(s, 0, '{') == Find(s, p, '{')
      decreases |s| - p
    {
      FindThere(s, 0, '{');
      p := p + 1;
    }
    var close := FindClose(s, p + 1);
    if close.Lacks? {
      missing, len := Some(close.c), 0;
      bl := new Option<Word>[0];
    } else {
      missing := None;
      bl, len := CutPieces(s, p + 1, s[..p], close.pe);
      AroundAt(s[..p], Pieces(s, p + 1, p + 1, 0), s[close.pe + 1..]);
    }
  }

  // ----- expbrace -----

  // From slot `at` on the vector holds the words of ws from place i on.
  ghost predicate HoldsFrom(nv: array<Option<Word>>, at: nat, ws: seq<Word>, i: nat)
    reads nv
  {
    i <= |ws| && at + (|ws| - i) <= nv.Length &&
    forall j {:trigger ws[j]} | i <= j < |ws| :: nv[at + (j - i)] == Some(ws[j])
  }

  // Moves the words after vl, and the empty slot, up by n.
  method ShiftUp(nv: array<Option<Word>>, vl: nat, el: nat, n: nat, ghost ws: seq<Word>)
    requires el == |ws| && vl < el && el + n < nv.Length && nv[el] == None && HoldsFrom(nv, vl + 1, ws, vl + 1)
    modifies nv
    ensures forall j | 0 <= j <= vl :: nv[j] == old(nv[j])
    ensures HoldsFrom(nv, vl + 1 + n, ws, vl + 1) && nv[el + n] == None
  {
    nv[el + n] := nv[el];
    var k := el - 1;
    while k != vl
      invariant vl <= k < el && nv[el + n] == None
      invariant forall j | 0 <= j <= vl :: nv[j] == old(nv[j])
      invariant forall j {:trigger ws[j]} | vl < j <= k :: nv[j] == Some(ws[j])
      invariant HoldsFrom(nv, k + 1 + n, ws, k + 1)
    {
      assert nv[k] == Some(ws[k]);
      nv[k + n] := nv[k];
      k := k - 1;
    }
  }

  // Copies the words of bl but the first to the slots after vl.
  method CopyTail(nv: array<Option<Word>>, vl: nat, bl: array<Option<Word>>, ghost made: seq<Word>)
    requires Vector(bl, made) && made != [] && vl + |made| <= nv.Length && nv != bl
    modifies nv
    ensures forall j | 0 <= j < nv.Length && !(vl < j < vl + |made|) :: nv[j] == old(nv[j])
    ensures HoldsFrom(nv, vl + 1, made, 1)
  {
    var k := 1;
    while bl[k].Some?
      invariant 1 <= k <= |made|
      invariant forall j | 0 <= j < nv.Length && !(vl < j < vl + k) :: nv[j] == old(nv[j])
      invariant forall j {:trigger made[j]} | 1 <= j < k :: nv[vl + j] == Some(made[j])
      decreases |made| - k
    {
      nv[vl + k] := bl[k];
      k := k + 1;
    }
    assert forall j {:trigger made[j]} | 1 <= j < |made| :: vl + 1 + (j - 1) == vl + j;
  }

  // Puts the words of bl in the place of the word at vl.
  method Splice(nv: array<Option<Word>>, vl: nat, el: nat, bl: array<Option<Word>>, len: nat,
    ghost ws: seq<Word>, ghost made: seq<Word>)
    requires Vector(nv, ws) && el == |ws| && vl < el && Vector(bl, made) && len == |made| > 0
    requires el + len - 1 < nv.Length && nv != bl
    modifies nv
    ensures Vector(nv, ws[..vl] + made + ws[vl + 1..])
  {
    nv[vl] := bl[0];
    ShiftUp(nv, vl, el, len - 1, ws);
    ghost var tail := HoldsFrom(nv, vl + len, ws, vl + 1);
    assert tail;
    CopyTail(nv, vl, bl, made);
    assert HoldsFrom(nv, vl + len, ws, vl + 1);
    Spliced(nv, vl, ws, made);
  }

  lemma Spliced(nv: array<Option<Word>>, vl: nat, ws: seq<Word>, made: seq<Word>)
    requires vl < |ws| && made != [] && |ws| + |made| - 1 < nv.Length
    requires forall j | 0 <= j < vl :: nv[j] == Some(ws[j])
    requires nv[vl] == Some(made[0]) && HoldsFrom(nv, vl + 1, made, 1)
    requires HoldsFrom(nv, vl + |made|, ws, vl + 1) && nv[|ws| + |made| - 1] == None
    ensures Vector(nv, ws[..vl] + made + ws[vl + 1..])
  {
    var all := ws[..vl] + made + ws[vl + 1..];
    forall j | 0 <= j < |all| ensures nv[j] == Some(all[j]) {
      if vl <= j < vl + |made| {
        assert all[j] == made[j - vl];
      } else if j >= vl + |made| {
        assert all[j] == ws[j - (|made| - 1)];
      }
    }
  }

  // Makes room for len - 1 more words.
  method Enlarge(nv: array<Option<Word>>, el: nat, len: nat, ghost ws: seq<Word>) returns (r: array<Option<Word>>)
    requires Vector(nv, ws) && el == |ws|
    ensures r == nv || fresh(r)
    ensures Vector(r, ws) && el + len <= r.Length
  {
    r := nv;
    if el + len >= nv.Length {
      var l := el + len - nv.Length;
      r := Realloc(nv, nv.Length + if GLOBSPACE > l then GLOBSPACE else l);
      assert forall k | 0 <= k <= el :: r[k] == r[..nv.Length][k] == nv[..][k];
    }
  }

  // The word at vl gives way to what its brace makes of it.
  method Replace(nv: array<Option<Word>>, vl: nat, el: nat, bl: array<Option<Word>>, len: nat,
    ghost ws: seq<Word>, ghost made: seq<Word>) returns (r: array<Option<Word>>)
    requires Vector(nv, ws) && el == |ws| && vl < el && Vector(bl, made) && len == |made| > 0 && nv != bl
    modifies nv
    ensures r == nv || fresh(r)
    ensures Vector(r, ws[..vl] + made + ws[vl + 1..])
  {
    if len == 1 {
      nv[vl] := bl[0];
      r := nv;
    } else {
      r := Enlarge(nv, el, len, ws);
      Splice(r, vl, el, bl, len, ws, made);
    }
  }

  // What the loop keeps: the words before vl are done, and with what the others stand
  // for they are the goal.
  ghost predicate Expanding(cur: seq<Word>, vl: nat, goal: Result) {
    vl <= |cur| && (forall k | 0 <= k < vl :: !Expands(cur[k])) &&
    Append(Words(cur[..vl]), ExpandAll(cur[vl..])) == goal
  }

  lemma ExpandingPast(cur: seq<Word>, vl: nat, goal: Result)
    requires Expanding(cur, vl, goal) && vl < |cur| && !Expands(cur[vl])
    ensures Expanding(cur, vl + 1, goal) && WorkAll(cur[vl + 1..]) < WorkAll(cur[vl..])
  {
    assert cur[vl..][1..] == cur[vl + 1..];
    assert cur[..vl + 1] == cur[..vl] + [cur[vl]];
    AppendAssoc(Words(cur[..vl]), Words([cur[vl]]), ExpandAll(cur[vl + 1..]));
  }

  lemma ExpandingOn(cur: seq<Word>, vl: nat, goal: Result, made: seq<Word>)
    requires Expanding(cur, vl, goal) && vl < |cur| && Expands(cur[vl]) && Brace(cur[vl]) == Words(made)
    ensures var next := cur[..vl] + made + cur[vl + 1..];
      Expanding(next, vl, goal) && WorkAll(next[vl..]) < WorkAll(cur[vl..])
  {
    var next := cur[..vl] + made + cur[vl + 1..];
    ExpandOnce(cur[vl], cur[vl + 1..]);
    WorkOnce(cur[vl], cur[vl + 1..]);
    assert cur[vl..] == [cur[vl]] + cur[vl + 1..];
    assert next[vl..] == made + cur[vl + 1..] && next[..vl] == cur[..vl];
    assert forall k | 0 <= k < vl :: next[k] == cur[k];
  }

  lemma ExpandingFails(cur: seq<Word>, vl: nat, goal: Result)
    requires Expanding(cur, vl, goal) && vl < |cur| && Expands(cur[vl]) && Brace(cur[vl]).Missing?
    ensures goal == Brace(cur[vl])
  {
    ExpandOnce(cur[vl], cur[vl + 1..]);
    assert cur[vl..] == [cur[vl]] + cur[vl + 1..];
  }

  method ExpBrace(nv0: array<Option<Word>>, elp: Option<nat>, ghost ws: seq<Word>)
    returns (missing: Option<char>, nv: array<Option<Word>>, el: nat)
    requires Vector(nv0, ws) && (elp.Some? ==> elp.value == |ws|)
    modifies nv0
    ensures match ExpandAll(ws)
      case Missing(c) => missing == Some(c)
      case Words(r) => missing == None && Vector(nv, r) && el == |r|
  {
    nv := nv0;
    if elp.Some? {
      el := elp.value;
    } else {
      el := VectorLength(nv, ws);
    }
    var vl := 0;
    ghost var cur, goal := ws, ExpandAll(ws);
    assert ws[0..] == ws && ws[..0] == [];
    AppendAssoc(goal, goal, goal);
    while nv[vl].Some?
      invariant 0 <= vl <= el == |cur| && Vector(nv, cur) && (nv == nv0 || fresh(nv))
      invariant Expanding(cur, vl, goal) == true
      decreases WorkAll(cur[vl..])
    {
      var s := nv[vl].value;
      if '{' in s && !Untouched(s) {
        var bl, len;
        missing, bl, len := GlobBrace(s);
        if missing.Some? {
          ExpandingFails(cur, vl, goal);
          return;
        }
        ghost var made := Brace(s).ws;
        BraceSome(s);
        ExpandingOn(cur, vl, goal, made);
        nv := Replace(nv, vl, el, bl, len, cur, made);
        el := el + (len - 1);
        cur := cur[..vl] + made + cur[vl + 1..];
      } else {
        ExpandingPast(cur, vl, goal);
        vl := vl + 1;
      }
    }
    missing := None;
    assert cur[vl..] == [] && cur[..vl] == cur;
  }

  lemma BraceSome(s: Word)
    requires '{' in s && Brace(s).Words?
    ensures Brace(s).ws != []
  {
    var _, _, _, _ := BraceParts(s);
  }

  method VectorLength(nv: array<Option<Word>>, ghost ws: seq<Word>) returns (n: nat)
    requires Vector(nv, ws)
    ensures n == |ws|
  {
    n := 0;
    while nv[n].Some?
      invariant n <= |ws|
      decreases |ws| - n
    {
      n := n + 1;
    }
  }
}
