/** The parser as it runs: the loops over the words and the calls of each level. */
module ParseRun {
  import opened Common
  import opened Parse

  // The first separator outside parentheses.
  method FindSplit(ws: seq<Word>, k: Separator) returns (p: nat)
    ensures p == Split(ws, 0, k)
  {
    p := 0;
    var l := 0;
    while p < |ws|
      invariant 0 <= p <= |ws| && Split(ws, 0, k) == p + Split(ws[p..], l, k)
    {
      assert ws[p..][1..] == ws[p + 1..];
      if Opens(ws[p]) {
        l := l + 1;
      } else if Closes(ws[p]) {
        l := l - 1;
      } else if Separates(k, ws[p]) && l == 0 {
        return;
      }
      p := p + 1;
    }
  }

  // From place p the walk ends in goal.
  ghost predicate Walking(ws: seq<Word>, p: nat, l: int, e: Error, goal: Walk) {
    p <= |ws| && p <= goal.p && WalkAmp(ws[p..], l, e) == Walk(goal.p - p, goal.l, goal.e)
  }

  lemma WalkOn(ws: seq<Word>, p: nat, l: int, e: Error, goal: Walk)
    requires p < |ws| && Walking(ws, p, l, e, goal) && !(l == 0 && Backgrounds(ws[p]))
    ensures var (l', e') := Deeper(ws[p], l, e);
      p + Stride(ws[p..]) <= |ws| && Walking(ws, p + Stride(ws[p..]), l', e', goal) == true
  {
    var rest := ws[p..];
    var n := Stride(rest);
    WalkStep(rest, l, e);
    assert rest[n..] == ws[p + n..];
  }

  method TakeStep(ws: seq<Word>, p0: nat, l0: int, e0: Error) returns (p: nat, l: int, e: Error)
    requires p0 < |ws|
    ensures p == p0 + Stride(ws[p0..]) && (l, e) == Deeper(ws[p0], l0, e0)
  {
    p, l, e := p0 + 1, l0, e0;
    var w := ws[p0];
    if Opens(w) {
      l := l + 1;
    } else if Closes(w) {
      l := l - 1;
      if l < 0 {
        e := SetError(e, TooManyRp);
      }
    } else if First(w) == '>' || (First(w) == '|' && Second(w) != '|') {
      if p < |ws| && IsAnd(ws[p]) {
        p := p + 1;
      }
    }
  }

  // syn0's walk to an ampersand, with its check of the parentheses.
  method FindAmpersand(ws: seq<Word>, seterr: Error) returns (w: Walk)
    ensures w == WalkAmp(ws, 0, seterr)
  {
    assert ws[0..] == ws;
    w := WalkOver(ws, seterr, WalkAmp(ws, 0, seterr));
  }

  method WalkOver(ws: seq<Word>, seterr: Error, ghost goal: Walk) returns (w: Walk)
    requires Walking(ws, 0, 0, seterr, goal)
    ensures w == goal
  {
    var p, l, e := 0, 0, seterr;
    while p < |ws|
      invariant 0 <= p <= |ws| && Walking(ws, p, l, e, goal) == true
    {
      if l == 0 && Backgrounds(ws[p]) {
        break;
      }
      WalkOn(ws, p, l, e, goal);
      p, l, e := TakeStep(ws, p, l, e);
    }
    w := Walk(p, l, e);
    WalkEnd(ws, p, l, e, goal);
  }

  lemma WalkEnd(ws: seq<Word>, p: nat, l: int, e: Error, goal: Walk)
    requires Walking(ws, p, l, e, goal) && (p == |ws| || (l == 0 && Backgrounds(ws[p])))
    ensures goal == Walk(p, l, e)
  {
  }

  method RunSyntax(ws: seq<Word>, after: Word, c: Context, e: Error) returns (r: Parsed)
    ensures r == Syntax(ws, after, c, e)
    decreases |ws|, if ws != [] && Skipped(ws[0]) then 0 else 7
  {
    var p := 0;
    while p < |ws| && Skipped(ws[p])
      invariant 0 <= p <= |ws| && Syntax(ws, after, c, e) == Syntax(ws[p..], after, c, e)
    {
      assert ws[p..][1..] == ws[p + 1..];
      p := p + 1;
    }
    if p == |ws| {
      return Parsed(Null, e);
    }
    r := RunSyn0(ws[p..], after, c, e);
  }

  method RunSyn0(ws: seq<Word>, after: Word, c: Context, e: Error) returns (r: Parsed)
    ensures r == Syn0(ws, after, c, e)
    decreases |ws|, 6
  {
    var w := FindAmpersand(ws, e);
    if w.p < |ws| {
      var a := RunSyn1(ws[..w.p], ws[w.p], c, w.e);
      var b := RunSyntax(ws[w.p..], after, c, a.e);
      r := Parsed(List({}, Background(a.t), b.t), b.e);
    } else if w.l == 0 {
      r := RunSyn1(ws, after, c, w.e);
    } else {
      r := Parsed(Null, SetError(w.e, TooManyLp));
    }
  }

  method RunSyn1(ws: seq<Word>, after: Word, c: Context, e: Error) returns (r: Parsed)
    ensures r == Syn1(ws, after, c, e)
    decreases |ws|, 5
  {
    var p := FindSplit(ws, Semi);
    if p < |ws| {
      var a := RunSyn1a(ws[..p], ws[p], c, e);
      var b := RunSyntax(ws[p + 1..], after, c, a.e);
      if b.t.Null? {
        r := Parsed(List({}, Null, a.t), b.e);
      } else {
        r := Parsed(List({}, a.t, b.t), b.e);
      }
    } else {
      r := RunSyn1a(ws, after, c, e);
    }
  }

  method RunSyn1a(ws: seq<Word>, after: Word, c: Context, e: Error) returns (r: Parsed)
    ensures r == Syn1a(ws, after, c, e)
    decreases |ws|, 4
  {
    var p := FindSplit(ws, OrOr);
    if p < |ws| {
      var a := RunSyn1b(ws[..p], ws[p], c, e);
      var b := RunSyn1a(ws[p + 1..], after, c, a.e);
      r := Parsed(Or({}, a.t, b.t), b.e);
    } else {
      r := RunSyn1b(ws, after, c, e);
    }
  }

  method RunSyn1b(ws: seq<Word>, after: Word, c: Context, e: Error) returns (r: Parsed)
    ensures r == Syn1b(ws, after, c, e)
    decreases |ws|, 3
  {
    var p := FindSplit(ws, AndAnd);
    if p < |ws| {
      Syn1bAt(ws, p, after, c, e);
      var a := RunSyn2(ws[..p], ws[p], c, e);
      var b := RunSyn1b(ws[p + 1..], after, c, a.e);
      r := Parsed(And({}, a.t, b.t), b.e);
    } else {
      Syn1bNone(ws, after, c, e);
      r := RunSyn2(ws, after, c, e);
    }
  }

  lemma Syn1bAt(ws: seq<Word>, p: nat, after: Word, c: Context, e: Error)
    requires p == Split(ws, 0, AndAnd) < |ws|
    ensures var a := Syn2(ws[..p], ws[p], c, e);
      var b := Syn1b(ws[p + 1..], after, c, a.e);
      Syn1b(ws, after, c, e) == Parsed(And({}, a.t, b.t), b.e)
  {
  }

  lemma Syn1bNone(ws: seq<Word>, after: Word, c: Context, e: Error)
    requires Split(ws, 0, AndAnd) == |ws|
    ensures Syn1b(ws, after, c, e) == Syn2(ws, after, c, e)
  {
  }

  method RunSyn2(ws: seq<Word>, after: Word, c: Context, e: Error) returns (r: Parsed)
    ensures r == Syn2(ws, after, c, e)
    decreases |ws|, 2
  {
    var p := FindSplit(ws, Bar);
    if p < |ws| {
      var both := p + 1 < |ws| && First(ws[p + 1]) == '&';
      var a := RunSyn3(ws[..p], ws[p], c.(pout := true, perr := c.perr || both), e);
      var b := RunSyn2(ws[if both then p + 2 else p + 1..], after, c.(pin := true), a.e);
      r := Parsed(Pipe(Raise({}, both, STDERR), a.t, b.t), b.e);
    } else {
      r := RunSyn3(ws, after, c, e);
    }
  }

  method RunSyn3(ws: seq<Word>, after: Word, c: Context, e: Error) returns (r: Parsed)
    ensures r == Syn3(ws, after, c, e)
    decreases |ws|, 1
  {
    var special, s := ScanCommand(ws, after, c, e);
    if s.lp.Some? && !special {
      var e1 := if s.n != 0 then SetError(s.e, BadPlps) else s.e;
      if s.rp.Some? && 0 < s.lp.value <= s.rp.value < |ws| {
        var inner := RunSyn0(ws[s.lp.value..s.rp.value], ws[s.rp.value], InParens, e1);
        r := Parsed(Paren(s.flg, s.lef, s.rit, inner.t), inner.e);
      } else {
        r := Parsed(Paren(s.flg, s.lef, s.rit, Null), OffList);
      }
    } else {
      r := Parsed(Command(s.flg, s.lef, s.rit, s.com), if s.n == 0 then SetError(s.e, NullCommand) else s.e);
    }
  }
}
