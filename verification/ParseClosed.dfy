/**
 * What the parser accepts: the trees it builds without an error are exactly the well-formed
 * ones, with lists put in the background as a whole.
 */
module ParseClosed {
  import opened Common
  import opened Parse
  import opened ParsePrint
  import opened ParseRoundTrip
  import opened ParseEnds

  // ----- an error stays -----

  lemma {:induction false} WalkKeeps(ws: seq<Word>, l: int, e: Error)
    requires WalkAmp(ws, l, e).e == NoError
    ensures e == NoError
    decreases |ws|
  {
    if ws != [] && !(l == 0 && Backgrounds(ws[0])) {
      WalkStep(ws, l, e);
      var (l', e') := Deeper(ws[0], l, e);
      WalkKeeps(ws[Stride(ws)..], l', e');
    }
  }

  lemma TakeKeepsError(ws: seq<Word>, p: nat, special: bool, c: Context, s: Scan)
    requires ws != [] && Take(ws, p, special, c, s).s.e == NoError
    ensures s.e == NoError
  {
  }

  lemma {:induction false} PassKeeps(ws: seq<Word>, p: nat, special: bool, c: Context, s: Scan, goal: Scan)
    requires Leads(ws, p, special, c, s, goal) && goal.e == NoError
    ensures s.e == NoError
    decreases |ws| - p
  {
    if p < |ws| {
      var n, s1 := KeepsTurn(ws, p, special, c, s, goal);
      PassKeeps(ws, p + n, special, c, s1, goal);
      TakeKeepsError(ws[p..], p, special, c, s);
    }
  }

  lemma KeepsTurn(ws: seq<Word>, p: nat, special: bool, c: Context, s: Scan, goal: Scan) returns (n: nat, s1: Scan)
    requires p < |ws| && Leads(ws, p, special, c, s, goal)
    ensures n > 0 && Leads(ws, p + n, special, c, s1, goal) == true
    ensures Take(ws[p..], p, special, c, s) == Taken(s1, n)
  {
    NextPass(ws, p, special, c, s, goal);
    var r := Take(ws[p..], p, special, c, s);
    n, s1 := r.n, r.s;
  }

  lemma {:induction false} Keeps3(ws: seq<Word>, after: Word, c: Context, e: Error)
    requires Syn3(ws, after, c, e).e == NoError
    ensures e == NoError
    decreases |ws|, 1
  {
    var special := Special(ws);
    var s := Pass(ws, 0, special, c, Fresh(after, e));
    if s.lp.Some? && !special {
      var s1 := if s.n != 0 then Fail(s, BadPlps) else s;
      Keeps0(ws[s.lp.value..s.rp.value], ws[s.rp.value], InParens, s1.e);
    }
    assert ws[0..] == ws;
    PassKeeps(ws, 0, special, c, Fresh(after, e), s);
  }

  lemma {:induction false} Keeps2(ws: seq<Word>, after: Word, c: Context, e: Error)
    requires Syn2(ws, after, c, e).e == NoError
    ensures e == NoError
    decreases |ws|, 2
  {
    var p := Split(ws, 0, Bar);
    if p < |ws| {
      var both := p + 1 < |ws| && First(ws[p + 1]) == '&';
      var c1 := c.(pout := true, perr := c.perr || both);
      Keeps2(ws[if both then p + 2 else p + 1..], after, c.(pin := true), Syn3(ws[..p], ws[p], c1, e).e);
      Keeps3(ws[..p], ws[p], c1, e);
    } else {
      Keeps3(ws, after, c, e);
    }
  }

  lemma {:induction false} Keeps1b(ws: seq<Word>, after: Word, c: Context, e: Error)
    requires Syn1b(ws, after, c, e).e == NoError
    ensures e == NoError
    decreases |ws|, 3
  {
    var p := Split(ws, 0, AndAnd);
    if p < |ws| {
      Keeps1b(ws[p + 1..], after, c, Syn2(ws[..p], ws[p], c, e).e);
      Keeps2(ws[..p], ws[p], c, e);
    } else {
      Keeps2(ws, after, c, e);
    }
  }

  lemma {:induction false} Keeps1a(ws: seq<Word>, after: Word, c: Context, e: Error)
    requires Syn1a(ws, after, c, e).e == NoError
    ensures e == NoError
    decreases |ws|, 4
  {
    var p := Split(ws, 0, OrOr);
    if p < |ws| {
      Keeps1a(ws[p + 1..], after, c, Syn1b(ws[..p], ws[p], c, e).e);
      Keeps1b(ws[..p], ws[p], c, e);
    } else {
      Keeps1b(ws, after, c, e);
    }
  }

  lemma {:induction false} Keeps1(ws: seq<Word>, after: Word, c: Context, e: Error)
    requires Syn1(ws, after, c, e).e == NoError
    ensures e == NoError
    decreases |ws|, 5
  {
    var p := Split(ws, 0, Semi);
    if p < |ws| {
      KeepsSyntax(ws[p + 1..], after, c, Syn1a(ws[..p], ws[p], c, e).e);
      Keeps1a(ws[..p], ws[p], c, e);
    } else {
      Keeps1a(ws, after, c, e);
    }
  }

  lemma {:induction false} Keeps0(ws: seq<Word>, after: Word, c: Context, e: Error)
    requires Syn0(ws, after, c, e).e == NoError
    ensures e == NoError
    decreases |ws|, 6
  {
    var w := WalkAmp(ws, 0, e);
    if w.p < |ws| {
      KeepsSyntax(ws[w.p..], after, c, Syn1(ws[..w.p], ws[w.p], c, w.e).e);
      Keeps1(ws[..w.p], ws[w.p], c, w.e);
    } else if w.l == 0 {
      Keeps1(ws, after, c, w.e);
    }
    WalkKeeps(ws, 0, e);
  }

  // Whatever follows an error, the parse ends with one.
  lemma {:induction false} KeepsSyntax(ws: seq<Word>, after: Word, c: Context, e: Error)
    requires Syntax(ws, after, c, e).e == NoError
    ensures e == NoError
    decreases |ws|, if ws != [] && Skipped(ws[0]) then 0 else 7
  {
    if ws != [] {
      if Skipped(ws[0]) {
        KeepsSyntax(ws[1..], after, c, e);
      } else {
        Keeps0(ws, after, c, e);
      }
    }
  }

  // ----- the words each part of the parser gets -----

  // Words with matching parentheses over which syn0 walks without stopping.
  predicate Even(ws: seq<Word>) {
    Quiet(ws, 0) && Net(ws) == 0
  }

  lemma {:induction false} WalkQuiet(ws: seq<Word>, l: int, e: Error, w: Walk)
    requires l >= 0 && WalkAmp(ws, l, e) == w && w.e == NoError
    ensures Quiet(ws[..w.p], l) == true
    decreases |ws|
  {
    if ws != [] && !(l == 0 && Backgrounds(ws[0])) {
      var n, l', e', r := QuietParts(ws, l, e, w);
      WalkQuiet(ws[n..], l', e', r);
      PrefixQuiet(ws, l, l', n, w.p);
    } else {
      assert ws[..w.p] == [];
    }
  }

  // One step of the walk that brings no error.
  lemma QuietParts(ws: seq<Word>, l: int, e: Error, w: Walk) returns (n: nat, l': int, e': Error, r: Walk)
    requires l >= 0 && ws != [] && !(l == 0 && Backgrounds(ws[0])) && WalkAmp(ws, l, e) == w && w.e == NoError
    ensures n == Stride(ws) && l' == l + Delta(ws[0]) >= 0 && WalkAmp(ws[n..], l', e') == r
    ensures w.p == r.p + n && r.p <= |ws[n..]| && r.e == NoError
  {
    n := Stride(ws);
    var d := Deeper(ws[0], l, e);
    l', e' := d.0, d.1;
    r := WalkAmp(ws[n..], l', e');
    WalkStep(ws, l, e);
    WalkKeeps(ws[n..], l', e');
  }

  // Words before a place where the walk stops, or where no ampersand stands.
  lemma PrefixQuiet(ws: seq<Word>, l: int, l': int, n: nat, p: nat)
    requires ws != [] && n == Stride(ws) <= p <= |ws| && !(l == 0 && Backgrounds(ws[0])) && l' == l + Delta(ws[0]) >= 0
    requires Quiet(ws[n..][..p - n], l')
    ensures Quiet(ws[..p], l) == true
  {
    SlicePart(ws, n, p);
    QuietGrows(ws[..p], n, l, l');
  }

  lemma SlicePart(ws: seq<Word>, n: nat, p: nat)
    requires ws != [] && n == Stride(ws) <= p <= |ws|
    ensures Stride(ws[..p]) == n && ws[..p][n..] == ws[n..][..p - n]
  {
  }

  lemma QuietStep(ws: seq<Word>, l: int) returns (n: nat, l': int)
    requires ws != [] && Quiet(ws, l)
    ensures n == Stride(ws) && l' == l + Delta(ws[0]) >= 0 && !(l == 0 && Backgrounds(ws[0])) && Quiet(ws[n..], l') == true
  {
    n, l' := Stride(ws), l + Delta(ws[0]);
  }

  lemma {:induction false} QuietAt(ws: seq<Word>, l: int, p: nat)
    requires Quiet(ws, l) && p <= |ws| && (p < |ws| ==> !IsAnd(ws[p]))
    ensures Quiet(ws[..p], l) == true && Quiet(ws[p..], l + Net(ws[..p])) == true
    decreases |ws|
  {
    if p == 0 {
      assert ws[..0] == [] && ws[0..] == ws;
    } else {
      var n, l' := QuietStep(ws, l);
      assert n <= p;
      QuietAt(ws[n..], l', p - n);
      PrefixQuiet(ws, l, l', n, p);
      WalkNet(ws, n, p - n);
      assert ws[n..][p - n..] == ws[p..] && n + (p - n) == p;
    }
  }

  lemma {:induction false} ClearSplit(a: seq<Word>, b: seq<Word>, l: int, k: Separator)
    requires Clear(a + b, l, k)
    ensures Clear(a, l, k) && Clear(b, l + Net(a), k)
  {
    if a == [] {
      assert a + b == b;
    } else {
      assert (a + b)[1..] == a[1..] + b && (a + b)[0] == a[0];
      ClearSplit(a[1..], b, l + Delta(a[0]), k);
    }
  }

  lemma ClearAt(ws: seq<Word>, l: int, k: Separator, p: nat)
    requires Clear(ws, l, k) && p <= |ws|
    ensures Clear(ws[..p], l, k) && Clear(ws[p..], l + Net(ws[..p]), k)
  {
    assert ws == ws[..p] + ws[p..];
    ClearSplit(ws[..p], ws[p..], l, k);
  }

  lemma {:induction false} SplitClear(ws: seq<Word>, l: int, k: Separator)
    ensures Clear(ws[..Split(ws, l, k)], l, k)
    decreases |ws|
  {
    var p := Split(ws, l, k);
    if p > 0 {
      SplitClear(ws[1..], l + Delta(ws[0]), k);
      assert ws[1..][..p - 1] == ws[..p][1..];
    }
  }

  function Sep(n: nat): Separator {
    if n == 0 then Semi else if n == 1 then OrOr else if n == 2 then AndAnd else Bar
  }

  // The words of level n: those of syn1, syn1a, syn1b, syn2 and syn3.
  predicate OfLevel(ws: seq<Word>, n: nat) {
    Even(ws) && forall i: nat | i < n :: Clear(ws, 0, Sep(i))
  }

  // The two sides of a place at depth 0.
  lemma LevelAt(ws: seq<Word>, n: nat, p: nat, m: nat)
    requires OfLevel(ws, n) && p < p + m <= |ws| && Net(ws[..p]) == 0 && !IsAnd(ws[p])
    requires m == Stride(ws[p..]) && Delta(ws[p]) == 0
    ensures OfLevel(ws[..p], n) && OfLevel(ws[p + m..], n)
  {
    QuietAt(ws, 0, p);
    var right := ws[p..];
    assert right[0] == ws[p] && right[m..] == ws[p + m..];
    StrideNet(right);
    RisesSplit(ws[..p], right, 0);
    assert ws == ws[..p] + right;
    RisesSplit(right[..m], right[m..], 0);
    assert right == right[..m] + right[m..];
    forall i: nat | i < n ensures Clear(ws[..p], 0, Sep(i)) && Clear(ws[p + m..], 0, Sep(i)) {
      ClearAt(ws, 0, Sep(i), p);
      ClearAt(right, 0, Sep(i), m);
    }
  }

  // What lies before the first separator of level n, and behind it.
  lemma LevelSplit(ws: seq<Word>, n: nat, p: nat)
    requires n <= 2 && OfLevel(ws, n) && p == Split(ws, 0, Sep(n))
    ensures p < |ws| ==> OfLevel(ws[..p], n + 1) && OfLevel(ws[p + 1..], n)
    ensures p == |ws| ==> OfLevel(ws, n + 1)
  {
    SplitClear(ws, 0, Sep(n));
    if p < |ws| {
      SplitDepth(ws, 0, Sep(n));
      LevelAt(ws, n, p, 1);
    } else {
      assert ws[..p] == ws;
    }
  }

  // The same for a pipe, which may take an ampersand with it.
  lemma LevelPipe(ws: seq<Word>, p: nat, both: bool)
    requires OfLevel(ws, 3) && p == Split(ws, 0, Bar) < |ws| && both == (p + 1 < |ws| && First(ws[p + 1]) == '&')
    ensures OfLevel(ws[..p], 4) && (both ==> p + 2 <= |ws|) && OfLevel(ws[if both then p + 2 else p + 1..], 3)
  {
    SplitClear(ws, 0, Bar);
    SplitDepth(ws, 0, Bar);
    PipeStride(ws, p, both);
    LevelAt(ws, 3, p, if both then 2 else 1);
    assert Sep(3) == Bar;
  }

  lemma PipeStride(ws: seq<Word>, p: nat, both: bool)
    requires OfLevel(ws, 3) && p < |ws| && Net(ws[..p]) == 0 && First(ws[p]) == '|'
    requires both == (p + 1 < |ws| && First(ws[p + 1]) == '&')
    ensures Stride(ws[p..]) == if both then 2 else 1
  {
    assert Clear(ws, 0, Sep(1)) && Clear(ws, 0, Sep(2));
    PointClear(ws, 0, OrOr, p);
    if both {
      NetNext(ws, 0, p);
      assert ws[0..p] == ws[..p] && ws[0..p + 1] == ws[..p + 1];
      PointClear(ws, 0, AndAnd, p + 1);
      PointAnd(ws, 0, p + 1);
      assert ws[p..][1] == ws[p + 1];
    }
  }

  // ----- one word of them -----

  // No separator stands at depth 0.
  lemma {:induction false} PointClear(ws: seq<Word>, l: int, k: Separator, i: nat)
    requires Clear(ws, l, k) && i < |ws| && l + Net(ws[..i]) == 0
    ensures !Separates(k, ws[i])
    decreases i
  {
    if i > 0 {
      assert ws[..i][1..] == ws[1..][..i - 1];
      PointClear(ws[1..], l + Delta(ws[0]), k, i - 1);
    }
  }

  // An ampersand there is one that belongs to the word before it.
  lemma {:induction false} PointAnd(ws: seq<Word>, l: int, i: nat)
    requires Quiet(ws, l) && i < |ws| && l + Net(ws[..i]) == 0 && First(ws[i]) == '&' && Second(ws[i]) != '&'
    ensures i > 0 && IsAnd(ws[i]) && (First(ws[i - 1]) == '>' || First(ws[i - 1]) == '|')
    decreases |ws|
  {
    if i > 0 {
      var n := Stride(ws);
      if i >= n {
        WalkNet(ws, n, i - n);
        assert n + (i - n) == i && ws[n..][i - n] == ws[i];
        PointAnd(ws[n..], l + Delta(ws[0]), i - n);
      }
    }
  }

  // What stands at depth 0 in the words of a command: an ampersand only behind a `>`.
  predicate AtRest(ws: seq<Word>, i: nat)
    requires i < |ws|
  {
    First(ws[i]) != ';' && First(ws[i]) != '\n' && First(ws[i]) != '|' &&
    (First(ws[i]) == '&' ==> i > 0 && IsAnd(ws[i]) && First(ws[i - 1]) == '>')
  }

  predicate Settled(ws: seq<Word>) {
    Rises(ws, 0) && Net(ws) == 0 && forall i | 0 <= i < |ws| && Net(ws[..i]) == 0 :: AtRest(ws, i)
  }

  lemma {:induction false} QuietRises(ws: seq<Word>, l: int)
    requires Quiet(ws, l) && l >= 0
    ensures Rises(ws, l)
    decreases |ws|
  {
    if ws != [] {
      QuietRises(ws[Stride(ws)..], l + Delta(ws[0]));
      if Stride(ws) == 2 {
        assert ws[1..][1..] == ws[2..];
        assert Rises(ws[1..], l);
      }
    }
  }

  lemma LevelSettled(ws: seq<Word>)
    requires OfLevel(ws, 4)
    ensures Settled(ws)
  {
    QuietRises(ws, 0);
    forall i | 0 <= i < |ws| && Net(ws[..i]) == 0 ensures AtRest(ws, i) {
      LevelAtRest(ws, i);
    }
  }

  lemma LevelAtRest(ws: seq<Word>, i: nat)
    requires OfLevel(ws, 4) && i < |ws| && Net(ws[..i]) == 0
    ensures AtRest(ws, i)
  {
    assert Clear(ws, 0, Sep(0)) && Clear(ws, 0, Sep(2)) && Clear(ws, 0, Sep(3));
    PointClear(ws, 0, Semi, i);
    PointClear(ws, 0, AndAnd, i);
    PointClear(ws, 0, Bar, i);
    if First(ws[i]) == '&' {
      PointAnd(ws, 0, i);
      if First(ws[i - 1]) == '|' {
        NetNext(ws, 0, i - 1);
        assert ws[0..i] == ws[..i] && ws[0..i - 1] == ws[..i - 1];
        PointClear(ws, 0, Bar, i - 1);
      }
    }
  }

  // ----- the second pass of syn3 -----

  // The words stored so far are plain outside parentheses and end m deep.
  predicate Reaches(com: seq<Word>, m: int) {
    if com == [] then m == 0
    else
      var w, front := com[|com| - 1], com[..|com| - 1];
      (if Opens(w) then m >= 1 else m >= 0) && (Delta(w) == 0 && m == 0 ==> Plain(w)) && Reaches(front, m - Delta(w))
  }

  lemma {:induction false} ReachesMatched(com: seq<Word>, rest: seq<Word>, m: nat)
    requires Reaches(com, m) && Matched(rest, m)
    ensures Matched(com + rest, 0)
    decreases |com|
  {
    if com == [] {
      assert com + rest == rest;
    } else {
      var w, front := com[|com| - 1], com[..|com| - 1];
      var rest' := [w] + rest;
      assert rest'[1..] == rest && com + rest == front + rest';
      ReachesMatched(front, rest', m - Delta(w));
    }
  }

  lemma ReachesMore(com: seq<Word>, w: Word, m: int)
    requires Reaches(com, m) && m >= 0 && m + Delta(w) >= 0 && (Delta(w) == 0 && m == 0 ==> Plain(w))
    ensures Reaches(com + [w], m + Delta(w))
  {
    var all := com + [w];
    assert all[..|all| - 1] == com && all[|all| - 1] == w;
  }

  // What the second pass has made of the words before place p, if there was no error.
  predicate Along(ws: seq<Word>, p: nat, special: bool, c: Context, s: Scan) {
    p <= |ws| && s.e == NoError && s.l == Net(ws[..p]) && (p > 0 && First(ws[p - 1]) == '>' ==> s.l != 0) &&
    WfNames(s.flg, s.lef, s.rit, c) && AMPERSAND !in s.flg && NOINTERRUPT !in s.flg && |s.com| == s.n &&
    if special then Reaches(s.com, s.l) else AllPlain(s.com)
  }

  // One word further.
  lemma DepthNext(ws: seq<Word>, p: nat)
    requires p < |ws| && Rises(ws, 0)
    ensures Net(ws[..p + 1]) == Net(ws[..p]) + Delta(ws[p]) && Net(ws[..p]) >= 0 && Net(ws[..p + 1]) >= 0
  {
    NetNext(ws, 0, p);
    assert ws[0..p] == ws[..p] && ws[0..p + 1] == ws[..p + 1];
    PrefixRises(ws, p);
    PrefixRises(ws, p + 1);
  }

  // A turn that takes one word, and stores it or not.
  lemma TakeOne(ws: seq<Word>, p: nat, special: bool, c: Context, s: Scan)
    requires ws != [] && !(Redirects(ws[0]) && s.l == 0) && s.e == NoError
    requires Take(ws, p, special, c, s).s.e == NoError
    ensures var r := Take(ws, p, special, c, s);
      var stored := special || (s.l == 0 && Delta(ws[0]) == 0);
      r.n == 1 && r.s.l == s.l + Delta(ws[0]) && r.s.flg == s.flg && r.s.lef == s.lef && r.s.rit == s.rit &&
      r.s.com == (if stored then s.com + [ws[0]] else s.com) && r.s.n == (if stored then s.n + 1 else s.n)
  {
  }

  // A word at depth 0 that the pass takes by itself is plain.
  lemma PlainHere(ws: seq<Word>, p: nat, special: bool, c: Context, s: Scan)
    requires p < |ws| && Settled(ws) && Along(ws, p, special, c, s) && s.l == 0 && !RelPar(ws[p])
    ensures Plain(ws[p])
  {
    assert AtRest(ws, p);
  }

  lemma AlongOne(ws: seq<Word>, p: nat, special: bool, c: Context, s: Scan)
    requires p < |ws| && Settled(ws) && Along(ws, p, special, c, s) && !(Redirects(ws[p]) && s.l == 0)
    requires Take(ws[p..], p, special, c, s).s.e == NoError
    ensures var r := Take(ws[p..], p, special, c, s); Along(ws, p + r.n, special, c, r.s)
  {
    var w := ws[p];
    assert ws[p..][0] == w;
    TakeOne(ws[p..], p, special, c, s);
    DepthNext(ws, p);
    if s.l == 0 && Delta(w) == 0 {
      PlainHere(ws, p, special, c, s);
    }
    if special {
      ReachesMore(s.com, w, s.l);
    }
  }

  // Words that are no parentheses do not change the depth.
  lemma {:induction false} DepthSame(ws: seq<Word>, p: nat, n: nat)
    requires p + n <= |ws| && forall i | p <= i < p + n :: Delta(ws[i]) == 0
    ensures Net(ws[..p + n]) == Net(ws[..p])
    decreases n
  {
    if n > 0 {
      DepthSame(ws, p, n - 1);
      NetNext(ws, 0, p + n - 1);
      assert ws[0..p + n - 1] == ws[..p + n - 1] && ws[0..p + n] == ws[..p + n];
    }
  }

  // A name is plain: an ampersand behind `>` is taken for a mark.
  lemma PlainName(ws: seq<Word>, p: nat, j: nat)
    requires p < j < |ws| && Settled(ws) && Net(ws[..p]) == 0 && Redirects(ws[p])
    requires forall i | p < i <= j :: !RelPar(ws[i])
    requires j == p + 1 && First(ws[p]) == '>' ==> !IsAnd(ws[j])
    ensures Plain(ws[j])
  {
    DepthSame(ws, p, j - p);
    assert AtRest(ws, j);
    assert j > p + 1 ==> !RelPar(ws[j - 1]);
  }

  // What an output redirection leaves, and where its name is.
  lemma OutName(ws: seq<Word>, c: Context, flg: Flags, lef: Option<Word>, rit: Option<Word>)
    requires ws != [] && First(ws[0]) == '>' && TakeOut(ws, c, flg, rit, NoError).e == NoError
    requires WfNames(flg, lef, rit, c) && AMPERSAND !in flg && NOINTERRUPT !in flg
    ensures var r := TakeOut(ws, c, flg, rit, NoError);
      r.n >= 2 && r.name == Some(ws[r.n - 1]) && (r.n == 2 ==> !IsAnd(ws[1])) &&
      AMPERSAND !in r.flg && NOINTERRUPT !in r.flg && (Plain(ws[r.n - 1]) ==> WfNames(r.flg, lef, r.name, c))
  {
  }

  lemma InName(ws: seq<Word>, c: Context, flg: Flags, lef: Option<Word>, rit: Option<Word>)
    requires ws != [] && First(ws[0]) == '<' && TakeIn(ws, c, flg, lef, NoError).e == NoError
    requires WfNames(flg, lef, rit, c) && AMPERSAND !in flg && NOINTERRUPT !in flg
    ensures var r := TakeIn(ws, c, flg, lef, NoError);
      r.n == 2 && r.name == Some(ws[1]) && !RelPar(ws[1]) &&
      AMPERSAND !in r.flg && NOINTERRUPT !in r.flg && (Plain(ws[1]) ==> WfNames(r.flg, r.name, rit, c))
  {
  }

  // A turn over a redirection whose name is at j.
  lemma AlongName(ws: seq<Word>, p: nat, j: nat, special: bool, c: Context, s: Scan, flg: Flags,
    lef: Option<Word>, rit: Option<Word>)
    requires p < j < |ws| && Settled(ws) && Along(ws, p, special, c, s) && s.l == 0 && Redirects(ws[p])
    requires (forall i | p < i <= j :: !RelPar(ws[i])) && (j == p + 1 && First(ws[p]) == '>' ==> !IsAnd(ws[j]))
    requires AMPERSAND !in flg && NOINTERRUPT !in flg && (Plain(ws[j]) ==> WfNames(flg, lef, rit, c))
    ensures Along(ws, j + 1, special, c, s.(flg := flg, lef := lef, rit := rit))
  {
    PlainName(ws, p, j);
    DepthSame(ws, p, j + 1 - p);
    assert p + (j + 1 - p) == j + 1;
  }

  lemma AlongOut(ws: seq<Word>, p: nat, special: bool, c: Context, s: Scan)
    requires p < |ws| && Settled(ws) && Along(ws, p, special, c, s) && First(ws[p]) == '>' && s.l == 0
    requires Take(ws[p..], p, special, c, s).s.e == NoError
    ensures var r := Take(ws[p..], p, special, c, s); Along(ws, p + r.n, special, c, r.s)
  {
    var more := ws[p..];
    var r := TakeOut(more, c, s.flg, s.rit, s.e);
    OutWords(more, c, s.flg, s.rit, s.e);
    OutName(more, c, s.flg, s.lef, s.rit);
    forall i | p < i <= p + r.n - 1 ensures !RelPar(ws[i]) {
      assert ws[i] == more[i - p];
    }
    assert more[r.n - 1] == ws[p + r.n - 1] && more[1] == ws[p + 1];
    AlongName(ws, p, p + r.n - 1, special, c, s, r.flg, s.lef, r.name);
  }

  lemma AlongIn(ws: seq<Word>, p: nat, special: bool, c: Context, s: Scan)
    requires p < |ws| && Settled(ws) && Along(ws, p, special, c, s) && First(ws[p]) == '<' && s.l == 0
    requires Take(ws[p..], p, special, c, s).s.e == NoError
    ensures var r := Take(ws[p..], p, special, c, s); Along(ws, p + r.n, special, c, r.s)
  {
    var more := ws[p..];
    var r := TakeIn(more, c, s.flg, s.lef, s.e);
    InName(more, c, s.flg, s.lef, s.rit);
    assert more[1] == ws[p + 1];
    AlongName(ws, p, p + 1, special, c, s, r.flg, r.name, s.rit);
  }

  lemma {:induction false} AlongPass(ws: seq<Word>, p: nat, special: bool, c: Context, s: Scan, goal: Scan)
    requires Settled(ws) && Along(ws, p, special, c, s) && Leads(ws, p, special, c, s, goal) && goal.e == NoError
    ensures Along(ws, |ws|, special, c, goal) == true
    decreases |ws| - p
  {
    if p < |ws| {
      var n, s1 := AlongTurn(ws, p, special, c, s, goal);
      AlongPass(ws, p + n, special, c, s1, goal);
    } else {
      assert ws[p..] == [];
    }
  }

  lemma AlongTurn(ws: seq<Word>, p: nat, special: bool, c: Context, s: Scan, goal: Scan) returns (n: nat, s1: Scan)
    requires p < |ws| && Settled(ws) && Along(ws, p, special, c, s) && Leads(ws, p, special, c, s, goal) && goal.e == NoError
    ensures n > 0 && Along(ws, p + n, special, c, s1) == true && Leads(ws, p + n, special, c, s1, goal) == true
  {
    n, s1 := KeepsTurn(ws, p, special, c, s, goal);
    PassKeeps(ws, p + n, special, c, s1, goal);
    if !(Redirects(ws[p]) && s.l == 0) {
      AlongOne(ws, p, special, c, s);
    } else if First(ws[p]) == '>' {
      AlongOut(ws, p, special, c, s);
    } else {
      AlongIn(ws, p, special, c, s);
    }
  }

  // ----- commands whose words may hold parentheses -----

  lemma {:induction false} SpecialMore(a: seq<Word>, b: seq<Word>)
    requires Special(a)
    ensures Special(a + b)
  {
    assert (a + b)[0] == a[0] && (a + b)[1..] == a[1..] + b;
    if a[0] !in Specials {
      SpecialMore(a[1..], b);
    }
  }

  // The words up to the one that makes the command special are no operators.
  lemma {:induction false} SpecialNext(ws: seq<Word>, p: nat)
    requires Special(ws) && p <= |ws| && !Special(ws[..p])
    ensures p < |ws| && !RelPar(ws[p])
    decreases p
  {
    if p > 0 {
      assert ws[..p][1..] == ws[1..][..p - 1];
      SpecialNext(ws[1..], p - 1);
    } else {
      assert forall w | w in Specials :: !RelPar(w);
    }
  }

  // They are stored.
  predicate Spelt(ws: seq<Word>, p: nat, s: Scan) {
    p <= |ws| && s.e == NoError && (Special(s.com) || (s.l == 0 && s.com == ws[..p]))
  }

  lemma TakeGrows(ws: seq<Word>, p: nat, special: bool, c: Context, s: Scan) returns (more: seq<Word>)
    requires ws != [] && s.e == NoError && Take(ws, p, special, c, s).s.e == NoError
    ensures Take(ws, p, special, c, s).s.com == s.com + more
  {
    var com := Take(ws, p, special, c, s).s.com;
    more := if com == s.com then [] else [ws[0]];
    assert s.com + [] == s.com;
  }

  lemma SpeltTake(ws: seq<Word>, p: nat, c: Context, s: Scan)
    requires p < |ws| && Special(ws) && Spelt(ws, p, s) && Take(ws[p..], p, true, c, s).s.e == NoError
    ensures var r := Take(ws[p..], p, true, c, s); Spelt(ws, p + r.n, r.s) == true
  {
    if Special(s.com) {
      var more := TakeGrows(ws[p..], p, true, c, s);
      SpecialMore(s.com, more);
    } else {
      SpecialNext(ws, p);
      TakeOne(ws[p..], p, true, c, s);
      assert ws[..p + 1] == ws[..p] + [ws[p]];
    }
  }

  lemma SpeltTurn(ws: seq<Word>, p: nat, c: Context, s: Scan, goal: Scan) returns (n: nat, s1: Scan)
    requires p < |ws| && Special(ws) && Spelt(ws, p, s) && Leads(ws, p, true, c, s, goal) && goal.e == NoError
    ensures n > 0 && Spelt(ws, p + n, s1) == true && Leads(ws, p + n, true, c, s1, goal) == true
  {
    n, s1 := KeepsTurn(ws, p, true, c, s, goal);
    PassKeeps(ws, p + n, true, c, s1, goal);
    SpeltTake(ws, p, c, s);
  }

  lemma {:induction false} SpeltPass(ws: seq<Word>, p: nat, c: Context, s: Scan, goal: Scan)
    requires Special(ws) && Spelt(ws, p, s) && Leads(ws, p, true, c, s, goal) && goal.e == NoError
    ensures Special(goal.com)
    decreases |ws| - p
  {
    if p < |ws| {
      var n, s1 := SpeltTurn(ws, p, c, s, goal);
      SpeltPass(ws, p + n, c, s1, goal);
    } else {
      assert ws[..p] == ws;
    }
  }

  // ----- what is accepted -----

  // A list put in the background as a whole.
  predicate Group(t: Tree, c: Context) {
    t.Paren? && t.flg == {AMPERSAND, NOINTERRUPT} && t.lef == None && t.rit == None &&
    (t.spr.List? || t.spr.And? || t.spr.Or?) && Wf1(t.spr, c)
  }

  // A well-formed tree, in which such lists may be.
  predicate Accepted(t: Tree, c: Context) {
    if t.List? && InBackground(t.car) then
      t.flg == {} && ((NOINTERRUPT in t.car.flg && Wf2(t.car, c)) || Group(t.car, c)) && (t.cdr.Null? || Accepted(t.cdr, c))
    else Wf1(t, c)
  }

  // In parentheses they are no other trees.
  lemma {:induction false} AcceptedInParens(t: Tree)
    requires Accepted(t, InParens)
    ensures Wf0(t, InParens)
  {
    if t.List? && InBackground(t.car) {
      if Group(t.car, InParens) {
        Wf1Is0(t.car.spr, InParens);
        assert Wf3(t.car, InParens);
      }
      if !t.cdr.Null? {
        AcceptedInParens(t.cdr);
      }
    } else {
      Wf1Is0(t, InParens);
    }
  }

  lemma AtStart(ws: seq<Word>, after: Word, c: Context)
    ensures Along(ws, 0, Special(ws), c, Fresh(after, NoError)) && Spelt(ws, 0, Fresh(after, NoError))
    ensures var s := Fresh(after, NoError); Leads(ws, 0, Special(ws), c, s, Pass(ws, 0, Special(ws), c, s))
  {
    assert ws[..0] == [] && ws[0..] == ws;
  }

  lemma CommandClosed(ws: seq<Word>, c: Context, s: Scan)
    requires Along(ws, |ws|, Special(ws), c, s) && Net(ws) == 0 && s.n > 0 && (Special(ws) ==> Special(s.com))
    ensures Wf3(Command(s.flg, s.lef, s.rit, s.com), c)
  {
    assert ws[..|ws|] == ws;
    if Special(ws) {
      ReachesMatched(s.com, [], 0);
      assert s.com + [] == s.com;
    } else {
      PlainMatched(s.com);
    }
  }

  lemma {:induction false} Closed3(ws: seq<Word>, after: Word, c: Context)
    requires OfLevel(ws, 4) && Syn3(ws, after, c, NoError).e == NoError
    ensures var t := Syn3(ws, after, c, NoError).t; Wf3(t, c) && Calm(t)
    decreases |ws|, 1
  {
    var special := Special(ws);
    var s := Pass(ws, 0, special, c, Fresh(after, NoError));
    LevelSettled(ws);
    AtStart(ws, after, c);
    if s.lp.Some? && !special {
      var s1 := if s.n != 0 then Fail(s, BadPlps) else s;
      var a := ws[s.lp.value..s.rp.value];
      Keeps0(a, ws[s.rp.value], InParens, s1.e);
      Closed0(a, ws[s.rp.value], InParens);
      AcceptedInParens(Syn0(a, ws[s.rp.value], InParens, NoError).t);
      AlongPass(ws, 0, special, c, Fresh(after, NoError), s);
    } else {
      AlongPass(ws, 0, special, c, Fresh(after, NoError), s);
      if special {
        SpeltPass(ws, 0, c, Fresh(after, NoError), s);
      }
      CommandClosed(ws, c, s);
    }
  }

  lemma {:induction false} Closed2(ws: seq<Word>, after: Word, c: Context)
    requires OfLevel(ws, 3) && !c.perr && Syn2(ws, after, c, NoError).e == NoError
    ensures var t := Syn2(ws, after, c, NoError).t; Wf2(t, c) && Calm(t)
    decreases |ws|, 2
  {
    var p := Split(ws, 0, Bar);
    if p < |ws| {
      var both := p + 1 < |ws| && First(ws[p + 1]) == '&';
      var c1, more := c.(pout := true, perr := both), ws[if both then p + 2 else p + 1..];
      LevelPipe(ws, p, both);
      Keeps2(more, after, c.(pin := true), Syn3(ws[..p], ws[p], c1, NoError).e);
      Closed3(ws[..p], ws[p], c1);
      Closed2(more, after, c.(pin := true));
    } else {
      SplitClear(ws, 0, Bar);
      assert ws[..p] == ws && Sep(3) == Bar;
      Closed3(ws, after, c);
    }
  }

  lemma {:induction false} Closed1b(ws: seq<Word>, after: Word, c: Context)
    requires OfLevel(ws, 2) && !c.perr && Syn1b(ws, after, c, NoError).e == NoError
    ensures Wf1b(Syn1b(ws, after, c, NoError).t, c)
    decreases |ws|, 3
  {
    var p := Split(ws, 0, AndAnd);
    LevelSplit(ws, 2, p);
    if p < |ws| {
      Keeps1b(ws[p + 1..], after, c, Syn2(ws[..p], ws[p], c, NoError).e);
      Closed2(ws[..p], ws[p], c);
      Closed1b(ws[p + 1..], after, c);
    } else {
      Closed2(ws, after, c);
      Shape2(Syn2(ws, after, c, NoError).t, c);
    }
  }

  lemma {:induction false} Closed1a(ws: seq<Word>, after: Word, c: Context)
    requires OfLevel(ws, 1) && !c.perr && Syn1a(ws, after, c, NoError).e == NoError
    ensures Wf1a(Syn1a(ws, after, c, NoError).t, c)
    decreases |ws|, 4
  {
    var p := Split(ws, 0, OrOr);
    LevelSplit(ws, 1, p);
    if p < |ws| {
      Keeps1a(ws[p + 1..], after, c, Syn1b(ws[..p], ws[p], c, NoError).e);
      Closed1b(ws[..p], ws[p], c);
      Closed1a(ws[p + 1..], after, c);
    } else {
      Closed1b(ws, after, c);
      Shape1b(Syn1b(ws, after, c, NoError).t, c);
    }
  }

  lemma {:induction false} Closed1(ws: seq<Word>, after: Word, c: Context)
    requires Even(ws) && !c.perr && Syn1(ws, after, c, NoError).e == NoError
    ensures Wf1(Syn1(ws, after, c, NoError).t, c)
    decreases |ws|, 5
  {
    var p := Split(ws, 0, Semi);
    LevelSplit(ws, 0, p);
    if p < |ws| {
      KeepsSyntax(ws[p + 1..], after, c, Syn1a(ws[..p], ws[p], c, NoError).e);
      Closed1a(ws[..p], ws[p], c);
      ClosedOn(ws[p + 1..], after, c);
      Shape1a(Syn1a(ws[..p], ws[p], c, NoError).t, c);
    } else {
      Closed1a(ws, after, c);
      Shape1a(Syn1a(ws, after, c, NoError).t, c);
    }
  }

  // syntax on words without ampersands of their own.
  lemma {:induction false} ClosedOn(ws: seq<Word>, after: Word, c: Context)
    requires Even(ws) && !c.perr && Syntax(ws, after, c, NoError).e == NoError
    ensures var t := Syntax(ws, after, c, NoError).t; t.Null? || Wf1(t, c)
    decreases |ws|, 6
  {
    if ws != [] {
      if Skipped(ws[0]) {
        EvenRest(ws);
        ClosedOn(ws[1..], after, c);
      } else {
        QuietWalk(ws, 0, NoError);
        Closed1(ws, after, c);
      }
    }
  }

  lemma EvenRest(ws: seq<Word>)
    requires Even(ws) && ws != [] && Skipped(ws[0])
    ensures Even(ws[1..])
  {
    assert Stride(ws) == 1;
  }

  // What syn0 makes of a part put in the background.
  lemma BehindClosed(t: Tree, c: Context)
    requires Wf1(t, c)
    ensures var b := Background(t);
      InBackground(b) && ((NOINTERRUPT in b.flg && Wf2(b, c)) || Group(b, c))
  {
    Wf1Is0(t, c);
    if t.List? || t.And? || t.Or? {
      assert Backgrounded({}) == {AMPERSAND, NOINTERRUPT};
    } else {
      Single(t, c);
      BehindWf(t, c);
    }
  }

  lemma Single(t: Tree, c: Context)
    requires Wf1(t, c) && !t.List? && !t.And? && !t.Or?
    ensures Wf2(t, c) && (t.Pipe? || t.Command? || t.Paren?)
  {
    assert Wf1a(t, c) && Wf1b(t, c);
    Shape2(t, c);
  }

  lemma BehindWf(t: Tree, c: Context)
    requires Wf2(t, c) && (t.Pipe? || t.Command? || t.Paren?)
    ensures Wf2(Background(t), c)
  {
    if t.Pipe? {
      assert Backgrounded(t.flg) - Behind == t.flg - Behind;
    } else {
      BehindNames(t.flg, t.lef, t.rit, c);
      assert Wf3(t, c) && Wf3(Background(t), c);
    }
  }

  lemma BehindNames(flg: Flags, lef: Option<Word>, rit: Option<Word>, c: Context)
    requires WfNames(flg, lef, rit, c)
    ensures WfNames(Backgrounded(flg), lef, rit, c)
  {
  }

  lemma {:induction false} Closed0(ws: seq<Word>, after: Word, c: Context)
    requires !c.perr && Syn0(ws, after, c, NoError).e == NoError
    ensures Accepted(Syn0(ws, after, c, NoError).t, c)
    decreases |ws|, 6
  {
    var w := WalkAmp(ws, 0, NoError);
    WalkDepth(ws, 0, NoError);
    if w.p < |ws| {
      var a := Syn1(ws[..w.p], ws[w.p], c, w.e);
      KeepsSyntax(ws[w.p..], after, c, a.e);
      Keeps1(ws[..w.p], ws[w.p], c, w.e);
      WalkQuiet(ws, 0, NoError, w);
      Closed1(ws[..w.p], ws[w.p], c);
      BehindClosed(a.t, c);
      ClosedRest(ws, w.p, after, c);
    } else {
      Keeps1(ws, after, c, w.e);
      WalkQuiet(ws, 0, NoError, w);
      assert ws[..w.p] == ws;
      Closed1(ws, after, c);
      Wf1Is0(Syn1(ws, after, c, NoError).t, c);
    }
  }

  // From an ampersand on.
  lemma {:induction false} ClosedRest(ws: seq<Word>, p: nat, after: Word, c: Context)
    requires p < |ws| && Skipped(ws[p]) && !c.perr && Syntax(ws[p..], after, c, NoError).e == NoError
    ensures var t := Syntax(ws[p..], after, c, NoError).t; t.Null? || Accepted(t, c)
    decreases |ws|, 5, |ws| - p
  {
    var more := ws[p..];
    assert more[1..] == ws[p + 1..] && more[0] == ws[p];
    if p + 1 < |ws| {
      if Skipped(ws[p + 1]) {
        ClosedRest(ws, p + 1, after, c);
      } else {
        Closed0(ws[p + 1..], after, c);
      }
    }
  }

  // Whatever words the parser takes without an error, the tree is one of these, or there
  // are only separators.
  lemma {:induction false} ClosedSyntax(ws: seq<Word>, after: Word, c: Context)
    requires !c.perr && Syntax(ws, after, c, NoError).e == NoError
    ensures var t := Syntax(ws, after, c, NoError).t; Accepted(t, c) || (t.Null? && forall i | 0 <= i < |ws| :: Skipped(ws[i]))
    decreases |ws|
  {
    if ws != [] {
      if Skipped(ws[0]) {
        ClosedSyntax(ws[1..], after, c);
        assert forall i | 0 < i < |ws| :: ws[i] == ws[1..][i - 1];
      } else {
        Closed0(ws, after, c);
      }
    }
  }

  // ----- and all of them are -----

  // Words for a tree that is accepted: a list put in the background is not put in
  // parentheses.
  function Spell(t: Tree, c: Context): seq<Word> {
    if t.List? && InBackground(t.car) then
      Show(if Group(t.car, c) then t.car.spr else t.car) + ["&"] + (if t.cdr.Null? then [] else Spell(t.cdr, c))
    else Show(t)
  }

  // r is t but for the marks that parentheses make, read without error.
  ghost predicate Gives(r: Parsed, t: Tree) {
    r.e == NoError && Unmarked(r.t) == Unmarked(t)
  }

  lemma {:induction false} SpellReads(t: Tree, after: Word, c: Context)
    requires Accepted(t, c) && !c.perr
    ensures var ws := Spell(t, c); ws != [] && !Skipped(ws[0]) && Gives(Syn0(ws, after, c, NoError), t)
    decreases t
  {
    if t.List? && InBackground(t.car) {
      var more := if t.cdr.Null? then [] else Spell(t.cdr, c);
      if !t.cdr.Null? {
        SpellReads(t.cdr, after, c);
      }
      assert Gives(Syntax(more, after, c, NoError), t.cdr);
      if Group(t.car, c) {
        SpellGroup(t, more, after, c);
      } else {
        SpellBehind(t, more, after, c);
      }
    } else {
      Wf1Is0(t, c);
      Shows0(t, c);
      Read0(t, after, c);
      MarkedUnmarked(t, Closes(after));
    }
  }

  lemma SpellGroup(t: Tree, more: seq<Word>, after: Word, c: Context)
    requires t.List? && t.flg == {} && Group(t.car, c) && !c.perr && Gives(Syntax(more, after, c, NoError), t.cdr)
    ensures var ws := Show(t.car.spr) + ["&"] + more;
      ws != [] && !Skipped(ws[0]) && Gives(Syn0(ws, after, c, NoError), t)
  {
    Shows1(t.car.spr, c);
    GroupBehind(t.car.spr, more, after, c);
    MarkedUnmarked(t.car.spr, false);
  }

  lemma SpellBehind(t: Tree, more: seq<Word>, after: Word, c: Context)
    requires t.List? && t.flg == {} && InBackground(t.car) && NOINTERRUPT in t.car.flg && Wf2(t.car, c) && !c.perr
    requires Gives(Syntax(more, after, c, NoError), t.cdr)
    ensures var ws := Show(t.car) + ["&"] + more;
      ws != [] && !Skipped(ws[0]) && Gives(Syn0(ws, after, c, NoError), t)
  {
    Shows2(t.car, c, Semi);
    ReadBehind(t.car, c);
    Shape2(t.car, c);
    BackgroundBare(Syn1(Show(t.car), "&", c, NoError).t, t.car);
    Syn0Behind(Show(t.car), more, after, c);
    MarkedUnmarked(t.car, false);
  }

  // Every such tree comes of words that are accepted.
  lemma AllAccepted(t: Tree, after: Word, c: Context) returns (ws: seq<Word>)
    requires Accepted(t, c) && !c.perr
    ensures var r := Syntax(ws, after, c, NoError); r.e == NoError && Unmarked(r.t) == Unmarked(t)
  {
    ws := Spell(t, c);
    SpellReads(t, after, c);
  }

  // So whatever was parsed without an error, and is written out, is parsed as it was.
  lemma SpelledAgain(ws: seq<Word>, after: Word, c: Context)
    requires !c.perr && Syntax(ws, after, c, NoError).e == NoError
    ensures var t := Syntax(ws, after, c, NoError).t;
      var r := Syntax(if t.Null? then [] else Spell(t, c), after, c, NoError);
      r.e == NoError && Unmarked(r.t) == Unmarked(t)
  {
    var t := Syntax(ws, after, c, NoError).t;
    ClosedSyntax(ws, after, c);
    if !t.Null? {
      SpellReads(t, after, c);
    }
  }

  // ----- which commands may hold parentheses -----

  // Words with matching parentheses and no operators outside them come to syn3 as they are.
  lemma MatchedDown(ws: seq<Word>, after: Word, c: Context)
    requires ws != [] && Matched(ws, 0)
    ensures Syntax(ws, after, c, NoError) == Syn3(ws, after, c, NoError)
  {
    MatchedQuiet(ws, 0);
    QuietWalk(ws, 0, NoError);
    MatchedClear(ws, 0, Semi);
    MatchedClear(ws, 0, OrOr);
    MatchedClear(ws, 0, AndAnd);
    MatchedClear(ws, 0, Bar);
    SplitNone(ws, 0, Semi);
    SplitNone(ws, 0, OrOr);
    SplitNone(ws, 0, AndAnd);
    SplitNone(ws, 0, Bar);
    assert Syn2(ws, after, c, NoError) == Syn3(ws, after, c, NoError);
    assert Syn1b(ws, after, c, NoError) == Syn3(ws, after, c, NoError);
    assert Syn1a(ws, after, c, NoError) == Syn3(ws, after, c, NoError);
    assert Syn1(ws, after, c, NoError) == Syn3(ws, after, c, NoError);
  }

  lemma CallMatched(w: Word, x: Word)
    requires Plain(w) && Plain(x)
    ensures Matched([w, "(", x, ")"], 0)
  {
    var ws := [w, "(", x, ")"];
    assert ws[1..] == ["(", x, ")"] && ["(", x, ")"][1..] == [x, ")"] && [x, ")"][1..] == [")"] && [")"][1..] == [];
    assert Matched([")"], 1);
    assert Matched([x, ")"], 1);
    assert Matched(["(", x, ")"], 0);
  }

  // A command is followed by parentheses if and only if it is one of these.
  lemma CallAccepted(w: Word, x: Word, after: Word)
    requires Plain(w) && Plain(x)
    ensures Syntax([w, "(", x, ")"], after, TopLevel, NoError).e == NoError <==>
      w == "@" || w == "exit" || w == "foreach" || w == "if" || w == "set" || w == "switch" || w == "while"
  {
    var ws := [w, "(", x, ")"];
    CallMatched(w, x);
    MatchedDown(ws, after, TopLevel);
    assert ws[1..][0] == "(" && !Special(ws[1..]);
    if Special(ws) {
      var f := CommandParsed({}, None, None, ws, after, TopLevel);
      assert ws + ShowRest({}, None, None) == ws;
    } else {
      CallFails(w, x, after, ws);
    }
  }

  lemma CallPass(w: Word, x: Word, ws: seq<Word>, s: Scan)
    requires Plain(w) && Plain(x) && ws == [w, "(", x, ")"] && s.l == 0 && s.e == NoError && s.lp == None
    ensures Pass(ws, 0, false, TopLevel, s)
      == s.(com := s.com + [w], n := s.n + 1, lp := Some(2), rp := Some(3))
  {
    var s1 := s.(com := s.com + [w], n := s.n + 1);
    var s2 := s1.(l := 1, lp := Some(2));
    var more := ["(", x, ")"];
    assert ws[1..] == more && more[1..] == [x, ")"] && [x, ")"][1..] == [")"] && [")"][1..] == [];
    PassOne(ws, 0, false, TopLevel, s, s1);
    PassOne(more, 1, false, TopLevel, s1, s2);
    PassOne([x, ")"], 2, false, TopLevel, s2, s2);
    PassOne([")"], 3, false, TopLevel, s2, s2.(l := 0, rp := Some(3)));
  }

  lemma CallFails(w: Word, x: Word, after: Word, ws: seq<Word>)
    requires Plain(w) && Plain(x) && ws == [w, "(", x, ")"] && !Special(ws)
    ensures Syn3(ws, after, TopLevel, NoError).e != NoError
  {
    CallPass(w, x, ws, Fresh(after, NoError));
    assert Syn3(ws, after, TopLevel, NoError).e == Syn0(ws[2..3], ws[3], InParens, BadPlps).e;
    if Syn3(ws, after, TopLevel, NoError).e == NoError {
      Keeps0(ws[2..3], ws[3], InParens, BadPlps);
    }
  }
}
