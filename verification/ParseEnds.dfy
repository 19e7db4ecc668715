/**
 * Where the parser keeps to its words: syn3 walks off the words it was given exactly when
 * more closing than opening parentheses stand where it looks for the names of redirections.
 */
module ParseEnds {
  import opened Common
  import opened Parse

  // No closing parenthesis comes before its opening one, from depth l on.
  predicate Rises(ws: seq<Word>, l: int) {
    ws == [] || (l + Delta(ws[0]) >= 0 && Rises(ws[1..], l + Delta(ws[0])))
  }

  lemma {:induction false} RisesSplit(a: seq<Word>, b: seq<Word>, l: int)
    ensures Net(a + b) == Net(a) + Net(b)
    ensures Rises(a + b, l) <==> Rises(a, l) && Rises(b, l + Net(a))
  {
    if a == [] {
      assert a + b == b;
    } else {
      RisesSplit(a[1..], b, l + Delta(a[0]));
      assert (a + b)[1..] == a[1..] + b;
    }
  }

  // The words before and from place i.
  lemma RisesAt(ws: seq<Word>, i: nat, l: int)
    requires i <= |ws| && Rises(ws, l)
    ensures Rises(ws[..i], l) && Rises(ws[i..], l + Net(ws[..i])) && Net(ws) == Net(ws[..i]) + Net(ws[i..])
  {
    RisesSplit(ws[..i], ws[i..], l);
    assert ws == ws[..i] + ws[i..];
  }

  lemma NetNext(ws: seq<Word>, i: nat, j: nat)
    requires i <= j < |ws|
    ensures Net(ws[i..j + 1]) == Net(ws[i..j]) + Delta(ws[j])
    ensures Rises(ws[i..j], 0) && Net(ws[i..j + 1]) >= 0 ==> Rises(ws[i..j + 1], 0)
  {
    var one := [ws[j]];
    assert ws[i..j + 1] == ws[i..j] + one && one[1..] == [];
    RisesSplit(ws[i..j], one, 0);
  }

  // ----- where the words are split -----

  lemma {:induction false} SplitDepth(ws: seq<Word>, l: int, k: Separator)
    requires Split(ws, l, k) < |ws|
    ensures l + Net(ws[..Split(ws, l, k)]) == 0
  {
    var p := Split(ws, l, k);
    if p > 0 {
      SplitDepth(ws[1..], l + Delta(ws[0]), k);
      assert ws[..p][1..] == ws[1..][..p - 1];
    }
  }

  // Both parts at a separator are in order.
  lemma SplitRises(ws: seq<Word>, k: Separator)
    requires Rises(ws, 0) && Net(ws) == 0 && Split(ws, 0, k) < |ws|
    ensures var p := Split(ws, 0, k);
      Rises(ws[..p], 0) && Net(ws[..p]) == 0 && Rises(ws[p + 1..], 0) && Net(ws[p + 1..]) == 0
  {
    var p := Split(ws, 0, k);
    SplitDepth(ws, 0, k);
    RisesAt(ws, p, 0);
    assert ws[p..][1..] == ws[p + 1..];
  }

  // At which depth the walk to an ampersand stops.
  lemma WalkDepth(ws: seq<Word>, l: int, e: Error)
    ensures var w := WalkAmp(ws, l, e); w.l == l + Net(ws[..w.p]) && (w.p < |ws| ==> w.l == 0)
  {
    WalkEnds(ws, l, e, WalkAmp(ws, l, e));
  }

  lemma {:induction false} WalkEnds(ws: seq<Word>, l: int, e: Error, w: Walk)
    requires WalkAmp(ws, l, e) == w
    ensures w.p <= |ws| && w.l == l + Net(ws[..w.p]) && (w.p < |ws| ==> w.l == 0)
    decreases |ws|
  {
    if ws == [] || (l == 0 && Backgrounds(ws[0])) {
      assert w.p == 0 && w.l == l && ws[..0] == [];
    } else {
      var n, l', e', r := WalkParts(ws, l, e);
      WalkEnds(ws[n..], l', e', r);
      WalkNet(ws, n, r.p);
    }
  }

  // One step of it and the rest.
  lemma WalkParts(ws: seq<Word>, l: int, e: Error) returns (n: nat, l': int, e': Error, r: Walk)
    requires ws != [] && !(l == 0 && Backgrounds(ws[0]))
    ensures n == Stride(ws) && l' == l + Delta(ws[0]) && r == WalkAmp(ws[n..], l', e')
    ensures WalkAmp(ws, l, e) == Walk(r.p + n, r.l, r.e) && (e != OffList ==> e' != OffList)
  {
    n := Stride(ws);
    var d := Deeper(ws[0], l, e);
    l', e' := d.0, d.1;
    r := WalkAmp(ws[n..], l', e');
    WalkStep(ws, l, e);
  }

  lemma WalkNet(ws: seq<Word>, n: nat, q: nat)
    requires ws != [] && n == Stride(ws) && n + q <= |ws|
    ensures Net(ws[..n + q]) == Delta(ws[0]) + Net(ws[n..][..q])
  {
    PrefixNet(ws, n, q);
    StrideNet(ws);
  }

  lemma {:induction false} WalkStays(ws: seq<Word>, l: int, e: Error)
    requires e != OffList
    ensures WalkAmp(ws, l, e).e != OffList
    decreases |ws|
  {
    if ws != [] && !(l == 0 && Backgrounds(ws[0])) {
      var n, l', e', r := WalkParts(ws, l, e);
      WalkStays(ws[n..], l', e');
    }
  }

  lemma PrefixNet(ws: seq<Word>, n: nat, q: nat)
    requires n + q <= |ws|
    ensures Net(ws[..n + q]) == Net(ws[..n]) + Net(ws[n..][..q])
  {
    assert ws[..n + q] == ws[..n] + ws[n..][..q];
    RisesSplit(ws[..n], ws[n..][..q], 0);
  }

  lemma StrideNet(ws: seq<Word>)
    requires ws != []
    ensures Net(ws[..Stride(ws)]) == Delta(ws[0])
  {
    if Stride(ws) == 2 {
      assert ws[..2][1..] == [ws[1]] && [ws[1]][1..] == [];
      assert Net([ws[1]]) == 0;
    } else {
      assert ws[..1][1..] == [];
    }
  }

  // ----- the parentheses of a command -----

  // What the second pass knows at place p: it is no deeper than the words are, the words
  // from lp are in order, and once it is back at depth 0 it has seen where they end.
  predicate Tracks(ws: seq<Word>, p: nat, s: Scan) {
    p <= |ws| && s.l <= Net(ws[..p]) && s.e != OffList &&
    (s.l >= 1 ==> s.lp.Some? && 0 < s.lp.value <= p && Rises(ws[s.lp.value..p], 0) && Net(ws[s.lp.value..p]) == s.l - 1) &&
    (s.l <= 0 && s.lp.Some? ==>
      s.rp.Some? && 0 < s.lp.value <= s.rp.value < p && Rises(ws[s.lp.value..s.rp.value], 0))
  }

  lemma {:induction false} RisesNet(ws: seq<Word>, l: int)
    requires Rises(ws, l) && l >= 0
    ensures l + Net(ws) >= 0
  {
    if ws != [] {
      RisesNet(ws[1..], l + Delta(ws[0]));
    }
  }

  // The words before any place have opened at least as many parentheses as they closed.
  lemma PrefixRises(ws: seq<Word>, p: nat)
    requires p <= |ws| && Rises(ws, 0)
    ensures Net(ws[..p]) >= 0
  {
    RisesAt(ws, p, 0);
    RisesNet(ws[..p], 0);
  }

  lemma TracksParen(ws: seq<Word>, p: nat, c: Context, s: Scan)
    requires p < |ws| && Rises(ws, 0) && Tracks(ws, p, s) && Delta(ws[p]) != 0
    ensures var r := Take(ws[p..], p, false, c, s); r.n == 1 && Tracks(ws, p + 1, r.s) == true
  {
    NetNext(ws, 0, p);
    assert ws[0..p] == ws[..p] && ws[0..p + 1] == ws[..p + 1];
    if s.l >= 1 {
      NetNext(ws, s.lp.value, p);
    } else if s.l == 0 && Opens(ws[p]) {
      assert ws[p + 1..p + 1] == [];
    }
  }

  // A word that is no parenthesis leaves the depth and the places alone.
  lemma TakeKeeps(ws: seq<Word>, p: nat, c: Context, s: Scan)
    requires ws != [] && Delta(ws[0]) == 0 && s.e != OffList
    ensures var r := Take(ws, p, false, c, s);
      r.s.l == s.l && r.s.lp == s.lp && r.s.rp == s.rp && r.s.e != OffList && (s.l != 0 ==> r.n == 1)
  {
  }

  lemma TracksOn(ws: seq<Word>, p: nat, n: nat, s: Scan, r: Scan)
    requires p < |ws| && p + n <= |ws| && Rises(ws, 0) && Tracks(ws, p, s) && Delta(ws[p]) == 0
    requires r.l == s.l && r.lp == s.lp && r.rp == s.rp && r.e != OffList && (s.l != 0 ==> n == 1)
    ensures Tracks(ws, p + n, r) == true
  {
    PrefixRises(ws, p + n);
    if s.l >= 1 {
      NetNext(ws, 0, p);
      assert ws[0..p] == ws[..p] && ws[0..p + 1] == ws[..p + 1];
      NetNext(ws, s.lp.value, p);
    }
  }

  lemma TracksTake(ws: seq<Word>, p: nat, c: Context, s: Scan) returns (r: Taken)
    requires p < |ws| && Rises(ws, 0) && Tracks(ws, p, s)
    ensures r == Take(ws[p..], p, false, c, s) && p + r.n <= |ws| && Tracks(ws, p + r.n, r.s) == true
  {
    r := Take(ws[p..], p, false, c, s);
    if Delta(ws[p]) != 0 {
      TracksParen(ws, p, c, s);
    } else {
      TakeKeeps(ws[p..], p, c, s);
      TracksOn(ws, p, r.n, s, r.s);
    }
  }

  lemma {:induction false} TracksPass(ws: seq<Word>, p: nat, c: Context, s: Scan, goal: Scan)
    requires Rises(ws, 0) && Tracks(ws, p, s) && Leads(ws, p, false, c, s, goal)
    ensures Tracks(ws, |ws|, goal) == true
    decreases |ws| - p
  {
    if p < |ws| {
      var r := TracksTake(ws, p, c, s);
      NextPass(ws, p, false, c, s, goal);
      TracksPass(ws, p + r.n, c, r.s, goal);
    } else {
      assert goal == s;
    }
  }

  // ----- when syn3 leaves its words -----

  // The end of the parentheses is not where syn3 can walk to.
  predicate Leaves(ws: seq<Word>, s: Scan) {
    s.lp.Some? && !(s.rp.Some? && 0 < s.lp.value <= s.rp.value < |ws|)
  }

  // The places at place p: inside parentheses their end is still to come, outside it has
  // been seen.
  predicate Placed(p: nat, s: Scan) {
    (s.l >= 1 ==> s.lp.Some? && 0 < s.lp.value <= p && (s.rp.Some? ==> s.rp.value < s.lp.value)) &&
    (s.l <= 0 && s.lp.Some? ==> s.rp.Some? && 0 < s.lp.value <= s.rp.value < p) &&
    (s.rp.Some? ==> s.rp.value < p)
  }

  lemma PlacedTake(ws: seq<Word>, p: nat, c: Context, s: Scan)
    requires ws != [] && Placed(p, s)
    ensures var r := Take(ws, p, false, c, s); Placed(p + r.n, r.s)
  {
  }

  lemma {:induction false} PlacedPass(ws: seq<Word>, p: nat, c: Context, s: Scan, goal: Scan)
    requires Placed(p, s) && Leads(ws, p, false, c, s, goal)
    ensures Placed(|ws|, goal)
    decreases |ws| - p
  {
    if p < |ws| {
      var n, s1 := PlacedTurn(ws, p, c, s, goal);
      PlacedPass(ws, p + n, c, s1, goal);
    }
  }

  lemma PlacedTurn(ws: seq<Word>, p: nat, c: Context, s: Scan, goal: Scan) returns (n: nat, s1: Scan)
    requires p < |ws| && Placed(p, s) && Leads(ws, p, false, c, s, goal)
    ensures n > 0 && Placed(p + n, s1) && Leads(ws, p + n, false, c, s1, goal) == true
  {
    var r := Take(ws[p..], p, false, c, s);
    PlacedTake(ws[p..], p, c, s);
    NextPass(ws, p, false, c, s, goal);
    n, s1 := r.n, r.s;
  }

  // Where a redirection at place i has its name: after `&` and `!`.
  function NamePlace(ws: seq<Word>, i: nat): (j: nat)
    requires i < |ws|
    ensures i < j <= i + 3
  {
    if First(ws[i]) == '<' then i + 1
    else
      var j := if Ampersand(ws, i + 1) then i + 2 else i + 1;
      if j < |ws| && IsBang(ws[j]) then j + 1 else j
  }

  // How many words a turn of the second pass takes at depth l.  A redirection takes its
  // name, but not after a `&` that the pipe forbids.
  function TurnSize(ws: seq<Word>, l: int, c: Context): (n: nat)
    requires ws != []
    ensures 1 <= n <= |ws|
  {
    if !(Redirects(ws[0]) && l == 0) then 1
    else if First(ws[0]) == '>' && Ampersand(ws, 1) && (c.pout || c.perr) then 2
    else if NamePlace(ws, 0) < |ws| then NamePlace(ws, 0) + 1 else |ws|
  }

  // The words the second pass takes with the operators of redirections: their marks and
  // names.
  function NamesTaken(ws: seq<Word>, l: int, c: Context): seq<Word>
    decreases |ws|
  {
    if ws == [] then []
    else
      var n := TurnSize(ws, l, c);
      if Redirects(ws[0]) && l == 0 then ws[1..n] + NamesTaken(ws[n..], l, c)
      else NamesTaken(ws[n..], l + Delta(ws[0]), c)
  }

  lemma TakeSize(ws: seq<Word>, p: nat, c: Context, s: Scan)
    requires ws != []
    ensures var r := Take(ws, p, false, c, s);
      r.n == TurnSize(ws, s.l, c) && r.s.l == if Redirects(ws[0]) && s.l == 0 then s.l else s.l + Delta(ws[0])
  {
  }

  lemma TakeTurn(ws: seq<Word>, p: nat, c: Context, s: Scan, goal: Scan) returns (n: nat, s1: Scan)
    requires p < |ws| && Leads(ws, p, false, c, s, goal)
    ensures n == TurnSize(ws[p..], s.l, c) && Leads(ws, p + n, false, c, s1, goal) == true
    ensures s1.l == if Redirects(ws[p]) && s.l == 0 then s.l else s.l + Delta(ws[p])
  {
    var r := Take(ws[p..], p, false, c, s);
    TakeSize(ws[p..], p, c, s);
    NextPass(ws, p, false, c, s, goal);
    n, s1 := r.n, r.s;
  }

  // The depth at the end of the second pass, from the words alone.
  function EndDepth(ws: seq<Word>, l: int, c: Context): int
    decreases |ws|
  {
    if ws == [] then l
    else EndDepth(ws[TurnSize(ws, l, c)..], if Redirects(ws[0]) && l == 0 then l else l + Delta(ws[0]), c)
  }

  lemma {:induction false} PassEnds(ws: seq<Word>, p: nat, c: Context, s: Scan, goal: Scan)
    requires Leads(ws, p, false, c, s, goal)
    ensures goal.l == EndDepth(ws[p..], s.l, c)
    decreases |ws| - p
  {
    if p < |ws| {
      var n, s1 := TakeTurn(ws, p, c, s, goal);
      PassEnds(ws, p + n, c, s1, goal);
      assert ws[p..][n..] == ws[p + n..];
    } else {
      assert ws[p..] == [] && goal == s;
    }
  }

  lemma TakenNet(ws: seq<Word>, n: nat)
    requires 1 <= n <= |ws|
    ensures Net(ws) == Delta(ws[0]) + Net(ws[1..n]) + Net(ws[n..])
  {
    assert ws[1..] == ws[1..n] + ws[n..];
    RisesSplit(ws[1..n], ws[n..], 0);
  }

  // It is the depth of the words but for the names.
  lemma {:induction false} DepthBut(ws: seq<Word>, l: int, c: Context)
    ensures EndDepth(ws, l, c) == l + Net(ws) - Net(NamesTaken(ws, l, c))
    decreases |ws|
  {
    if ws != [] {
      var n := TurnSize(ws, l, c);
      TakenNet(ws, n);
      if Redirects(ws[0]) && l == 0 {
        DepthBut(ws[n..], l, c);
        RisesSplit(ws[1..n], NamesTaken(ws[n..], l, c), 0);
      } else {
        DepthBut(ws[n..], l + Delta(ws[0]), c);
        assert ws[1..n] == [];
      }
    }
  }

  // syn3, which is given words with as many opening as closing parentheses, leaves them if
  // and only if more closing than opening ones are taken for the names of redirections.
  lemma LeavesIff(ws: seq<Word>, after: Word, c: Context, e: Error)
    requires Net(ws) == 0
    ensures Leaves(ws, Pass(ws, 0, false, c, Fresh(after, e))) <==>
      Net(NamesTaken(ws, 0, c)) < 0
  {
    var s := Pass(ws, 0, false, c, Fresh(after, e));
    assert ws[0..] == ws;
    PlacedPass(ws, 0, c, Fresh(after, e), s);
    PassEnds(ws, 0, c, Fresh(after, e), s);
    DepthBut(ws, 0, c);
  }

  // ----- no closing parenthesis where a name should be -----

  predicate NameOk(ws: seq<Word>, i: nat)
    requires i < |ws|
  {
    Redirects(ws[i]) && NamePlace(ws, i) < |ws| ==> !Closes(ws[NamePlace(ws, i)])
  }

  predicate Tame(ws: seq<Word>) {
    forall i | 0 <= i < |ws| :: NameOk(ws, i)
  }

  lemma TameSlice(ws: seq<Word>, a: nat, b: nat)
    requires a <= b <= |ws| && Tame(ws)
    ensures Tame(ws[a..b])
  {
    var w := ws[a..b];
    forall i | 0 <= i < |w| ensures NameOk(w, i) {
      assert NameOk(ws, a + i);
      assert w[i] == ws[a + i];
      if NamePlace(w, i) < |w| {
        assert NamePlace(ws, a + i) == a + NamePlace(w, i);
      }
    }
  }

  lemma {:induction false} MarksNet(names: seq<Word>)
    requires forall i | 0 <= i < |names| :: Delta(names[i]) >= 0
    ensures Net(names) >= 0
  {
    if names != [] {
      MarksNet(names[1..]);
    }
  }

  // Then the words taken for names open at least as many parentheses as they close.
  lemma {:induction false} NamesTame(ws: seq<Word>, l: int, c: Context)
    requires Tame(ws)
    ensures Net(NamesTaken(ws, l, c)) >= 0
    decreases |ws|
  {
    if ws != [] {
      var n := TurnSize(ws, l, c);
      assert NameOk(ws, 0);
      TameSlice(ws, n, |ws|);
      assert ws[n..|ws|] == ws[n..];
      if Redirects(ws[0]) && l == 0 {
        NamesTame(ws[n..], l, c);
        MarksNet(ws[1..n]);
        RisesSplit(ws[1..n], NamesTaken(ws[n..], l, c), 0);
      } else {
        NamesTame(ws[n..], l + Delta(ws[0]), c);
      }
    }
  }

  // ----- the parser -----

  // Either condition: no closing parenthesis comes before its opening one, or none stands
  // where a name should.
  predicate Fit(ws: seq<Word>, rises: bool) {
    if rises then Rises(ws, 0) else Tame(ws)
  }

  lemma SplitFit(ws: seq<Word>, k: Separator, rises: bool)
    requires Fit(ws, rises) && Net(ws) == 0 && Split(ws, 0, k) < |ws|
    ensures var p := Split(ws, 0, k);
      Fit(ws[..p], rises) && Net(ws[..p]) == 0 && Fit(ws[p + 1..], rises) && Net(ws[p + 1..]) == 0
  {
    var p := Split(ws, 0, k);
    if rises {
      SplitRises(ws, k);
    } else {
      SplitDepth(ws, 0, k);
      TameSlice(ws, 0, p);
      TameSlice(ws, p + 1, |ws|);
      assert ws[0..p] == ws[..p] && ws[p + 1..|ws|] == ws[p + 1..];
      assert ws == ws[..p] + ws[p..] && ws[p..][1..] == ws[p + 1..];
      RisesSplit(ws[..p], ws[p..], 0);
    }
  }

  lemma FitRest(ws: seq<Word>, rises: bool)
    requires ws != [] && Skipped(ws[0]) && Fit(ws, rises)
    ensures Fit(ws[1..], rises)
  {
    if !rises {
      TameSlice(ws, 1, |ws|);
      assert ws[1..|ws|] == ws[1..];
    }
  }

  // Both parts at an ampersand.
  lemma WalkFit(ws: seq<Word>, p: nat, rises: bool)
    requires Fit(ws, rises) && p < |ws| && Net(ws[..p]) == 0
    ensures Fit(ws[..p], rises) && Fit(ws[p..], rises)
  {
    if rises {
      RisesAt(ws, p, 0);
    } else {
      TameSlice(ws, 0, p);
      TameSlice(ws, p, |ws|);
      assert ws[0..p] == ws[..p] && ws[p..|ws|] == ws[p..];
    }
  }

  // syn3 finds a matching pair, or none.
  lemma PairFit(ws: seq<Word>, after: Word, c: Context, e: Error, rises: bool)
    requires Fit(ws, rises) && Net(ws) == 0 && e != OffList
    ensures var s := Pass(ws, 0, false, c, Fresh(after, e));
      s.lp.Some? ==> s.rp.Some? && 0 < s.lp.value <= s.rp.value < |ws| && Fit(ws[s.lp.value..s.rp.value], rises)
  {
    var s := Pass(ws, 0, false, c, Fresh(after, e));
    if rises {
      assert ws[0..] == ws && ws[..|ws|] == ws && ws[..0] == [];
      TracksPass(ws, 0, c, Fresh(after, e), s);
    } else {
      LeavesIff(ws, after, c, e);
      NamesTame(ws, 0, c);
      if s.lp.Some? {
        TameSlice(ws, s.lp.value, s.rp.value);
      }
    }
  }

  lemma {:induction false} Stays3(ws: seq<Word>, after: Word, c: Context, e: Error, rises: bool)
    requires Fit(ws, rises) && Net(ws) == 0 && e != OffList
    ensures Syn3(ws, after, c, e).e != OffList
    decreases |ws|, 1
  {
    var special := Special(ws);
    var s := Pass(ws, 0, special, c, Fresh(after, e));
    assert ws[0..] == ws;
    PassStays(ws, 0, special, c, Fresh(after, e), s);
    if !special {
      PairFit(ws, after, c, e, rises);
      if s.lp.Some? {
        var s1 := if s.n != 0 then Fail(s, BadPlps) else s;
        Stays0(ws[s.lp.value..s.rp.value], ws[s.rp.value], InParens, s1.e, rises);
      }
    }
  }

  lemma {:induction false} PassStays(ws: seq<Word>, p: nat, special: bool, c: Context, s: Scan, goal: Scan)
    requires s.e != OffList && Leads(ws, p, special, c, s, goal)
    ensures goal.e != OffList
    decreases |ws| - p
  {
    if p < |ws| {
      var n, s1 := StaysTurn(ws, p, special, c, s, goal);
      PassStays(ws, p + n, special, c, s1, goal);
    }
  }

  lemma StaysTurn(ws: seq<Word>, p: nat, special: bool, c: Context, s: Scan, goal: Scan) returns (n: nat, s1: Scan)
    requires p < |ws| && s.e != OffList && Leads(ws, p, special, c, s, goal)
    ensures n > 0 && s1.e != OffList && Leads(ws, p + n, special, c, s1, goal) == true
  {
    var r := Take(ws[p..], p, special, c, s);
    TakeStays(ws[p..], p, special, c, s);
    NextPass(ws, p, special, c, s, goal);
    n, s1 := r.n, r.s;
  }

  lemma TakeStays(ws: seq<Word>, p: nat, special: bool, c: Context, s: Scan)
    requires ws != [] && s.e != OffList
    ensures Take(ws, p, special, c, s).s.e != OffList
  {
  }

  lemma PastAnd(ws: seq<Word>, i: nat, rises: bool)
    requires i < |ws| && First(ws[i]) == '&' && Fit(ws[i..], rises) && Net(ws[i..]) == 0
    ensures Fit(ws[i + 1..], rises) && Net(ws[i + 1..]) == 0
  {
    var w := ws[i..];
    assert w[1..] == ws[i + 1..];
    if !rises {
      TameSlice(w, 1, |w|);
      assert w[1..|w|] == w[1..];
    }
  }

  // The error of a pipe is that of its last part.
  lemma Syn2Error(ws: seq<Word>, p: nat, both: bool, rest: seq<Word>, after: Word, c: Context, e: Error)
    requires p == Split(ws, 0, Bar) < |ws| && both == (p + 1 < |ws| && First(ws[p + 1]) == '&')
    requires rest == ws[if both then p + 2 else p + 1..]
    ensures var a := Syn3(ws[..p], ws[p], c.(pout := true, perr := c.perr || both), e);
      Syn2(ws, after, c, e).e == Syn2(rest, after, c.(pin := true), a.e).e
  {
  }

  lemma {:induction false} Stays2(ws: seq<Word>, after: Word, c: Context, e: Error, rises: bool)
    requires Fit(ws, rises) && Net(ws) == 0 && e != OffList
    ensures Syn2(ws, after, c, e).e != OffList
    decreases |ws|, 2
  {
    var p := Split(ws, 0, Bar);
    if p < |ws| {
      SplitFit(ws, Bar, rises);
      var both := p + 1 < |ws| && First(ws[p + 1]) == '&';
      var c' := c.(pout := true, perr := c.perr || both);
      var a := Syn3(ws[..p], ws[p], c', e);
      Stays3(ws[..p], ws[p], c', e, rises);
      var rest := ws[if both then p + 2 else p + 1..];
      if both {
        PastAnd(ws, p + 1, rises);
      }
      Stays2(rest, after, c.(pin := true), a.e, rises);
      Syn2Error(ws, p, both, rest, after, c, e);
    } else {
      Stays3(ws, after, c, e, rises);
    }
  }

  lemma {:induction false} Stays1b(ws: seq<Word>, after: Word, c: Context, e: Error, rises: bool)
    requires Fit(ws, rises) && Net(ws) == 0 && e != OffList
    ensures Syn1b(ws, after, c, e).e != OffList
    decreases |ws|, 3
  {
    var p := Split(ws, 0, AndAnd);
    if p < |ws| {
      SplitFit(ws, AndAnd, rises);
      Stays2(ws[..p], ws[p], c, e, rises);
      Stays1b(ws[p + 1..], after, c, Syn2(ws[..p], ws[p], c, e).e, rises);
    } else {
      Stays2(ws, after, c, e, rises);
    }
  }

  lemma {:induction false} Stays1a(ws: seq<Word>, after: Word, c: Context, e: Error, rises: bool)
    requires Fit(ws, rises) && Net(ws) == 0 && e != OffList
    ensures Syn1a(ws, after, c, e).e != OffList
    decreases |ws|, 4
  {
    var p := Split(ws, 0, OrOr);
    if p < |ws| {
      SplitFit(ws, OrOr, rises);
      Stays1b(ws[..p], ws[p], c, e, rises);
      Stays1a(ws[p + 1..], after, c, Syn1b(ws[..p], ws[p], c, e).e, rises);
    } else {
      Stays1b(ws, after, c, e, rises);
    }
  }

  lemma {:induction false} Stays1(ws: seq<Word>, after: Word, c: Context, e: Error, rises: bool)
    requires Fit(ws, rises) && Net(ws) == 0 && e != OffList
    ensures Syn1(ws, after, c, e).e != OffList
    decreases |ws|, 5
  {
    var p := Split(ws, 0, Semi);
    if p < |ws| {
      SplitFit(ws, Semi, rises);
      Stays1a(ws[..p], ws[p], c, e, rises);
      StaysSyntax(ws[p + 1..], after, c, Syn1a(ws[..p], ws[p], c, e).e, rises);
    } else {
      Stays1a(ws, after, c, e, rises);
    }
  }

  lemma {:induction false} Stays0(ws: seq<Word>, after: Word, c: Context, e: Error, rises: bool)
    requires Fit(ws, rises) && e != OffList
    ensures Syn0(ws, after, c, e).e != OffList
    decreases |ws|, 6
  {
    var w := WalkAmp(ws, 0, e);
    WalkDepth(ws, 0, e);
    WalkStays(ws, 0, e);
    if w.p < |ws| {
      WalkFit(ws, w.p, rises);
      Stays1(ws[..w.p], ws[w.p], c, w.e, rises);
      StaysSyntax(ws[w.p..], after, c, Syn1(ws[..w.p], ws[w.p], c, w.e).e, rises);
    } else if w.l == 0 {
      assert ws[..w.p] == ws;
      Stays1(ws, after, c, w.e, rises);
    }
  }

  // Under either condition the parser ends, with a tree or a message.
  lemma {:induction false} StaysSyntax(ws: seq<Word>, after: Word, c: Context, e: Error, rises: bool)
    requires Fit(ws, rises) && e != OffList
    ensures Syntax(ws, after, c, e).e != OffList
    decreases |ws|, if ws != [] && Skipped(ws[0]) then 0 else 7
  {
    if ws != [] {
      if Skipped(ws[0]) {
        FitRest(ws, rises);
        StaysSyntax(ws[1..], after, c, e, rises);
      } else {
        Stays0(ws, after, c, e, rises);
      }
    }
  }

  // The condition is needed: the name of a redirection may be missing before a closing
  // parenthesis, which the second pass then does not count.
  lemma LeavesList()
    ensures var ws := [">", ")", "(", "a"]; !Rises(ws, 0) && Syntax(ws, "", TopLevel, NoError).e == OffList
  {
    var ws: seq<Word> := [">", ")", "(", "a"];
    LeavesWalk(ws);
    LeavesDown(ws);
    assert !Skipped(ws[0]);
  }

  lemma LeavesWalk(ws: seq<Word>)
    requires ws == [">", ")", "(", "a"]
    ensures !Rises(ws, 0) && WalkAmp(ws, 0, NoError) == Walk(4, 0, TooManyRp)
  {
    var w1, w2, w3 := ws[1..], ws[2..], ws[3..];
    assert w1[1..] == w2 && w2[1..] == w3 && w3[1..] == [];
    assert w1[0] == ")" && w2[0] == "(" && w3[0] == "a";
    assert !Rises(w1, 0);
    assert WalkAmp(w3, 0, TooManyRp) == Walk(1, 0, TooManyRp);
    assert WalkAmp(w2, -1, TooManyRp) == Walk(2, 0, TooManyRp);
    assert WalkAmp(w1, 0, NoError) == Walk(3, 0, TooManyRp);
  }

  lemma LeavesDown(ws: seq<Word>)
    requires ws == [">", ")", "(", "a"]
    ensures Syn1(ws, "", TopLevel, TooManyRp).e == OffList
  {
    NoSplit(ws, Semi);
    NoSplit(ws, OrOr);
    NoSplit(ws, AndAnd);
    NoSplit(ws, Bar);
    LeavesInSyn3(ws);
    assert Syn2(ws, "", TopLevel, TooManyRp).e == OffList;
    assert Syn1b(ws, "", TopLevel, TooManyRp).e == OffList;
  }

  lemma NoSplit(ws: seq<Word>, k: Separator)
    requires ws == [">", ")", "(", "a"]
    ensures Split(ws, 0, k) == 4
  {
    var w1, w2, w3 := ws[1..], ws[2..], ws[3..];
    assert w1[1..] == w2 && w2[1..] == w3 && w3[1..] == [];
    assert Split(w3, 0, k) == 1;
    assert Split(w2, -1, k) == 2;
    assert Split(w1, 0, k) == 3;
  }

  lemma LeavesInSyn3(ws: seq<Word>)
    requires ws == [">", ")", "(", "a"]
    ensures Syn3(ws, "", TopLevel, TooManyRp).e == OffList
  {
    var s0 := Fresh("", TooManyRp);
    assert !Special(ws);
    assert Take(ws, 0, false, TopLevel, s0) == Taken(s0, 2);
    var w2, w3 := ws[2..], ws[3..];
    var s1 := s0.(l := 1, lp := Some(3));
    assert w2[0] == "(" && Take(w2, 2, false, TopLevel, s0) == Taken(s1, 1);
    assert w2[1..] == w3 && w3[0] == "a" && Take(w3, 3, false, TopLevel, s1) == Taken(s1, 1);
    assert w3[1..] == [];
    assert Pass(w3, 3, false, TopLevel, s1) == s1;
    assert Pass(w2, 2, false, TopLevel, s0) == s1;
    assert Pass(ws, 0, false, TopLevel, s0) == s1;
  }
}
