/** Which words csh's brace expansion replaces, and by what, without naming its walks. */
module BraceWords {
  import opened Common
  import opened Braces

  // w is a brace with its pieces between `a` and `rest`, and no brace stands before it.
  ghost predicate Splits(w: Word, a: Word, pieces: seq<Word>, rest: Word) {
    pieces != [] && '{' !in a && (forall k | 0 <= k < |pieces| :: Spans(pieces[k], 0, 0, true)) &&
    w == a + "{" + Joined(pieces) + ("}" + rest)
  }

  // After the first brace of w a bracket opens, i braces deep, that is not closed.
  ghost predicate LeavesOpen(w: Word, a: Word, body: Word, i: nat, tail: Word) {
    '{' !in a && Spans(body, 0, i, false) && ']' !in tail && w == a + "{" + body + ("[" + tail)
  }

  // ----- the walks over a part of a word -----

  // s holds w at p.
  predicate Has(s: Word, p: nat, w: Word) {
    p + |w| <= |s| && s[p..p + |w|] == w
  }

  lemma HasTail(s: Word, p: nat, w: Word, n: nat)
    requires Has(s, p, w) && n <= |w|
    ensures Has(s, p + n, w[n..]) && forall k | 0 <= k < |w| :: s[p + k] == w[k]
  {
    assert s[p + n..p + |w|] == s[p..p + |w|][n..];
    forall k | 0 <= k < |w| ensures s[p + k] == w[k] {
      assert s[p + k] == s[p..p + |w|][k];
    }
  }

  // The first step of the walk over w.
  lemma HasStep(s: Word, p: nat, w: Word, i: nat, j: nat, whole: bool) returns (n: nat, i': nat)
    requires w != "" && Has(s, p, w) && Spans(w, i, j, whole)
    ensures 1 <= n <= |w| && Has(s, p + n, w[n..]) && Spans(w[n..], i', j, whole) && p < |s| && s[p] == w[0]
    ensures p + n == if s[p] == '[' then Find(s, p + 1, ']') + 1 else p + 1
    ensures i' == if s[p] == '{' then i + 1 else if s[p] == '}' then i - 1 else i
    ensures !(s[p] == '}' && i == 0) && !(whole && s[p] == ',' && i == 0)
  {
    n := if w[0] == '[' then Find(w, 1, ']') + 1 else 1;
    i' := if w[0] == '{' then i + 1 else if w[0] == '}' then i - 1 else i;
    HasTail(s, p, w, n);
    assert s[p + 0] == w[0];
    if w[0] == '[' {
      forall k | p + 1 <= k < p + n - 1 ensures s[k] != ']' {
        assert s[p + (k - p)] == w[k - p];
      }
      assert s[p + (n - 1)] == w[n - 1];
      FindFirst(s, p + 1, ']', p + n - 1);
    }
  }

  lemma {:induction false} ClosingPast(s: Word, p: nat, w: Word, i: nat, j: nat, whole: bool)
    requires Has(s, p, w) && Spans(w, i, j, whole)
    ensures Closing(s, p, i) == Closing(s, p + |w|, j)
    decreases |w|
  {
    if w != "" {
      var n, i' := HasStep(s, p, w, i, j, whole);
      ClosingPast(s, p + n, w[n..], i', j, whole);
    }
  }

  // The step of the walk that cuts the pieces.
  lemma PiecesStep(s: Word, pl: nat, pm: nat, next: nat, i: nat, i': nat)
    requires pl <= pm < |s| && Closing(s, pm, i).At? && !(i == 0 && (s[pm] == '}' || s[pm] == ','))
    requires next == if s[pm] == '[' then Find(s, pm + 1, ']') + 1 else pm + 1
    requires i' == if s[pm] == '{' then i + 1 else if s[pm] == '}' then i - 1 else i
    ensures next <= |s| && Closing(s, next, i') == Closing(s, pm, i)
    ensures Pieces(s, pl, pm, i) == Pieces(s, pl, next, i')
  {
  }

  lemma {:induction false} PiecesPast(s: Word, pl: nat, pm: nat, w: Word, i: nat, j: nat)
    requires pl <= pm && Has(s, pm, w) && Spans(w, i, j, true) && Closing(s, pm, i).At?
    ensures Closing(s, pm + |w|, j).At? && Pieces(s, pl, pm, i) == Pieces(s, pl, pm + |w|, j)
    decreases |w|
  {
    if w != "" {
      var n, i' := HasStep(s, pm, w, i, j, true);
      PiecesStep(s, pl, pm, pm + n, i, i');
      PiecesPast(s, pl, pm + n, w[n..], i', j);
    }
  }

  // ----- a brace and its pieces -----

  lemma HasParts(s: Word, p: nat, a: Word, c: char, b: Word)
    requires Has(s, p, a + ([c] + b))
    ensures Has(s, p, a) && p + |a| < |s| && s[p + |a|] == c && Has(s, p + |a| + 1, b)
  {
    var all := a + ([c] + b);
    HasTail(s, p, all, |a|);
    HasTail(s, p, all, |a| + 1);
    assert s[p..p + |a|] == s[p..p + |all|][..|a|] == a;
    assert all[|a|] == c && all[|a| + 1..] == b;
  }

  lemma Regroup(a: Word, b: Word, c: Word, d: Word)
    ensures a + b + c + d == a + (b + (c + d))
  {
  }

  lemma JoinedHas(s: Word, p: nat, pieces: seq<Word>)
    requires |pieces| > 1 && Has(s, p, Joined(pieces) + "}")
    ensures Has(s, p, pieces[0] + ([','] + (Joined(pieces[1..]) + "}")))
  {
    assert Joined(pieces) == pieces[0] + "," + Joined(pieces[1..]);
    Regroup(pieces[0], ",", Joined(pieces[1..]), "}");
  }

  lemma PiecesOne(s: Word, pl: nat, pm: nat)
    requires pl <= pm < |s| && s[pm] == '}'
    ensures Closing(s, pm, 0) == At(pm) && Pieces(s, pl, pm, 0) == [s[pl..pm]]
  {
  }

  lemma PiecesMore(s: Word, pl: nat, pm: nat)
    requires pl <= pm < |s| && s[pm] == ',' && Closing(s, pm + 1, 0).At?
    ensures Closing(s, pm, 0) == Closing(s, pm + 1, 0)
    ensures Pieces(s, pl, pm, 0) == [s[pl..pm]] + Pieces(s, pm + 1, pm + 1, 0)
  {
  }

  lemma {:induction false} JoinedCloses(s: Word, p: nat, pieces: seq<Word>)
    requires pieces != [] && (forall k | 0 <= k < |pieces| :: Spans(pieces[k], 0, 0, true))
    requires Has(s, p, Joined(pieces) + "}")
    ensures Closing(s, p, 0) == At(p + |Joined(pieces)|) && Pieces(s, p, p, 0) == pieces
    decreases |pieces|
  {
    var w := pieces[0];
    var q := p + |w|;
    if |pieces| == 1 {
      assert Joined(pieces) + "}" == w + (['}'] + "");
      HasParts(s, p, w, '}', "");
      ClosingPast(s, p, w, 0, 0, true);
      PiecesOne(s, p, q);
    } else {
      var more := pieces[1..];
      JoinedHas(s, p, pieces);
      HasParts(s, p, w, ',', Joined(more) + "}");
      ClosingPast(s, p, w, 0, 0, true);
      assert forall k | 0 <= k < |more| :: more[k] == pieces[k + 1];
      JoinedCloses(s, q + 1, more);
      PiecesMore(s, p, q);
      assert pieces == [w] + more;
    }
    PiecesPast(s, p, p, w, 0, 0);
  }

  lemma FirstBrace(w: Word, a: Word, more: Word)
    requires '{' !in a && w == a + "{" + more
    ensures '{' in w && Find(w, 0, '{') == |a| && w[..|a|] == a && Has(w, |a| + 1, more)
  {
    assert w[|a|] == '{';
    assert forall k | 0 <= k < |a| :: w[k] == a[k];
    FindFirst(w, 0, '{', |a|);
  }

  lemma SplitBrace(w: Word, a: Word, pieces: seq<Word>, rest: Word)
    requires Splits(w, a, pieces, rest)
    ensures '{' in w && Brace(w) == Words(Around(a, pieces, rest))
  {
    var body := Joined(pieces);
    Regroup(a + "{", body, "}", rest);
    FirstBrace(w, a, body + ("}" + rest));
    var p := |a| + 1;
    BodyHas(w, p, body, rest);
    JoinedCloses(w, p, pieces);
  }

  lemma BodyHas(w: Word, p: nat, body: Word, rest: Word)
    requires Has(w, p, body + ("}" + rest)) && p + |body| + 1 + |rest| == |w|
    ensures Has(w, p, body + "}") && w[p + |body| + 1..] == rest
  {
    var all := body + ("}" + rest);
    assert w[p..] == all;
    assert w[p..p + |body| + 1] == all[..|body| + 1] == body + "}";
    assert w[p + |body| + 1..] == all[|body| + 1..] == rest;
  }

  // ----- the main results -----

  // A word with a brace stands for the words its pieces make, in their order.
  lemma SplitExpands(w: Word, a: Word, pieces: seq<Word>, rest: Word, made: seq<Word>)
    requires Splits(w, a, pieces, rest) && w != "{}"
    requires |made| == |pieces| && forall k | 0 <= k < |made| :: made[k] == a + pieces[k] + rest
    ensures ExpandAll([w]) == ExpandAll(made)
  {
    SplitBrace(w, a, pieces, rest);
    AroundAt(a, pieces, rest);
    assert made == Around(a, pieces, rest);
    assert w != "{";
    assert Expands(w) by {
      assert w == "{" || w == "{}" <==> Untouched(w);
    }
    ExpandOnce(w, []);
    assert [w] + [] == [w] && made + [] == made;
  }

  // A word without a brace, `{` and `{}` stand for themselves.
  lemma Alone(w: Word)
    requires '{' !in w || w == "{" || w == "{}"
    ensures ExpandAll([w]) == Words([w])
  {
    FlatStays([w]);
  }

  // Any other word has no expansion, and is said to lack a bracket if one is left open
  // after its first brace, or else a brace.
  lemma NoSplitMisses(w: Word)
    requires '{' in w && w != "{" && w != "{}" && forall a, pieces, rest :: !Splits(w, a, pieces, rest)
    ensures ExpandAll([w]).Missing?
    ensures ExpandAll([w]).c == if exists a, body, i, tail :: LeavesOpen(w, a, body, i, tail) then ']' else '}'
  {
    if Brace(w).Words? {
      var a, body, rest, pieces := BraceParts(w);
      assert Splits(w, a, pieces, rest);
    }
    ExpandOnce(w, []);
    assert [w] + [] == [w];
    LacksWhich(w);
  }

  lemma LacksWhich(w: Word)
    requires '{' in w && Brace(w).Missing?
    ensures Brace(w).c == if exists a, body, i, tail :: LeavesOpen(w, a, body, i, tail) then ']' else '}'
  {
    var b := Find(w, 0, '{');
    FindThere(w, 0, '{');
    assert w[b + 1..b + 1] == "";
    if Closing(w, b + 1, 0) == Lacks(']') {
      var p, i := LacksBracket(w, b + 1, b + 1, 0);
      FourParts(w, b, p);
      assert LeavesOpen(w, w[..b], w[b + 1..p], i, w[p + 1..]);
    } else {
      LacksOne(w, b + 1, 0);
      forall a, body, i, tail | LeavesOpen(w, a, body, i, tail) ensures false {
        OpenLacks(w, a, body, i, tail);
      }
    }
  }

  lemma FourParts(w: Word, b: nat, p: nat)
    requires b < p < |w| && w[b] == '{' && w[p] == '['
    ensures w == w[..b] + "{" + w[b + 1..p] + ("[" + w[p + 1..])
  {
  }

  // A bracket that is lacking was opened where the walk stopped.
  lemma {:induction false} LacksBracket(s: Word, a: nat, p: nat, i: nat) returns (q: nat, j: nat)
    requires a <= p <= |s| && Closing(s, p, i) == Lacks(']') && Spans(s[a..p], 0, i, false)
    ensures p <= q < |s| && s[q] == '[' && Spans(s[a..q], 0, j, false) && ']' !in s[q + 1..]
    decreases |s| - p
  {
    if s[p] == '[' && Find(s, p + 1, ']') == |s| {
      q, j := p, i;
    } else {
      var n := if s[p] == '[' then Find(s, p + 1, ']') + 1 else p + 1;
      var i' := if s[p] == '{' then i + 1 else if s[p] == '}' then i - 1 else i;
      StepSpans(s, p, n, i, false);
      SpansConcat(s[a..p], s[p..n], 0, i, i', false);
      assert s[a..p] + s[p..n] == s[a..n];
      q, j := LacksBracket(s, a, n, i');
    }
  }

  lemma {:induction false} LacksOne(s: Word, p: nat, i: nat)
    requires p <= |s| && Closing(s, p, i).Lacks?
    ensures Closing(s, p, i).c == ']' || Closing(s, p, i).c == '}'
    decreases |s| - p
  {
    if p < |s| && !(s[p] == '[' && Find(s, p + 1, ']') == |s|) {
      var n := if s[p] == '[' then Find(s, p + 1, ']') + 1 else p + 1;
      LacksOne(s, n, if s[p] == '{' then i + 1 else if s[p] == '}' then i - 1 else i);
    }
  }

  lemma OpenLacks(w: Word, a: Word, body: Word, i: nat, tail: Word)
    requires LeavesOpen(w, a, body, i, tail)
    ensures Find(w, 0, '{') < |w| && Closing(w, Find(w, 0, '{') + 1, 0) == Lacks(']')
  {
    assert w == a + "{" + (body + ("[" + tail));
    FirstBrace(w, a, body + ("[" + tail));
    var p := |a| + 1;
    assert w[p..p + |body|] == body;
    ClosingPast(w, p, body, 0, i, false);
    var q := p + |body|;
    assert w[q] == '[' && w[q + 1..] == tail;
    FindNot(w, q + 1, ']');
  }

  lemma FindNot(s: Word, p: nat, c: char)
    requires p <= |s| && c !in s[p..]
    ensures Find(s, p, c) == |s|
  {
    assert forall j | p <= j < |s| :: s[j] == s[p..][j - p];
  }
}
