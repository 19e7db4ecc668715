/**
 * The printer of command trees, a printer that leaves nothing out, the well-formed trees,
 * and what their words look like to the parser.
 */
module ParsePrint {
  import opened Common
  import opened Parse

  // ----- the printer -----

  const QNULL: char := '\U{8000}'

  // A word is printed without the mark of a quoted null at its start.
  function Shown(w: Word): Word {
    if First(w) == QNULL then w[1..] else w
  }

  function PrintAll(ws: seq<Word>): seq<Word> {
    if ws == [] then [] else [Shown(ws[0])] + PrintAll(ws[1..])
  }

  function PrintIn(flg: Flags, lef: Option<Word>): seq<Word> {
    if lef.None? then [] else [if READ in flg then "<<" else "<", Shown(lef.value)]
  }

  function PrintOut(flg: Flags, rit: Option<Word>): seq<Word> {
    if rit.None? then []
    else [if APPEND in flg then ">>" else ">"] + (if STDERR in flg then ["&"] else []) + [Shown(rit.value)]
  }

  // The words padd writes.
  function Print(t: Tree): seq<Word> {
    match t
    case Null => []
    case Command(flg, lef, rit, com) => PrintAll(com) + PrintIn(flg, lef) + PrintOut(flg, rit)
    case Paren(flg, lef, rit, spr) => ["("] + Print(spr) + [")"] + PrintIn(flg, lef) + PrintOut(flg, rit)
    case Pipe(_, car, cdr) => Print(car) + ["|"] + Print(cdr)
    case List(_, car, cdr) => Print(car) + [";"] + Print(cdr)
    case Or(_, car, cdr) => Print(car) + ["||"] + Print(cdr)
    case And(_, car, cdr) => Print(car) + ["&&"] + Print(cdr)
  }

  // ----- a printer that leaves nothing out -----

  function ShowIn(flg: Flags, lef: Option<Word>): seq<Word> {
    if lef.None? then [] else [if READ in flg then "<<" else "<", lef.value]
  }

  function ShowOut(flg: Flags, rit: Option<Word>): seq<Word> {
    if rit.None? then []
    else [if APPEND in flg then ">>" else ">"] + (if STDERR in flg then ["&"] else []) +
         (if OVERWRITE in flg then ["!"] else []) + [rit.value]
  }

  // The redirections of a command.
  function ShowRest(flg: Flags, lef: Option<Word>, rit: Option<Word>): seq<Word> {
    ShowIn(flg, lef) + ShowOut(flg, rit)
  }

  predicate InBackground(t: Tree) {
    !t.Null? && AMPERSAND in t.flg
  }

  // With `|&`, `>!`, the `&` after a command in the background, and the `;` after a last
  // command.
  function Show(t: Tree): seq<Word> {
    match t
    case Null => []
    case Command(flg, lef, rit, com) => com + ShowRest(flg, lef, rit)
    case Paren(flg, lef, rit, spr) => ["("] + Show(spr) + [")"] + ShowRest(flg, lef, rit)
    case Pipe(flg, car, cdr) => Show(car) + (if STDERR in flg then ["|", "&"] else ["|"]) + Show(cdr)
    case List(_, car, cdr) =>
      if car.Null? then Show(cdr) + [";"]
      else if InBackground(car) then Show(car) + ["&"] + Show(cdr)
      else Show(car) + [";"] + Show(cdr)
    case Or(_, car, cdr) => Show(car) + ["||"] + Show(cdr)
    case And(_, car, cdr) => Show(car) + ["&&"] + Show(cdr)
  }

  // ----- well-formed trees -----

  // A word that is no operator.
  predicate Plain(w: Word) {
    !RelPar(w) && !Skipped(w) && First(w) != '|'
  }

  // Words that are plain outside parentheses, with parentheses that match.
  predicate Matched(ws: seq<Word>, l: nat) {
    if ws == [] then l == 0
    else if Opens(ws[0]) then Matched(ws[1..], l + 1)
    else if Closes(ws[0]) then l > 0 && Matched(ws[1..], l - 1)
    else (l == 0 ==> Plain(ws[0])) && Matched(ws[1..], l)
  }

  predicate AllPlain(ws: seq<Word>) {
    forall i | 0 <= i < |ws| :: Plain(ws[i])
  }

  // Redirections that are allowed in the context.
  predicate WfNames(flg: Flags, lef: Option<Word>, rit: Option<Word>, c: Context) {
    (READ in flg ==> lef.Some? && !c.here) &&
    (APPEND in flg || STDERR in flg || OVERWRITE in flg ==> rit.Some?) &&
    (lef.Some? ==> Plain(lef.value) && !c.pin) &&
    (rit.Some? ==> Plain(rit.value) && (c.pout ==> c.perr)) &&
    (rit.Some? && IsBang(rit.value) ==> OVERWRITE in flg) &&
    (rit.Some? && STDERR in flg ==> !c.pout && !c.perr)
  }

  const Behind: Flags := {AMPERSAND, NOINTERRUPT}

  // Not in the background.
  predicate Calm(t: Tree) {
    !t.Null? && AMPERSAND !in t.flg && NOINTERRUPT !in t.flg
  }

  // A tree for syn3 in the context c; it may be marked as in the background.
  predicate Wf3(t: Tree, c: Context)
    decreases t, 0
  {
    match t
    case Command(flg, lef, rit, com) =>
      WfNames(flg, lef, rit, c) && com != [] && if Special(com) then Matched(com, 0) else AllPlain(com)
    case Paren(flg, lef, rit, spr) => WfNames(flg, lef, rit, c) && Wf0(spr, InParens)
    case _ => false
  }

  predicate Wf2(t: Tree, c: Context)
    decreases t, 1
  {
    match t
    case Pipe(flg, car, cdr) =>
      flg - Behind <= {STDERR} && Calm(car) && Calm(cdr) &&
      Wf3(car, c.(pout := true, perr := STDERR in flg)) && Wf2(cdr, c.(pin := true))
    case _ => Wf3(t, c)
  }

  predicate Wf1b(t: Tree, c: Context)
    decreases t, 2
  {
    match t
    case And(flg, car, cdr) => flg == {} && Wf2(car, c) && Calm(car) && Wf1b(cdr, c)
    case _ => Wf2(t, c) && Calm(t)
  }

  predicate Wf1a(t: Tree, c: Context)
    decreases t, 3
  {
    match t
    case Or(flg, car, cdr) => flg == {} && Wf1b(car, c) && Wf1a(cdr, c)
    case _ => Wf1b(t, c)
  }

  // A list of commands; the last may be followed by a separator.
  predicate Wf1(t: Tree, c: Context)
    decreases t, 4
  {
    match t
    case List(flg, car, cdr) =>
      flg == {} && if car.Null? then Wf1a(cdr, c) else Wf1a(car, c) && Wf1(cdr, c)
    case _ => Wf1a(t, c)
  }

  // A list of commands in the background, and then one of others.
  predicate Wf0(t: Tree, c: Context)
    decreases t, 5
  {
    match t
    case List(flg, car, cdr) =>
      if InBackground(car) then
        flg == {} && NOINTERRUPT in car.flg && Wf2(car, c) && (cdr.Null? || Wf0(cdr, c))
      else Wf1(t, c)
    case _ => Wf1(t, c)
  }

  // What the trees of each level are, and that they are of the levels above.
  lemma Shape2(t: Tree, c: Context)
    requires Wf2(t, c)
    ensures t.Command? || t.Paren? || t.Pipe?
  {
    if !t.Pipe? {
      assert Wf3(t, c);
    }
  }

  lemma Shape1b(t: Tree, c: Context)
    requires Wf1b(t, c)
    ensures !t.List? && !t.Or? && !t.Null? && !InBackground(t) && Wf1a(t, c)
  {
    if !t.And? {
      Shape2(t, c);
    }
  }

  lemma Shape1a(t: Tree, c: Context)
    requires Wf1a(t, c)
    ensures !t.List? && !t.Null? && !InBackground(t) && Wf1(t, c)
  {
    if !t.Or? {
      Shape1b(t, c);
    }
  }

  lemma Wf1Is0(t: Tree, c: Context)
    requires Wf1(t, c)
    ensures Wf0(t, c) && !t.Null? && !(t.List? && InBackground(t.car))
  {
    if t.List? {
      if !t.car.Null? {
        Shape1a(t.car, c);
      }
    } else {
      Shape1a(t, c);
    }
  }

  // The tree without the marks of the last command in parentheses.
  function Unmarked(t: Tree): Tree {
    match t
    case Null => Null
    case Command(flg, lef, rit, com) => Command(flg - {NOFORK}, lef, rit, com)
    case Paren(flg, lef, rit, spr) => Paren(flg - {NOFORK}, lef, rit, Unmarked(spr))
    case Pipe(flg, car, cdr) => Pipe(flg, Unmarked(car), Unmarked(cdr))
    case List(flg, car, cdr) => List(flg, Unmarked(car), Unmarked(cdr))
    case Or(flg, car, cdr) => Or(flg, Unmarked(car), Unmarked(cdr))
    case And(flg, car, cdr) => And(flg, Unmarked(car), Unmarked(cdr))
  }

  // The tree with those marks where the parser sets them: on what a closing parenthesis
  // follows at once.  `last` says that one follows the tree.
  function Marked(t: Tree, last: bool): Tree {
    match t
    case Null => Null
    case Command(flg, lef, rit, com) => Command(Raise(flg - {NOFORK}, last, NOFORK), lef, rit, com)
    case Paren(flg, lef, rit, spr) => Paren(Raise(flg - {NOFORK}, last, NOFORK), lef, rit, Marked(spr, true))
    case Pipe(flg, car, cdr) => Pipe(flg, Marked(car, false), Marked(cdr, last))
    case List(flg, car, cdr) => List(flg, Marked(car, false), Marked(cdr, last && !car.Null?))
    case Or(flg, car, cdr) => Or(flg, Marked(car, false), Marked(cdr, last))
    case And(flg, car, cdr) => And(flg, Marked(car, false), Marked(cdr, last))
  }

  lemma {:induction false} MarkedUnmarked(t: Tree, last: bool)
    ensures Unmarked(Marked(t, last)) == Unmarked(t)
  {
    match t
    case Null =>
    case Command(flg, _, _, _) => assert Raise(flg - {NOFORK}, last, NOFORK) - {NOFORK} == flg - {NOFORK};
    case Paren(flg, _, _, spr) =>
      assert Raise(flg - {NOFORK}, last, NOFORK) - {NOFORK} == flg - {NOFORK};
      MarkedUnmarked(spr, true);
    case List(_, car, cdr) =>
      MarkedUnmarked(car, false);
      MarkedUnmarked(cdr, last && !car.Null?);
    case _ =>
      MarkedUnmarked(t.car, false);
      MarkedUnmarked(t.cdr, last);
  }

  // Without the marks of a command in the background.
  function Bare(t: Tree): Tree {
    match t
    case Command(flg, lef, rit, com) => Command(flg - Behind, lef, rit, com)
    case Paren(flg, lef, rit, spr) => Paren(flg - Behind, lef, rit, spr)
    case Pipe(flg, car, cdr) => Pipe(flg - Behind, car, cdr)
    case _ => t
  }

  // ----- walking over printed words -----

  // No separator of kind k outside parentheses.
  predicate Clear(ws: seq<Word>, l: int, k: Separator) {
    ws == [] || (!(l == 0 && Separates(k, ws[0])) && Clear(ws[1..], l + Delta(ws[0]), k))
  }

  lemma {:induction false} NetConcat(a: seq<Word>, b: seq<Word>)
    ensures Net(a + b) == Net(a) + Net(b)
  {
    if a == [] {
      assert a + b == b;
    } else {
      NetConcat(a[1..], b);
      assert (a + b)[1..] == a[1..] + b;
    }
  }

  lemma {:induction false} ClearConcat(a: seq<Word>, b: seq<Word>, l: int, k: Separator)
    requires Clear(a, l, k) && Clear(b, l + Net(a), k)
    ensures Clear(a + b, l, k)
  {
    if a == [] {
      assert a + b == b;
    } else {
      ClearConcat(a[1..], b, l + Delta(a[0]), k);
      assert (a + b)[1..] == a[1..] + b;
    }
  }

  lemma {:induction false} SplitNone(ws: seq<Word>, l: int, k: Separator)
    requires Clear(ws, l, k)
    ensures Split(ws, l, k) == |ws|
  {
    if ws != [] {
      SplitNone(ws[1..], l + Delta(ws[0]), k);
    }
  }

  // The words before the first separator.
  lemma {:induction false} SplitAt(a: seq<Word>, w: Word, b: seq<Word>, l: int, k: Separator)
    requires Clear(a, l, k) && l + Net(a) == 0 && Separates(k, w)
    ensures Split(a + [w] + b, l, k) == |a|
  {
    var ws := a + [w] + b;
    if a == [] {
      assert ws[0] == w;
    } else {
      SplitAt(a[1..], w, b, l + Delta(a[0]), k);
      assert ws[1..] == a[1..] + [w] + b;
    }
  }

  // The words syn0 walks over without stopping and without complaint.
  predicate Quiet(ws: seq<Word>, l: int)
    decreases |ws|
  {
    ws == [] ||
    (!(l == 0 && Backgrounds(ws[0])) && l + Delta(ws[0]) >= 0 && Quiet(ws[Stride(ws)..], l + Delta(ws[0])))
  }

  lemma NetStride(ws: seq<Word>)
    requires ws != []
    ensures Net(ws) == Delta(ws[0]) + Net(ws[Stride(ws)..])
  {
    if Stride(ws) == 2 {
      assert ws[1..][1..] == ws[2..];
    }
  }

  lemma {:induction false} QuietWalk(ws: seq<Word>, l: int, e: Error)
    requires Quiet(ws, l)
    ensures WalkAmp(ws, l, e) == Walk(|ws|, l + Net(ws), e)
    decreases |ws|
  {
    if ws != [] {
      QuietWalk(ws[Stride(ws)..], l + Delta(ws[0]), e);
      NetStride(ws);
    }
  }

  lemma StrideConcat(a: seq<Word>, b: seq<Word>)
    requires a != [] && !Ampersand(b, 0)
    ensures Stride(a + b) == Stride(a) && (a + b)[Stride(a)..] == a[Stride(a)..] + b
  {
    assert |a| == 1 && |b| > 0 ==> (a + b)[1] == b[0];
  }

  lemma QuietConcat(a: seq<Word>, b: seq<Word>, l: int)
    requires Quiet(a, l) && Quiet(b, l + Net(a)) && !Ampersand(b, 0)
    ensures Quiet(a + b, l)
  {
    QuietJoin(a, b, a + b, l, l + Net(a));
  }

  // What is quiet at one depth is quiet deeper down.
  lemma {:induction false} QuietDeeper(ws: seq<Word>, l: int)
    requires Quiet(ws, l) && l >= 0
    ensures Quiet(ws, l + 1)
    decreases |ws|
  {
    if ws != [] {
      QuietDeeper(ws[Stride(ws)..], l + Delta(ws[0]));
    }
  }

  // The last word takes no ampersand after it.
  predicate Firm(ws: seq<Word>) {
    ws != [] && First(ws[|ws| - 1]) != '>' && First(ws[|ws| - 1]) != '|'
  }

  // No ampersand at the start of b is taken by the end of a.
  predicate Apart(a: seq<Word>, b: seq<Word>) {
    a == [] || Firm(a) || !Ampersand(b, 0)
  }

  lemma StrideApart(a: seq<Word>, b: seq<Word>)
    requires a != [] && Apart(a, b)
    ensures Stride(a + b) == Stride(a) && (a + b)[Stride(a)..] == a[Stride(a)..] + b && Apart(a[Stride(a)..], b)
  {
    if Firm(a) {
      assert a[Stride(a)..] == [] || Firm(a[Stride(a)..]);
    } else {
      StrideConcat(a, b);
    }
  }

  // The same, where what follows starts with an ampersand.
  lemma QuietFirm(a: seq<Word>, b: seq<Word>, l: int)
    requires Quiet(a, l) && Quiet(b, l + Net(a)) && (a == [] || Firm(a))
    ensures Quiet(a + b, l)
  {
    QuietJoin(a, b, a + b, l, l + Net(a));
  }

  lemma {:induction false} QuietJoin(a: seq<Word>, b: seq<Word>, all: seq<Word>, l: int, m: int)
    requires Quiet(a, l) && m == l + Net(a) && (Quiet(b, m) == true) && Apart(a, b) && all == a + b
    ensures Quiet(all, l) == true
    decreases |a|
  {
    if a == [] {
      assert all == b;
    } else {
      var n, l' := QuietFirst(a, b, all, l);
      QuietJoin(a[n..], b, all[n..], l', m);
      QuietGrows(all, n, l, l');
    }
  }

  lemma QuietGrows(ws: seq<Word>, n: nat, l: int, l': int)
    requires ws != [] && n == Stride(ws) && !(l == 0 && Backgrounds(ws[0])) && l' == l + Delta(ws[0]) >= 0
    requires Quiet(ws[n..], l')
    ensures Quiet(ws, l) == true
  {
  }

  // The walk stops at place p without complaint.
  ghost predicate StopsAt(ws: seq<Word>, l: int, e: Error, p: nat) {
    WalkAmp(ws, l, e) == Walk(p, 0, e)
  }

  // It stops at an ampersand after whole words.
  lemma {:induction false} QuietStops(a: seq<Word>, rest: seq<Word>, all: seq<Word>, l: int, e: Error)
    requires Quiet(a, l) && Apart(a, rest) && l + Net(a) == 0 && rest != [] && Backgrounds(rest[0])
    requires all == a + rest
    ensures StopsAt(all, l, e, |a|) == true
    decreases |a|
  {
    if a == [] {
      assert all == rest;
      assert StopsAt(all, 0, e, 0);
    } else {
      var n, l' := QuietFirst(a, rest, all, l);
      QuietStops(a[n..], rest, all[n..], l', e);
      StopsStep(all, n, l, l', e, |a| - n);
    }
  }

  // The first step over a, whatever follows it.
  lemma QuietFirst(a: seq<Word>, rest: seq<Word>, all: seq<Word>, l: int) returns (n: nat, l': int)
    requires Quiet(a, l) && a != [] && Apart(a, rest) && all == a + rest
    ensures n <= |a| && n == Stride(all) > 0 && all[n..] == a[n..] + rest && all[0] == a[0]
    ensures (Quiet(a[n..], l') == true) && Apart(a[n..], rest) && l + Net(a) == l' + Net(a[n..])
    ensures !(l == 0 && Backgrounds(a[0])) && l' == l + Delta(a[0]) >= 0
  {
    n, l' := Stride(a), l + Delta(a[0]);
    NetStride(a);
    StrideApart(a, rest);
  }

  lemma StopsStep(ws: seq<Word>, n: nat, l: int, l': int, e: Error, p: nat)
    requires ws != [] && !(l == 0 && Backgrounds(ws[0])) && n == Stride(ws) && l' == l + Delta(ws[0]) >= 0
    requires StopsAt(ws[n..], l', e, p)
    ensures StopsAt(ws, l, e, n + p) == true
  {
  }

  // The depth stays above zero.
  predicate Inside(ws: seq<Word>, l: int) {
    ws == [] || (l + Delta(ws[0]) >= 1 && Inside(ws[1..], l + Delta(ws[0])))
  }

  lemma {:induction false} QuietInside(ws: seq<Word>, l: int)
    requires Quiet(ws, l) && l >= 0
    ensures Inside(ws, l + 1)
    decreases |ws|
  {
    if ws != [] {
      QuietInside(ws[Stride(ws)..], l + Delta(ws[0]));
      if Stride(ws) == 2 {
        assert ws[1..][1..] == ws[2..];
        assert Inside(ws[1..], l + 1);
      }
    }
  }

  lemma {:induction false} InsideConcat(a: seq<Word>, b: seq<Word>, l: int)
    requires Inside(a, l) && Inside(b, l + Net(a))
    ensures Inside(a + b, l)
  {
    if a == [] {
      assert a + b == b;
    } else {
      InsideConcat(a[1..], b, l + Delta(a[0]));
      assert (a + b)[1..] == a[1..] + b;
    }
  }

  lemma {:induction false} InsideClear(ws: seq<Word>, l: int, k: Separator)
    requires Inside(ws, l) && l >= 1
    ensures Clear(ws, l, k)
  {
    if ws != [] {
      InsideClear(ws[1..], l + Delta(ws[0]), k);
    }
  }

  // ----- what the printer writes -----

  // Words the parser can take as a whole.
  predicate Whole(ws: seq<Word>) {
    ws != [] && !Skipped(ws[0]) && Firm(ws) && Quiet(ws, 0) && Net(ws) == 0
  }

  // Words that can stand in parentheses.
  predicate Nested(ws: seq<Word>) {
    ws != [] && !Skipped(ws[0]) && Quiet(ws, 1) && Inside(ws, 1) && Net(ws) == 0
  }

  lemma WholeNested(ws: seq<Word>)
    requires Whole(ws)
    ensures Nested(ws)
  {
    QuietDeeper(ws, 0);
    QuietInside(ws, 0);
  }

  lemma {:induction false} MatchedQuiet(ws: seq<Word>, l: nat)
    requires Matched(ws, l)
    ensures Quiet(ws, l) && Net(ws) + l == 0
    decreases |ws|
  {
    if ws != [] {
      MatchedQuiet(ws[1..], l + Delta(ws[0]));
      if Stride(ws) == 2 {
        assert ws[1..][0] == ws[1] && ws[1..][1..] == ws[2..];
        MatchedQuiet(ws[2..], l);
      }
    }
  }

  lemma {:induction false} MatchedClear(ws: seq<Word>, l: nat, k: Separator)
    requires Matched(ws, l)
    ensures Clear(ws, l, k)
    decreases |ws|
  {
    if ws != [] {
      MatchedClear(ws[1..], l + Delta(ws[0]), k);
    }
  }

  lemma {:induction false} PlainMatched(ws: seq<Word>)
    requires AllPlain(ws)
    ensures Matched(ws, 0)
  {
    if ws != [] {
      assert Plain(ws[0]);
      assert forall i | 0 <= i < |ws| - 1 :: ws[1..][i] == ws[i + 1];
      PlainMatched(ws[1..]);
    }
  }

  lemma {:induction false} MatchedFirm(ws: seq<Word>, l: nat)
    requires Matched(ws, l) && ws != []
    ensures Firm(ws)
  {
    if |ws| > 1 {
      MatchedFirm(ws[1..], l + Delta(ws[0]));
    }
  }

  // A separator: one word, or `|&`.
  predicate Joins(sep: seq<Word>) {
    (|sep| == 1 || (|sep| == 2 && First(sep[0]) == '|' && Second(sep[0]) != '|' && IsAnd(sep[1]))) &&
    Delta(sep[0]) == 0 && !Backgrounds(sep[0]) && First(sep[0]) != '>'
  }

  predicate SepClear(sep: seq<Word>, k: Separator) {
    forall i | 0 <= i < |sep| :: !Separates(k, sep[i])
  }

  lemma SepWords(sep: seq<Word>, b: seq<Word>, k: Separator)
    requires Joins(sep) && Quiet(b, 0) && !Ampersand(b, 0)
    ensures Quiet(sep + b, 0) && Net(sep + b) == Net(b) && !Ampersand(sep + b, 0)
    ensures SepClear(sep, k) && Clear(b, 0, k) ==> Clear(sep + b, 0, k)
  {
    var ws := sep + b;
    if |sep| == 1 {
      assert ws[1..] == b && Stride(ws) == 1;
    } else {
      assert ws[2..] == b && ws[1..][1..] == b && ws[1..][0] == sep[1] && Stride(ws) == 2;
      assert Net(ws[1..]) == Net(b);
      assert SepClear(sep, k) && Clear(b, 0, k) ==> Clear(ws[1..], 0, k);
    }
  }

  // Words that may follow whole ones.
  predicate Trailing(b: seq<Word>) {
    Quiet(b, 0) && Net(b) == 0 && !Ampersand(b, 0) && (b == [] || Firm(b))
  }

  lemma WholeConcat(a: seq<Word>, b: seq<Word>)
    requires Whole(a) && Trailing(b)
    ensures Whole(a + b) == true
  {
    NetConcat(a, b);
    QuietConcat(a, b, 0);
    assert (a + b)[0] == a[0];
    assert (a + b)[|a + b| - 1] == if b == [] then a[|a| - 1] else b[|b| - 1];
  }

  lemma SepTrails(sep: seq<Word>, b: seq<Word>)
    requires Joins(sep) && Whole(b)
    ensures Trailing(sep + b) == true
  {
    SepWords(sep, b, Semi);
    FirmBehind(sep, b);
  }

  lemma Regroup(a: seq<Word>, b: seq<Word>, c: seq<Word>)
    ensures a + b + c == a + (b + c)
  {
  }

  // Two whole parts joined by a separator.
  lemma JoinedWhole(a: seq<Word>, sep: seq<Word>, b: seq<Word>)
    requires (Whole(a) == true) && (Whole(b) == true) && Joins(sep)
    ensures Whole(a + sep + b) == true
  {
    SepTrails(sep, b);
    WholeConcat(a, sep + b);
    Regroup(a, sep, b);
  }

  lemma FirmBehind(a: seq<Word>, b: seq<Word>)
    requires Firm(b)
    ensures Firm(a + b)
  {
    assert (a + b)[|a + b| - 1] == b[|b| - 1];
  }

  lemma JoinedClear(a: seq<Word>, sep: seq<Word>, b: seq<Word>, k: Separator)
    requires Net(a) == 0 && Clear(a, 0, k) && Clear(b, 0, k) && Joins(sep) && SepClear(sep, k)
    requires Quiet(b, 0) && !Ampersand(b, 0)
    ensures Clear(a + sep + b, 0, k)
  {
    SepWords(sep, b, k);
    assert a + sep + b == a + (sep + b);
    ClearConcat(a, sep + b, 0, k);
  }

  // A whole part and the separator that ends it.
  lemma EndedWhole(a: seq<Word>)
    requires Whole(a)
    ensures Whole(a + [";"])
  {
    var semi := [";"];
    assert semi[1..] == [] && Quiet(semi, 0) && Net(semi) == 0;
    WholeConcat(a, semi);
  }

  // A part in the background and what follows it.
  lemma BehindNested(a: seq<Word>, b: seq<Word>)
    requires Whole(a) && (b == [] || Nested(b))
    ensures Nested(a + ["&"] + b)
  {
    WholeNested(a);
    var tail := ["&"] + b;
    assert tail[1..] == b && Stride(tail) == 1 && Delta(tail[0]) == 0;
    assert Net(tail) == Net(b) == 0;
    assert Quiet(tail, 1) && Inside(tail, 1);
    assert a + ["&"] + b == a + tail;
    NetConcat(a, tail);
    QuietFirm(a, tail, 1);
    InsideConcat(a, tail, 1);
  }

  predicate WfRest(lef: Option<Word>, rit: Option<Word>) {
    (lef.Some? ==> Plain(lef.value)) && (rit.Some? ==> Plain(rit.value))
  }

  // Words that may follow a command.
  predicate Trails(r: seq<Word>, k: Separator) {
    Quiet(r, 0) && Net(r) == 0 && Clear(r, 0, k) && !Ampersand(r, 0) && (r == [] || Firm(r))
  }

  // A plain word, and what is put before it.
  lemma Single(w: Word, k: Separator)
    requires Plain(w)
    ensures Trails([w], k)
  {
    assert [w][1..] == [];
  }

  lemma Fronted(w: Word, r: seq<Word>, k: Separator)
    requires Delta(w) == 0 && !Separates(k, w) && Clear(r, 0, k)
    ensures Net([w] + r) == Net(r) && Clear([w] + r, 0, k) && (Firm(r) ==> Firm([w] + r))
  {
    assert ([w] + r)[1..] == r;
  }

  lemma InQuiet(flg: Flags, lef: Option<Word>, k: Separator)
    requires lef.Some? ==> Plain(lef.value)
    ensures Trails(ShowIn(flg, lef), k)
  {
    if lef.Some? {
      var r := ShowIn(flg, lef);
      var last := [lef.value];
      Single(lef.value, k);
      Fronted(r[0], last, k);
      assert r == [r[0]] + last && r[1..] == last;
    }
  }

  // The name of an output redirection, after `!` perhaps.
  lemma NameQuiet(flg: Flags, rit: Word, k: Separator)
    requires Plain(rit)
    ensures Trails((if OVERWRITE in flg then ["!"] else []) + [rit], k)
    ensures Firm((if OVERWRITE in flg then ["!"] else []) + [rit])
  {
    var last := [rit];
    Single(rit, k);
    if OVERWRITE in flg {
      Fronted("!", last, k);
      assert (["!"] + last)[1..] == last && !IsAnd("!");
    } else {
      assert [] + last == last;
    }
  }

  lemma OutQuiet(flg: Flags, rit: Option<Word>, k: Separator)
    requires rit.Some? ==> Plain(rit.value)
    ensures Trails(ShowOut(flg, rit), k)
  {
    if rit.Some? {
      var r := ShowOut(flg, rit);
      var name := (if OVERWRITE in flg then ["!"] else []) + [rit.value];
      NameQuiet(flg, rit.value, k);
      if STDERR in flg {
        Fronted("&", name, k);
        Fronted(r[0], ["&"] + name, k);
        assert r == [r[0]] + (["&"] + name) && r[2..] == name && IsAnd(r[1]);
      } else {
        Fronted(r[0], name, k);
        assert r == [r[0]] + name && r[1..] == name;
      }
    }
  }

  lemma RestQuiet(flg: Flags, lef: Option<Word>, rit: Option<Word>, k: Separator)
    requires WfRest(lef, rit)
    ensures Trails(ShowRest(flg, lef, rit), k)
  {
    InQuiet(flg, lef, k);
    OutQuiet(flg, rit, k);
    var a, b := ShowIn(flg, lef), ShowOut(flg, rit);
    NetConcat(a, b);
    QuietConcat(a, b, 0);
    ClearConcat(a, b, 0, k);
  }

  // A whole part and its redirections.
  lemma WithRest(a: seq<Word>, flg: Flags, lef: Option<Word>, rit: Option<Word>, k: Separator)
    requires Whole(a) && Clear(a, 0, k) && WfRest(lef, rit)
    ensures var ws := a + ShowRest(flg, lef, rit); Whole(ws) && Clear(ws, 0, k)
  {
    var r := ShowRest(flg, lef, rit);
    RestQuiet(flg, lef, rit, k);
    WholeConcat(a, r);
    ClearConcat(a, r, 0, k);
  }

  // Words in parentheses.
  lemma Enclosed(a: seq<Word>, k: Separator)
    requires Nested(a)
    ensures var ws := ["("] + a + [")"]; Whole(ws) && Clear(ws, 0, k)
  {
    var close := [")"];
    var ws := ["("] + a + close;
    assert close[1..] == [];
    assert Quiet(close, 1) && Clear(close, 1, k) && Net(close) == -1;
    InsideClear(a, 1, k);
    QuietConcat(a, close, 1);
    ClearConcat(a, close, 1, k);
    NetConcat(a, close);
    assert ws[1..] == a + close && Stride(ws) == 1;
  }

  lemma CommandWhole(com: seq<Word>, k: Separator)
    requires com != [] && (if Special(com) then Matched(com, 0) else AllPlain(com))
    ensures Matched(com, 0) && Whole(com) && Clear(com, 0, k)
  {
    if !Special(com) {
      assert Plain(com[0]);
      PlainMatched(com);
    }
    MatchedQuiet(com, 0);
    MatchedClear(com, 0, k);
    MatchedFirm(com, 0);
  }

  lemma {:induction false} Shows3(t: Tree, c: Context, k: Separator)
    requires Wf3(t, c)
    ensures Whole(Show(t)) && Clear(Show(t), 0, k)
    decreases t, 0
  {
    match t
    case Command(flg, lef, rit, com) =>
      CommandWhole(com, k);
      WithRest(com, flg, lef, rit, k);
    case Paren(flg, lef, rit, spr) =>
      Shows0(spr, InParens);
      Enclosed(Show(spr), k);
      WithRest(["("] + Show(spr) + [")"], flg, lef, rit, k);
  }

  // The separators, and the kinds of separators they are not.
  lemma Separators(both: bool)
    ensures var bar := if both then ["|", "&"] else ["|"];
      Joins(bar) && SepClear(bar, Semi) && SepClear(bar, OrOr) && SepClear(bar, AndAnd)
    ensures Joins(["&&"]) && SepClear(["&&"], Semi) && SepClear(["&&"], OrOr)
    ensures Joins(["||"]) && SepClear(["||"], Semi) && Joins([";"])
  {
  }

  function BarWords(flg: Flags): seq<Word> {
    if STDERR in flg then ["|", "&"] else ["|"]
  }

  lemma {:induction false} Shows2(t: Tree, c: Context, k: Separator)
    requires Wf2(t, c) && k != Bar
    ensures Whole(Show(t)) && Clear(Show(t), 0, k)
    decreases t, 1
  {
    if t.Pipe? {
      Shows3(t.car, c.(pout := true, perr := STDERR in t.flg), k);
      Shows2(t.cdr, c.(pin := true), k);
      Separators(STDERR in t.flg);
      JoinedWhole(Show(t.car), BarWords(t.flg), Show(t.cdr));
      JoinedClear(Show(t.car), BarWords(t.flg), Show(t.cdr), k);
    } else {
      Shows3(t, c, k);
    }
  }

  lemma {:induction false} Shows1b(t: Tree, c: Context, k: Separator)
    requires Wf1b(t, c) && k != Bar && k != AndAnd
    ensures Whole(Show(t)) && Clear(Show(t), 0, k)
    decreases t, 2
  {
    if t.And? {
      Shows2(t.car, c, k);
      Shows1b(t.cdr, c, k);
      Separators(false);
      JoinedWhole(Show(t.car), ["&&"], Show(t.cdr));
      JoinedClear(Show(t.car), ["&&"], Show(t.cdr), k);
    } else {
      Shows2(t, c, k);
    }
  }

  lemma {:induction false} Shows1a(t: Tree, c: Context)
    requires Wf1a(t, c)
    ensures Whole(Show(t)) && Clear(Show(t), 0, Semi)
    decreases t, 3
  {
    if t.Or? {
      Shows1b(t.car, c, Semi);
      Shows1a(t.cdr, c);
      Separators(false);
      JoinedWhole(Show(t.car), ["||"], Show(t.cdr));
      JoinedClear(Show(t.car), ["||"], Show(t.cdr), Semi);
    } else {
      Shows1b(t, c, Semi);
    }
  }

  lemma {:induction false} Shows1(t: Tree, c: Context)
    requires Wf1(t, c)
    ensures Whole(Show(t))
    decreases t, 4
  {
    if t.List? {
      if t.car.Null? {
        Shows1a(t.cdr, c);
        EndedWhole(Show(t.cdr));
      } else {
        Shows1a(t.car, c);
        Shows1(t.cdr, c);
        Separators(false);
        JoinedWhole(Show(t.car), [";"], Show(t.cdr));
        CalmList(t, c);
      }
    } else {
      Shows1a(t, c);
    }
  }

  // The first command of such a list is not in the background.
  lemma CalmList(t: Tree, c: Context)
    requires t.List? && !t.car.Null? && Wf1(t, c)
    ensures !InBackground(t.car)
  {
    var a := t.car;
    assert Wf1a(a, c);
    if !a.Or? {
      assert Wf1b(a, c);
    }
  }

  lemma {:induction false} Shows0(t: Tree, c: Context)
    requires Wf0(t, c)
    ensures Nested(Show(t))
    decreases t, 5
  {
    if t.List? && InBackground(t.car) {
      Shows2(t.car, c, Semi);
      if !t.cdr.Null? {
        Shows0(t.cdr, c);
      }
      BehindNested(Show(t.car), Show(t.cdr));
    } else {
      Shows1(t, c);
      WholeNested(Show(t));
    }
  }

  // ----- what padd leaves out -----

  // The tree has nothing padd leaves out.
  predicate Printable(t: Tree) {
    match t
    case Null => false
    case Command(flg, lef, rit, com) => PrintableNames(flg, lef, rit) && forall i | 0 <= i < |com| :: First(com[i]) != QNULL
    case Paren(flg, lef, rit, spr) => PrintableNames(flg, lef, rit) && Printable(spr)
    case Pipe(flg, car, cdr) => STDERR !in flg && AMPERSAND !in flg && Printable(car) && Printable(cdr)
    case List(flg, car, cdr) => AMPERSAND !in flg && Printable(car) && Printable(cdr)
    case Or(flg, car, cdr) => AMPERSAND !in flg && Printable(car) && Printable(cdr)
    case And(flg, car, cdr) => AMPERSAND !in flg && Printable(car) && Printable(cdr)
  }

  predicate PrintableNames(flg: Flags, lef: Option<Word>, rit: Option<Word>) {
    AMPERSAND !in flg && OVERWRITE !in flg &&
    (lef.Some? ==> First(lef.value) != QNULL) && (rit.Some? ==> First(rit.value) != QNULL)
  }

  lemma {:induction false} PrintAllSame(ws: seq<Word>)
    requires forall i | 0 <= i < |ws| :: First(ws[i]) != QNULL
    ensures PrintAll(ws) == ws
  {
    if ws != [] {
      assert forall i | 0 <= i < |ws| - 1 :: ws[1..][i] == ws[i + 1];
      PrintAllSame(ws[1..]);
    }
  }

  lemma RestSame(flg: Flags, lef: Option<Word>, rit: Option<Word>)
    requires PrintableNames(flg, lef, rit)
    ensures PrintIn(flg, lef) == ShowIn(flg, lef) && PrintOut(flg, rit) == ShowOut(flg, rit)
  {
  }

  // Then padd writes the whole of it.
  lemma {:induction false} PrintIsShow(t: Tree)
    requires Printable(t)
    ensures Print(t) == Show(t)
  {
    match t
    case Command(flg, lef, rit, com) =>
      PrintAllSame(com);
      RestSame(flg, lef, rit);
    case Paren(flg, lef, rit, spr) =>
      PrintIsShow(spr);
      RestSame(flg, lef, rit);
    case Pipe(_, car, cdr) => PrintIsShow(car); PrintIsShow(cdr);
    case List(_, car, cdr) => PrintIsShow(car); PrintIsShow(cdr);
    case Or(_, car, cdr) => PrintIsShow(car); PrintIsShow(cdr);
    case And(_, car, cdr) => PrintIsShow(car); PrintIsShow(cdr);
  }
}
