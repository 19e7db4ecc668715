/**
 * What comes back of the trees of which padd leaves something out: the marks of background
 * commands, of pipes of both outputs and of `>!` are lost, and nothing else.
 */
module ParseLost {
  import opened Common
  import opened Parse
  import opened ParsePrint
  import opened ParseRoundTrip

  const Marks: Flags := Behind + {OVERWRITE}

  // The tree without them.
  function Lost(t: Tree): Tree {
    match t
    case Null => Null
    case Command(flg, lef, rit, com) => Command(flg - Marks, lef, rit, com)
    case Paren(flg, lef, rit, spr) => Paren(flg - Marks, lef, rit, Lost(spr))
    case Pipe(_, car, cdr) => Pipe({}, Lost(car), Lost(cdr))
    case List(flg, car, cdr) =>
      if cdr.Null? then List(flg, Null, Lost(car)) else List(flg, Lost(car), Lost(cdr))
    case Or(flg, car, cdr) => Or(flg, Lost(car), Lost(cdr))
    case And(flg, car, cdr) => And(flg, Lost(car), Lost(cdr))
  }

  predicate ShownWord(w: Word) {
    First(w) != QNULL
  }

  predicate ShownNames(lef: Option<Word>, rit: Option<Word>) {
    (lef.Some? ==> ShownWord(lef.value)) && (rit.Some? ==> ShownWord(rit.value) && !IsBang(rit.value))
  }

  // Nothing but marks is lost: no word is shortened, no name is taken for a mark, no list
  // has an empty left side, and no command redirects an output that a pipe takes too.
  predicate OnlyMarks(t: Tree) {
    match t
    case Null => false
    case Command(_, lef, rit, com) => ShownNames(lef, rit) && forall i | 0 <= i < |com| :: ShownWord(com[i])
    case Paren(_, lef, rit, spr) => ShownNames(lef, rit) && OnlyMarks(spr)
    case Pipe(flg, car, cdr) =>
      OnlyMarks(car) && OnlyMarks(cdr) && (STDERR in flg && (car.Command? || car.Paren?) ==> car.rit.None?)
    case List(_, car, cdr) => OnlyMarks(car) && (cdr.Null? || OnlyMarks(cdr))
    case Or(_, car, cdr) => OnlyMarks(car) && OnlyMarks(cdr)
    case And(_, car, cdr) => OnlyMarks(car) && OnlyMarks(cdr)
  }

  // ----- the words are those of the tree without the marks -----

  lemma LostNames(flg: Flags, lef: Option<Word>, rit: Option<Word>)
    requires ShownNames(lef, rit)
    ensures PrintIn(flg, lef) + PrintOut(flg, rit) == ShowRest(flg - Marks, lef, rit)
  {
  }

  lemma {:induction false} LostShows(t: Tree, c: Context)
    requires Wf0(t, c) && OnlyMarks(t)
    ensures Print(t) == Show(Lost(t))
    decreases t, 6
  {
    if t.List? && InBackground(t.car) {
      Lost2(t.car, c);
      LostListShows(t, c);
    } else {
      Lost1(t, c);
    }
  }

  lemma {:induction false} LostListShows(t: Tree, c: Context)
    requires t.List? && InBackground(t.car) && Wf0(t, c) && OnlyMarks(t) && Print(t.car) == Show(Lost(t.car))
    ensures Print(t) == Show(Lost(t))
    decreases t, 5
  {
    assert t.car.Pipe? || Wf3(t.car, c);
    assert !InBackground(Lost(t.car)) && !Lost(t.car).Null?;
    if t.cdr.Null? {
      assert Print(t) == Print(t.car) + [";"] + [] == Show(Lost(t.car)) + [";"];
    } else {
      LostShows(t.cdr, c);
    }
  }

  lemma {:induction false} Lost1(t: Tree, c: Context)
    requires Wf1(t, c) && OnlyMarks(t)
    ensures Print(t) == Show(Lost(t))
    decreases t, 5
  {
    if t.List? {
      Lost1a(t.car, c);
      CalmList(t, c);
      assert !t.cdr.Null?;
      Lost1(t.cdr, c);
    } else {
      Lost1a(t, c);
    }
  }

  lemma {:induction false} Lost1a(t: Tree, c: Context)
    requires Wf1a(t, c) && OnlyMarks(t)
    ensures Print(t) == Show(Lost(t)) && !InBackground(Lost(t)) && !Lost(t).Null?
    decreases t, 4
  {
    if t.Or? {
      Lost1b(t.car, c);
      Lost1a(t.cdr, c);
    } else {
      Lost1b(t, c);
    }
  }

  lemma {:induction false} Lost1b(t: Tree, c: Context)
    requires Wf1b(t, c) && OnlyMarks(t)
    ensures Print(t) == Show(Lost(t)) && !InBackground(Lost(t)) && !Lost(t).Null?
    decreases t, 3
  {
    if t.And? {
      Lost2(t.car, c);
      Lost1b(t.cdr, c);
    } else {
      Lost2(t, c);
    }
  }

  lemma {:induction false} Lost2(t: Tree, c: Context)
    requires Wf2(t, c) && OnlyMarks(t)
    ensures Print(t) == Show(Lost(t)) && !InBackground(Lost(t)) && !Lost(t).Null?
    decreases t, 2
  {
    if t.Pipe? {
      Lost3(t.car, c.(pout := true, perr := STDERR in t.flg));
      Lost2(t.cdr, c.(pin := true));
    } else {
      Lost3(t, c);
    }
  }

  lemma {:induction false} Lost3(t: Tree, c: Context)
    requires Wf3(t, c) && OnlyMarks(t)
    ensures Print(t) == Show(Lost(t)) && !InBackground(Lost(t)) && !Lost(t).Null?
    decreases t, 1
  {
    LostNames(t.flg, t.lef, t.rit);
    if t.Command? {
      PrintAllSame(t.com);
      assert t.com + PrintIn(t.flg, t.lef) + PrintOut(t.flg, t.rit) == t.com + ShowRest(t.flg - Marks, t.lef, t.rit);
    } else {
      LostShows(t.spr, InParens);
      var a := ["("] + Show(Lost(t.spr)) + [")"];
      assert a + PrintIn(t.flg, t.lef) + PrintOut(t.flg, t.rit) == a + ShowRest(t.flg - Marks, t.lef, t.rit);
    }
  }

  // ----- and it is well-formed -----

  lemma {:induction false} LostWf0(t: Tree, c: Context)
    requires Wf0(t, c) && OnlyMarks(t) && !c.perr
    ensures Wf1(Lost(t), c)
    decreases t, 6
  {
    if t.List? && InBackground(t.car) {
      LostWf2(t.car, c);
      LiftWf(Lost(t.car), c);
      if !t.cdr.Null? {
        LostWf0(t.cdr, c);
      }
    } else {
      LostWf1(t, c);
    }
  }

  // A pipe or command that is not in the background can stand at every level.
  lemma LiftWf(t: Tree, c: Context)
    requires Wf2(t, c) && Calm(t)
    ensures Wf1a(t, c) && Wf1(t, c)
  {
    assert t.Pipe? || Wf3(t, c);
    assert Wf1b(t, c);
  }

  lemma {:induction false} LostWf1(t: Tree, c: Context)
    requires Wf1(t, c) && OnlyMarks(t) && !c.perr
    ensures Wf1(Lost(t), c)
    decreases t, 5
  {
    if t.List? {
      LostWf1a(t.car, c);
      Lost1a(t.car, c);
      LostWf1(t.cdr, c);
    } else {
      LostWf1a(t, c);
    }
  }

  lemma {:induction false} LostWf1a(t: Tree, c: Context)
    requires Wf1a(t, c) && OnlyMarks(t) && !c.perr
    ensures Wf1a(Lost(t), c) && Wf1(Lost(t), c)
    decreases t, 4
  {
    if t.Or? {
      LostWf1b(t.car, c);
      LostWf1a(t.cdr, c);
    } else {
      LostWf1b(t, c);
    }
  }

  lemma {:induction false} LostWf1b(t: Tree, c: Context)
    requires Wf1b(t, c) && OnlyMarks(t) && !c.perr
    ensures Wf1b(Lost(t), c) && Wf1a(Lost(t), c) && Wf1(Lost(t), c)
    decreases t, 3
  {
    if t.And? {
      LostWf2(t.car, c);
      LostWf1b(t.cdr, c);
    } else {
      LostWf2(t, c);
      LiftWf(Lost(t), c);
    }
  }

  lemma {:induction false} LostWf2(t: Tree, c: Context)
    requires Wf2(t, c) && OnlyMarks(t) && !c.perr
    ensures Wf2(Lost(t), c) && Calm(Lost(t))
    decreases t, 2
  {
    if t.Pipe? {
      var c' := c.(pout := true, perr := STDERR in t.flg);
      assert t.car.Command? || t.car.Paren?;
      LostWf3(t.car, c');
      LostWf2(t.cdr, c.(pin := true));
      assert c'.(perr := false) == c.(pout := true, perr := false);
    } else {
      LostWf3(t, c);
      assert c.(perr := false) == c;
    }
  }

  lemma {:induction false} LostWf3(t: Tree, c: Context)
    requires Wf3(t, c) && OnlyMarks(t) && (c.perr ==> t.rit.None?)
    ensures Wf3(Lost(t), c.(perr := false)) && Calm(Lost(t))
    decreases t, 1
  {
    LostWfNames(t.flg, t.lef, t.rit, c);
    if t.Paren? {
      LostWf0(t.spr, InParens);
      Wf1Is0(Lost(t.spr), InParens);
    }
  }

  lemma LostWfNames(flg: Flags, lef: Option<Word>, rit: Option<Word>, c: Context)
    requires WfNames(flg, lef, rit, c) && ShownNames(lef, rit) && (c.perr ==> rit.None?)
    ensures WfNames(flg - Marks, lef, rit, c.(perr := false))
  {
  }

  // ----- what comes back -----

  // Of a well-formed tree from which padd drops nothing but marks, the tree without them
  // comes back.
  lemma LostComesBack(t: Tree, after: Word)
    requires Wf0(t, TopLevel) && OnlyMarks(t)
    ensures Syntax(Print(t), after, TopLevel, NoError) == Parsed(Marked(Lost(t), Closes(after)), NoError)
  {
    LostShows(t, TopLevel);
    LostWf0(t, TopLevel);
    Wf1Is0(Lost(t), TopLevel);
    ShowRoundTrip(Lost(t), after);
  }

  lemma LostFlags(flg: Flags)
    ensures (flg - Marks) - {NOFORK} == flg - {NOFORK} <==>
      AMPERSAND !in flg && NOINTERRUPT !in flg && OVERWRITE !in flg
  {
    var a, b := (flg - Marks) - {NOFORK}, flg - {NOFORK};
    assert AMPERSAND !in a && NOINTERRUPT !in a && OVERWRITE !in a;
    assert AMPERSAND in b <==> AMPERSAND in flg;
    assert NOINTERRUPT in b <==> NOINTERRUPT in flg;
    assert OVERWRITE in b <==> OVERWRITE in flg;
  }

  // That is the tree itself exactly where padd leaves nothing out.
  ghost predicate SameIff(t: Tree) {
    Unmarked(Lost(t)) == Unmarked(t) <==> Printable(t)
  }

  // Both marks of the background, or none.
  predicate Paired(t: Tree) {
    !t.Null? && (AMPERSAND in t.flg <==> NOINTERRUPT in t.flg)
  }

  lemma {:induction false} Same3(t: Tree, c: Context)
    requires Wf3(t, c) && OnlyMarks(t) && Paired(t)
    ensures SameIff(t)
    decreases t, 1
  {
    LostFlags(t.flg);
    if t.Paren? {
      Same0(t.spr, InParens);
    }
  }

  lemma {:induction false} Same2(t: Tree, c: Context)
    requires Wf2(t, c) && OnlyMarks(t) && Paired(t)
    ensures SameIff(t)
    decreases t, 2
  {
    if t.Pipe? {
      Same3(t.car, c.(pout := true, perr := STDERR in t.flg));
      Same2(t.cdr, c.(pin := true));
      PipeFlags(t.flg);
    } else {
      Same3(t, c);
    }
  }

  lemma PipeFlags(flg: Flags)
    requires flg - Behind <= {STDERR} && (AMPERSAND in flg <==> NOINTERRUPT in flg)
    ensures flg == {} <==> STDERR !in flg && AMPERSAND !in flg
  {
    if STDERR !in flg && AMPERSAND !in flg {
      assert flg == flg - Behind;
    }
  }

  lemma {:induction false} Same1b(t: Tree, c: Context)
    requires Wf1b(t, c) && OnlyMarks(t)
    ensures SameIff(t)
    decreases t, 3
  {
    if t.And? {
      Same2(t.car, c);
      Same1b(t.cdr, c);
    } else {
      Same2(t, c);
    }
  }

  lemma {:induction false} Same1a(t: Tree, c: Context)
    requires Wf1a(t, c) && OnlyMarks(t)
    ensures SameIff(t)
    decreases t, 4
  {
    if t.Or? {
      Same1b(t.car, c);
      Same1a(t.cdr, c);
    } else {
      Same1b(t, c);
    }
  }

  lemma {:induction false} Same1(t: Tree, c: Context)
    requires Wf1(t, c) && OnlyMarks(t)
    ensures SameIff(t)
    decreases t, 5
  {
    if t.List? {
      Same1a(t.car, c);
      Same1(t.cdr, c);
    } else {
      Same1a(t, c);
    }
  }

  lemma {:induction false} Same0(t: Tree, c: Context)
    requires Wf0(t, c) && OnlyMarks(t)
    ensures SameIff(t)
    decreases t, 6
  {
    if t.List? && InBackground(t.car) {
      Same2(t.car, c);
      assert t.car.Pipe? || Wf3(t.car, c);
      assert !Printable(t.car);
    } else {
      Same1(t, c);
    }
  }

  // The round trip through padd, for every well-formed tree from which it drops nothing but
  // marks: the tree comes back if and only if there were none.
  lemma RoundTripIff(t: Tree, after: Word)
    requires Wf0(t, TopLevel) && OnlyMarks(t)
    ensures var r := Syntax(Print(t), after, TopLevel, NoError);
      r.e == NoError && (Unmarked(r.t) == Unmarked(t) <==> Printable(t))
  {
    LostComesBack(t, after);
    MarkedUnmarked(Lost(t), Closes(after));
    Same0(t, TopLevel);
  }

  // A list with an empty left side is turned around, and its separator skipped.
  lemma EmptyLeftIsLost(t: Tree, after: Word)
    requires Wf0(t, TopLevel) && Printable(t)
    ensures var r := Syntax(Print(List({}, Null, t)), after, TopLevel, NoError);
      r.e == NoError && Unmarked(r.t) == Unmarked(t) != Unmarked(List({}, Null, t))
  {
    RoundTrip(t, after);
    MarkedUnmarked(t, Closes(after));
    var ws := Print(List({}, Null, t));
    assert Print(Null) == [];
    assert ws == [";"] + Print(t) && ws[1..] == Print(t);
    NotItsPart(Unmarked(t));
  }

  lemma {:induction false} NotItsPart(t: Tree)
    ensures t != List({}, Null, t)
  {
    if t.List? {
      NotItsPart(t.cdr);
    }
  }

  // A word that begins with the mark of a quoted null loses it.
  lemma QuoteIsLost(w: Word, after: Word)
    requires Plain(w) && First(w) != QNULL && !Special([w])
    ensures var r := Syntax(Print(Command({}, None, None, [[QNULL] + w])), after, TopLevel, NoError);
      r.e == NoError && Unmarked(r.t) == Command({}, None, None, [w])
  {
    var t, u := Command({}, None, None, [[QNULL] + w]), Command({}, None, None, [w]);
    assert Shown([QNULL] + w) == w && Shown(w) == w;
    assert [[QNULL] + w][1..] == [] && [w][1..] == [];
    assert Print(t) == Print(u);
    assert AllPlain([w]) && Wf3(u, TopLevel) && Wf2(u, TopLevel);
    LiftWf(u, TopLevel);
    Wf1Is0(u, TopLevel);
    RoundTrip(u, after);
    MarkedUnmarked(u, Closes(after));
  }
}
