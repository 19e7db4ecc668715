/** The round trip: the parser reads back every well-formed tree. */
module ParseRoundTrip {
  import opened Common
  import opened Parse
  import opened ParsePrint

  // ----- reading the words back -----

  // A turn that takes one word.
  lemma PassOne(ws: seq<Word>, p: nat, special: bool, c: Context, s: Scan, s1: Scan)
    requires ws != [] && !(Redirects(ws[0]) && s.l == 0) && Take([ws[0]], p, special, c, s).s == s1
    ensures Pass(ws, p, special, c, s) == Pass(ws[1..], p + 1, special, c, s1)
  {
    assert Take(ws, p, special, c, s) == Taken(s1, 1);
  }

  // What the turn does with a word of a command, and with a word in parentheses.
  ghost predicate Stored(w: Word, special: bool, s: Scan, r: Scan) {
    r.l == s.l + Delta(w) && r.flg == s.flg && r.lef == s.lef && r.rit == s.rit && r.e == s.e &&
    r.com == s.com + [w] && r.n == s.n + 1 && (special || r.lp == s.lp)
  }

  lemma TakeStored(w: Word, p: nat, special: bool, c: Context, s: Scan)
    requires s.e == NoError && (special || (s.l == 0 && Plain(w))) && !(Redirects(w) && s.l == 0)
    ensures Stored(w, special, s, Take([w], p, special, c, s).s)
  {
  }

  lemma TakeInner(w: Word, p: nat, c: Context, s: Scan)
    requires s.l >= 1 && s.l + Delta(w) >= 1
    ensures Take([w], p, false, c, s).s == s.(l := s.l + Delta(w))
  {
  }

  // The second pass over the words of a command.
  lemma {:induction false} PassCommand(com: seq<Word>, ws: seq<Word>, p: nat, special: bool, c: Context, s: Scan)
    returns (r: Scan)
    requires s.l >= 0 && Matched(com, s.l) && s.e == NoError
    requires special || (s.l == 0 && AllPlain(com))
    ensures Pass(com + ws, p, special, c, s) == Pass(ws, p + |com|, special, c, r)
    ensures r.l == 0 && r.flg == s.flg && r.lef == s.lef && r.rit == s.rit && r.e == NoError
    ensures r.com == s.com + com && r.n == s.n + |com| && (special || r.lp == s.lp)
    decreases com
  {
    if com == [] {
      r := s;
      assert com + ws == ws;
    } else {
      var w, rest := com[0], com[1..];
      MatchedFirst(com, s.l, special);
      var s1 := Take([w], p, special, c, s).s;
      TakeStored(w, p, special, c, s);
      r := PassCommand(rest, ws, p + 1, special, c, s1);
      PassFirst(com, ws, p, special, c, s, s1);
      assert s.com + com == s.com + [w] + rest;
    }
  }

  lemma MatchedFirst(com: seq<Word>, l: nat, special: bool)
    requires com != [] && Matched(com, l) && (special || (l == 0 && AllPlain(com)))
    ensures !(Redirects(com[0]) && l == 0) && l + Delta(com[0]) >= 0 && Matched(com[1..], l + Delta(com[0]))
    ensures special || (Plain(com[0]) && Delta(com[0]) == 0 && AllPlain(com[1..]))
  {
    if !special {
      assert forall i | 0 <= i < |com| - 1 :: com[1..][i] == com[i + 1];
    }
  }

  lemma PassFirst(a: seq<Word>, ws: seq<Word>, p: nat, special: bool, c: Context, s: Scan, s1: Scan)
    requires a != [] && !(Redirects(a[0]) && s.l == 0) && Take([a[0]], p, special, c, s).s == s1
    ensures Pass(a + ws, p, special, c, s) == Pass(a[1..] + ws, p + 1, special, c, s1)
  {
    var all := a + ws;
    assert all[0] == a[0] && all[1..] == a[1..] + ws;
    PassOne(all, p, special, c, s, s1);
  }

  // The second pass over what is in parentheses: only the depth moves.
  lemma {:induction false} PassInner(a: seq<Word>, ws: seq<Word>, p: nat, c: Context, s: Scan)
    requires s.l >= 1 && Inside(a, s.l)
    ensures Pass(a + ws, p, false, c, s) == Pass(ws, p + |a|, false, c, s.(l := s.l + Net(a)))
    decreases |a|
  {
    if a == [] {
      assert a + ws == ws;
    } else {
      var s1 := s.(l := s.l + Delta(a[0]));
      TakeInner(a[0], p, c, s);
      PassInner(a[1..], ws, p + 1, c, s1);
      PassFirst(a, ws, p, false, c, s, s1);
    }
  }

  // The second pass over the redirections.
  lemma PassIn(flg: Flags, lef: Option<Word>, ws: seq<Word>, p: nat, special: bool, c: Context, s: Scan)
    requires s.l == 0 && s.lef == None && s.e == NoError && READ !in s.flg
    requires lef.Some? ==> Plain(lef.value) && !c.pin && !(READ in flg && c.here)
    ensures var a := ShowIn(flg, lef);
      Pass(a + ws, p, special, c, s)
      == Pass(ws, p + |a|, special, c, s.(lef := lef, flg := Raise(s.flg, lef.Some? && READ in flg, READ)))
  {
    var a := ShowIn(flg, lef);
    if lef.None? {
      assert a + ws == ws;
    } else {
      var w := a + ws;
      assert w[0] == a[0] && w[1] == lef.value && w[2..] == ws;
      var r := TakeIn(w, c, s.flg, s.lef, s.e);
      assert r == Redirect(Raise(s.flg, READ in flg, READ), lef, NoError, 2);
      assert Take(w, p, special, c, s) == Taken(s.(lef := lef, flg := r.flg), 2);
    }
  }

  // The flags an output redirection raises.
  function OutFlags(f: Flags, flg: Flags): Flags {
    Raise(Raise(Raise(f, APPEND in flg, APPEND), STDERR in flg, STDERR), OVERWRITE in flg, OVERWRITE)
  }

  lemma TakeOutName(flg: Flags, rit: Word, ws: seq<Word>, c: Context, flg0: Flags)
    requires Plain(rit) && (IsBang(rit) ==> OVERWRITE in flg)
    requires (c.pout ==> c.perr) && (STDERR in flg ==> !c.pout && !c.perr)
    ensures var a := ShowOut(flg, Some(rit));
      TakeOut(a + ws, c, flg0, None, NoError) == Redirect(OutFlags(flg0, flg), Some(rit), NoError, |a|)
  {
    var w := ShowOut(flg, Some(rit)) + ws;
    var i := if STDERR in flg then 2 else 1;
    if STDERR in flg {
      assert w[1] == "&" && IsAnd(w[1]);
    }
    if OVERWRITE in flg {
      assert w[i] == "!" && w[i + 1] == rit;
    } else {
      assert w[i] == rit;
    }
    assert Ampersand(w, 1) == (STDERR in flg);
  }

  lemma PassOut(flg: Flags, rit: Option<Word>, p: nat, special: bool, c: Context, s: Scan)
    requires s.l == 0 && s.rit == None && s.e == NoError
    requires rit.Some? ==> Plain(rit.value) && (IsBang(rit.value) ==> OVERWRITE in flg) && (c.pout ==> c.perr)
    requires rit.Some? && STDERR in flg ==> !c.pout && !c.perr
    ensures Pass(ShowOut(flg, rit), p, special, c, s)
         == s.(rit := rit, flg := if rit.None? then s.flg else OutFlags(s.flg, flg))
  {
    if rit.Some? {
      var a := ShowOut(flg, rit);
      TakeOutName(flg, rit.value, [], c, s.flg);
      assert a + [] == a && a[|a|..] == [];
      assert Take(a, p, special, c, s).n == |a|;
    }
  }

  lemma PassRest(flg: Flags, lef: Option<Word>, rit: Option<Word>, p: nat, special: bool, c: Context, s: Scan)
    returns (r: Scan)
    requires WfNames(flg, lef, rit, c)
    requires s.l == 0 && s.lef == s.rit == None && s.e == NoError && s.flg <= {NOFORK}
    ensures r == Pass(ShowRest(flg, lef, rit), p, special, c, s)
    ensures r == s.(flg := r.flg, lef := lef, rit := rit) && SameFlags(r.flg, flg, s.flg)
  {
    PassIn(flg, lef, ShowOut(flg, rit), p, special, c, s);
    var s1 := s.(lef := lef, flg := Raise(s.flg, lef.Some? && READ in flg, READ));
    PassOut(flg, rit, p + |ShowIn(flg, lef)|, special, c, s1);
    r := Pass(ShowRest(flg, lef, rit), p, special, c, s);
    ShownFlags(s.flg, flg, lef, rit, c);
  }

  // The flags the parser sets: those it began with, and those that were shown.
  predicate SameFlags(f: Flags, flg: Flags, base: Flags) {
    f == (flg - {NOFORK} - Behind) + base
  }

  // They are those that were shown.
  lemma ShownFlags(f: Flags, flg: Flags, lef: Option<Word>, rit: Option<Word>, c: Context)
    requires WfNames(flg, lef, rit, c) && f <= {NOFORK}
    ensures var f1 := Raise(f, lef.Some? && READ in flg, READ);
      SameFlags(if rit.None? then f1 else OutFlags(f1, flg), flg, f)
  {
    forall x: Flag
      ensures x in flg - {NOFORK} - Behind <==> x in flg && (x == APPEND || x == STDERR || x == READ || x == OVERWRITE)
    {
      assert x == AMPERSAND || x == NOINTERRUPT || x == APPEND || x == NOFORK || x == STDERR || x == OVERWRITE || x == READ;
    }
  }

  // Whether a command is special does not depend on the redirections after it.
  lemma {:induction false} SpecialConcat(com: seq<Word>, ws: seq<Word>)
    requires ws != [] ==> RelPar(ws[0])
    ensures Special(com + ws) == Special(com)
  {
    if com == [] {
      assert com + ws == ws;
      assert !Special(ws) by {
        if ws != [] {
          assert forall w | w in Specials :: !RelPar(w);
        }
      }
    } else {
      SpecialConcat(com[1..], ws);
      assert (com + ws)[1..] == com[1..] + ws;
    }
  }

  // r is t, read without error where the word `after` follows.
  ghost predicate Reads(r: Parsed, t: Tree, after: Word) {
    r == Parsed(Marked(t, Closes(after)), NoError)
  }

  function Base(after: Word): Flags {
    Raise({}, Closes(after), NOFORK)
  }

  // syn3 on the words of a command and its redirections.
  lemma CommandParsed(flg: Flags, lef: Option<Word>, rit: Option<Word>, com: seq<Word>, after: Word, c: Context)
    returns (f: Flags)
    requires WfNames(flg, lef, rit, c) && com != []
    requires if Special(com) then Matched(com, 0) else AllPlain(com)
    ensures SameFlags(f, flg, Base(after))
    ensures Syn3(com + ShowRest(flg, lef, rit), after, c, NoError) == Parsed(Command(f, lef, rit, com), NoError)
  {
    var rest, special := ShowRest(flg, lef, rit), Special(com);
    CommandWhole(com, Semi);
    SpecialConcat(com, rest);
    var r := PassAll(flg, lef, rit, com, special, c, Fresh(after, NoError));
    assert [] + com == com;
    Syn3Command(com + rest, special, after, c, r);
    f := r.flg;
  }

  lemma PassAll(flg: Flags, lef: Option<Word>, rit: Option<Word>, com: seq<Word>, special: bool, c: Context, s0: Scan)
    returns (r: Scan)
    requires WfNames(flg, lef, rit, c) && Matched(com, 0) && (special || AllPlain(com))
    requires s0.l == 0 && s0.lef == s0.rit == None && s0.e == NoError && s0.flg <= {NOFORK}
    ensures r == Pass(com + ShowRest(flg, lef, rit), 0, special, c, s0)
    ensures r.com == s0.com + com && r.n == s0.n + |com| && r.e == NoError && (special || r.lp == s0.lp)
    ensures r.lef == lef && r.rit == rit && SameFlags(r.flg, flg, s0.flg)
  {
    var rest := ShowRest(flg, lef, rit);
    r := Pass(com + rest, 0, special, c, s0);
    var s := PassCommand(com, rest, 0, special, c, s0);
    PassRestIs(flg, lef, rit, |com|, special, c, s, r);
  }

  lemma PassRestIs(flg: Flags, lef: Option<Word>, rit: Option<Word>, p: nat, special: bool, c: Context, s: Scan, r: Scan)
    requires WfNames(flg, lef, rit, c)
    requires s.l == 0 && s.lef == s.rit == None && s.e == NoError && s.flg <= {NOFORK}
    requires r == Pass(ShowRest(flg, lef, rit), p, special, c, s)
    ensures r == s.(flg := r.flg, lef := lef, rit := rit) && SameFlags(r.flg, flg, s.flg)
  {
    var r' := PassRest(flg, lef, rit, p, special, c, s);
  }

  lemma Syn3Command(ws: seq<Word>, special: bool, after: Word, c: Context, s: Scan)
    requires special == Special(ws) && s == Pass(ws, 0, special, c, Fresh(after, NoError))
    requires s.n > 0 && s.e == NoError && (special || s.lp == None)
    ensures Syn3(ws, after, c, NoError) == Parsed(Command(s.flg, s.lef, s.rit, s.com), NoError)
  {
  }

  lemma ReadCommand(t: Tree, after: Word, c: Context)
    requires t.Command? && Wf3(t, c)
    ensures Reads(Syn3(Show(t), after, c, NoError), Bare(t), after)
  {
    var f := CommandParsed(t.flg, t.lef, t.rit, t.com, after, c);
    BareFlags(f, t.flg, after);
  }

  lemma BareFlags(f: Flags, flg: Flags, after: Word)
    requires SameFlags(f, flg, Base(after))
    ensures f == Raise(flg - Behind - {NOFORK}, Closes(after), NOFORK)
  {
  }

  // The second pass over a command in parentheses.
  lemma PassParen(a: seq<Word>, ws: seq<Word>, c: Context, s: Scan)
    requires Inside(a, 1) && Net(a) == 0 && s.l == 0 && s.lp == s.rp == None
    ensures Pass(["("] + a + [")"] + ws, 0, false, c, s)
         == Pass(ws, |a| + 2, false, c, s.(lp := Some(1), rp := Some(|a| + 1)))
  {
    var s1 := s.(l := 1, lp := Some(1));
    var tail := [")"] + ws;
    PassOpen(a + tail, c, s);
    PassInner(a, tail, 1, c, s1);
    PassClose(ws, 1 + |a|, c, s1);
    ParenConcat(a, ws);
  }

  lemma ParenConcat(a: seq<Word>, ws: seq<Word>)
    ensures ["("] + a + [")"] + ws == ["("] + (a + ([")"] + ws))
  {
  }

  lemma PassOpen(ws: seq<Word>, c: Context, s: Scan)
    requires s.l == 0 && s.lp == None
    ensures Pass(["("] + ws, 0, false, c, s) == Pass(ws, 1, false, c, s.(l := 1, lp := Some(1)))
  {
    var all := ["("] + ws;
    assert all[1..] == ws;
    PassOne(all, 0, false, c, s, s.(l := 1, lp := Some(1)));
  }

  lemma PassClose(ws: seq<Word>, p: nat, c: Context, s: Scan)
    requires s.l == 1
    ensures Pass([")"] + ws, p, false, c, s) == Pass(ws, p + 1, false, c, s.(l := 0, rp := Some(p)))
  {
    var all := [")"] + ws;
    assert all[1..] == ws;
    PassOne(all, p, false, c, s, s.(l := 0, rp := Some(p)));
  }

  lemma PassParenRest(flg: Flags, lef: Option<Word>, rit: Option<Word>, a: seq<Word>, c: Context, s: Scan)
    returns (r: Scan)
    requires WfNames(flg, lef, rit, c) && Nested(a)
    requires s.l == 0 && s.lp == s.rp == None && s.lef == s.rit == None && s.e == NoError && s.flg <= {NOFORK}
    ensures r == Pass(["("] + a + [")"] + ShowRest(flg, lef, rit), 0, false, c, s)
    ensures r.lp == Some(1) && r.rp == Some(|a| + 1) && r.n == s.n && r.e == NoError
    ensures r.lef == lef && r.rit == rit && SameFlags(r.flg, flg, s.flg)
  {
    var rest := ShowRest(flg, lef, rit);
    r := Pass(["("] + a + [")"] + rest, 0, false, c, s);
    PassParen(a, rest, c, s);
    PassRestIs(flg, lef, rit, |a| + 2, false, c, s.(lp := Some(1), rp := Some(|a| + 1)), r);
  }

  // syn3 on words that are one command in parentheses.
  lemma Syn3Paren(ws: seq<Word>, after: Word, c: Context, s: Scan, a: seq<Word>)
    requires |a| + 1 < |ws| && !Special(ws) && s == Pass(ws, 0, false, c, Fresh(after, NoError))
    requires s.lp == Some(1) && s.rp == Some(|a| + 1) && s.n == 0 && s.e == NoError
    requires ws[1..|a| + 1] == a && ws[|a| + 1] == ")"
    ensures var r := Syn0(a, ")", InParens, NoError);
      Syn3(ws, after, c, NoError) == Parsed(Paren(s.flg, s.lef, s.rit, r.t), r.e)
  {
  }

  lemma ParenWords(a: seq<Word>, rest: seq<Word>)
    ensures var ws := ["("] + a + [")"] + rest;
      !Special(ws) && |a| + 1 < |ws| && ws[1..|a| + 1] == a && ws[|a| + 1] == ")"
  {
    var ws := ["("] + a + [")"] + rest;
    assert RelPar(ws[0]);
    SpecialConcat([], ws);
    assert [] + ws == ws;
  }

  lemma ParenParsed(flg: Flags, lef: Option<Word>, rit: Option<Word>, a: seq<Word>, after: Word, c: Context)
    returns (f: Flags)
    requires WfNames(flg, lef, rit, c) && Nested(a)
    ensures SameFlags(f, flg, Base(after))
    ensures var r := Syn0(a, ")", InParens, NoError);
      Syn3(["("] + a + [")"] + ShowRest(flg, lef, rit), after, c, NoError) == Parsed(Paren(f, lef, rit, r.t), r.e)
  {
    var rest := ShowRest(flg, lef, rit);
    ParenWords(a, rest);
    var s := PassParenRest(flg, lef, rit, a, c, Fresh(after, NoError));
    Syn3Paren(["("] + a + [")"] + rest, after, c, s, a);
    f := s.flg;
  }

  lemma ReadParen(t: Tree, after: Word, c: Context)
    requires t.Paren? && Wf3(t, c) && Nested(Show(t.spr))
    requires Reads(Syn0(Show(t.spr), ")", InParens, NoError), t.spr, ")")
    ensures Reads(Syn3(Show(t), after, c, NoError), Bare(t), after)
  {
    var f := ParenParsed(t.flg, t.lef, t.rit, Show(t.spr), after, c);
    BareFlags(f, t.flg, after);
  }

  lemma {:induction false} Read3(t: Tree, after: Word, c: Context)
    requires Wf3(t, c)
    ensures Reads(Syn3(Show(t), after, c, NoError), Bare(t), after)
    decreases t, 0
  {
    if t.Command? {
      ReadCommand(t, after, c);
    } else {
      Shows0(t.spr, InParens);
      Read0(t.spr, ")", InParens);
      ReadParen(t, after, c);
    }
  }

  lemma CalmIsBare(t: Tree)
    requires Calm(t)
    ensures Bare(t) == t
  {
    assert t.flg - Behind == t.flg;
  }

  // How the words of a joined tree split.
  lemma SplitJoined(a: seq<Word>, w: Word, b: seq<Word>, k: Separator)
    requires Clear(a, 0, k) && Net(a) == 0 && Separates(k, w)
    ensures var ws := a + [w] + b;
      Split(ws, 0, k) == |a| && ws[..|a|] == a && ws[|a|] == w && ws[|a| + 1..] == b
  {
    SplitAt(a, w, b, 0, k);
  }

  // syn2 on two parts and the bar between them.
  lemma Syn2Joined(a: seq<Word>, both: bool, b: seq<Word>, after: Word, c: Context)
    requires Clear(a, 0, Bar) && Net(a) == 0 && b != [] && !Skipped(b[0]) && !c.perr
    ensures var bar := if both then ["|", "&"] else ["|"];
      var l := Syn3(a, "|", c.(pout := true, perr := both), NoError);
      var r := Syn2(b, after, c.(pin := true), l.e);
      Syn2(a + bar + b, after, c, NoError) == Parsed(Pipe(Raise({}, both, STDERR), l.t, r.t), r.e)
  {
    var tail := if both then ["&"] + b else b;
    var bar := if both then ["|", "&"] else ["|"];
    var ws := a + ["|"] + tail;
    SplitJoined(a, "|", tail, Bar);
    BarConcat(a, both, b, bar, tail, ws);
    Syn2At(ws, |a|, both, a, b, after, c);
  }

  lemma BarConcat(a: seq<Word>, both: bool, b: seq<Word>, bar: seq<Word>, tail: seq<Word>, ws: seq<Word>)
    requires b != [] && tail == (if both then ["&"] + b else b) && bar == (if both then ["|", "&"] else ["|"])
    requires ws == a + ["|"] + tail
    ensures ws == a + bar + b && |a| + 1 < |ws| && ws[|a| + 1] == tail[0]
    ensures both ==> |a| + 2 <= |ws| && ws[|a| + 2..] == b
  {
  }

  lemma Syn2At(ws: seq<Word>, p: nat, both: bool, a: seq<Word>, b: seq<Word>, after: Word, c: Context)
    requires p == Split(ws, 0, Bar) && p + 1 < |ws| && ws[p] == "|" && a == ws[..p] && !c.perr
    requires both == (First(ws[p + 1]) == '&') && (both ==> p + 2 <= |ws|) && b == ws[if both then p + 2 else p + 1..]
    ensures var l := Syn3(a, "|", c.(pout := true, perr := both), NoError);
      var r := Syn2(b, after, c.(pin := true), l.e);
      Syn2(ws, after, c, NoError) == Parsed(Pipe(Raise({}, both, STDERR), l.t, r.t), r.e)
  {
  }

  lemma PipeOf(t: Tree, l: Parsed, r: Parsed, after: Word)
    requires t.Pipe? && Calm(t.car) && Calm(t.cdr) && t.flg - Behind <= {STDERR}
    requires Reads(l, Bare(t.car), "|") && Reads(r, Bare(t.cdr), after)
    ensures Reads(Parsed(Pipe(Raise({}, STDERR in t.flg, STDERR), l.t, r.t), r.e), Bare(t), after)
  {
    CalmIsBare(t.car);
    CalmIsBare(t.cdr);
    assert Raise({}, STDERR in t.flg, STDERR) == t.flg - Behind;
  }

  lemma {:induction false} Read2(t: Tree, after: Word, c: Context)
    requires Wf2(t, c) && !c.perr
    ensures Reads(Syn2(Show(t), after, c, NoError), Bare(t), after)
    decreases t, 1
  {
    if t.Pipe? {
      var both := STDERR in t.flg;
      Shows3(t.car, c.(pout := true, perr := both), Bar);
      Shows2(t.cdr, c.(pin := true), Semi);
      Syn2Joined(Show(t.car), both, Show(t.cdr), after, c);
      Read3(t.car, "|", c.(pout := true, perr := both));
      Read2(t.cdr, after, c.(pin := true));
      var l := Syn3(Show(t.car), "|", c.(pout := true, perr := both), NoError);
      PipeOf(t, l, Syn2(Show(t.cdr), after, c.(pin := true), NoError), after);
    } else {
      Shows3(t, c, Bar);
      SplitNone(Show(t), 0, Bar);
      Read3(t, after, c);
    }
  }

  lemma {:induction false} Read1b(t: Tree, after: Word, c: Context)
    requires Wf1b(t, c) && !c.perr
    ensures Reads(Syn1b(Show(t), after, c, NoError), t, after)
    decreases t, 2
  {
    if t.And? {
      Shows2(t.car, c, AndAnd);
      SplitJoined(Show(t.car), "&&", Show(t.cdr), AndAnd);
      Read2(t.car, "&&", c);
      CalmIsBare(t.car);
      Read1b(t.cdr, after, c);
    } else {
      Shows2(t, c, AndAnd);
      SplitNone(Show(t), 0, AndAnd);
      Read2(t, after, c);
      CalmIsBare(t);
    }
  }

  lemma {:induction false} Read1a(t: Tree, after: Word, c: Context)
    requires Wf1a(t, c) && !c.perr
    ensures Reads(Syn1a(Show(t), after, c, NoError), t, after)
    decreases t, 3
  {
    if t.Or? {
      Shows1b(t.car, c, OrOr);
      SplitJoined(Show(t.car), "||", Show(t.cdr), OrOr);
      Read1b(t.car, "||", c);
      Read1a(t.cdr, after, c);
    } else {
      Shows1b(t, c, OrOr);
      SplitNone(Show(t), 0, OrOr);
      Read1b(t, after, c);
    }
  }

  lemma {:induction false} Read1(t: Tree, after: Word, c: Context)
    requires Wf1(t, c) && !c.perr
    ensures Reads(Syn1(Show(t), after, c, NoError), t, after)
    decreases t, 4
  {
    if t.List? && t.car.Null? {
      Shows1a(t.cdr, c);
      SplitJoined(Show(t.cdr), ";", [], Semi);
      assert Show(t.cdr) + [";"] + [] == Show(t);
      Read1a(t.cdr, ";", c);
    } else if t.List? {
      CalmList(t, c);
      Shows1a(t.car, c);
      SplitJoined(Show(t.car), ";", Show(t.cdr), Semi);
      Read1a(t.car, ";", c);
      ReadOn(t.cdr, after, c);
    } else {
      Shows1a(t, c);
      SplitNone(Show(t), 0, Semi);
      Read1a(t, after, c);
    }
  }

  // The same through syntax and syn0, for a list without ampersands.
  lemma {:induction false} ReadOn(t: Tree, after: Word, c: Context)
    requires Wf1(t, c) && !c.perr
    ensures Reads(Syntax(Show(t), after, c, NoError), t, after) && Reads(Syn0(Show(t), after, c, NoError), t, after)
    decreases t, 5
  {
    Shows1(t, c);
    QuietWalk(Show(t), 0, NoError);
    Read1(t, after, c);
  }

  // A command in the background is read up to its ampersand.
  lemma {:induction false} ReadBehind(t: Tree, c: Context)
    requires Wf2(t, c) && !c.perr
    ensures Reads(Syn1(Show(t), "&", c, NoError), Bare(t), "&")
    decreases t, 2
  {
    Shows2(t, c, Semi);
    Shows2(t, c, OrOr);
    Shows2(t, c, AndAnd);
    SplitNone(Show(t), 0, Semi);
    SplitNone(Show(t), 0, OrOr);
    SplitNone(Show(t), 0, AndAnd);
    Read2(t, "&", c);
    assert Syn1b(Show(t), "&", c, NoError) == Syn2(Show(t), "&", c, NoError);
    assert Syn1a(Show(t), "&", c, NoError) == Syn1b(Show(t), "&", c, NoError);
  }

  lemma BackgroundBare(r: Tree, t: Tree)
    requires r == Marked(Bare(t), false) && (t.Command? || t.Paren? || t.Pipe?) && Behind <= t.flg
    ensures Background(r) == Marked(t, false)
  {
    FlagsBack(t.flg);
  }

  lemma FlagsBack(flg: Flags)
    requires Behind <= flg
    ensures Backgrounded(flg - Behind - {NOFORK}) == flg - {NOFORK} && Backgrounded(flg - Behind) == flg
  {
    forall x: Flag ensures x in Backgrounded(flg - Behind) <==> x in flg {
      assert x in Behind <==> x == AMPERSAND || x == NOINTERRUPT;
    }
    forall x: Flag ensures x in Backgrounded(flg - Behind - {NOFORK}) <==> x in flg - {NOFORK} {
      assert x in Behind <==> x == AMPERSAND || x == NOINTERRUPT;
    }
  }

  // syn0 on a part in the background and what follows.
  lemma Syn0Behind(a: seq<Word>, b: seq<Word>, after: Word, c: Context)
    requires Whole(a)
    ensures var l := Syn1(a, "&", c, NoError);
      var r := Syntax(b, after, c, l.e);
      Syn0(a + ["&"] + b, after, c, NoError) == Parsed(List({}, Background(l.t), r.t), r.e)
  {
    var tail := ["&"] + b;
    var ws := a + tail;
    QuietStops(a, tail, ws, 0, NoError);
    assert a + ["&"] + b == ws && ws[..|a|] == a && ws[|a|] == "&" && ws[|a|..] == tail;
    Syn0At(ws, |a|, after, c);
    var l := Syn1(a, "&", c, NoError);
    SyntaxSkips("&", b, after, c, l.e);
  }

  lemma Syn0At(ws: seq<Word>, p: nat, after: Word, c: Context)
    requires p < |ws| && WalkAmp(ws, 0, NoError) == Walk(p, 0, NoError)
    ensures var l := Syn1(ws[..p], ws[p], c, NoError);
      var r := Syntax(ws[p..], after, c, l.e);
      Syn0(ws, after, c, NoError) == Parsed(List({}, Background(l.t), r.t), r.e)
  {
  }

  lemma SyntaxSkips(w: Word, b: seq<Word>, after: Word, c: Context, e: Error)
    requires Skipped(w)
    ensures Syntax([w] + b, after, c, e) == Syntax(b, after, c, e)
  {
    assert ([w] + b)[1..] == b;
  }

  lemma {:induction false} Read0(t: Tree, after: Word, c: Context)
    requires Wf0(t, c) && !c.perr
    ensures Reads(Syn0(Show(t), after, c, NoError), t, after)
    decreases t, 6
  {
    if t.List? && InBackground(t.car) {
      Shows2(t.car, c, Semi);
      ReadBehind(t.car, c);
      var l := Syn1(Show(t.car), "&", c, NoError);
      assert t.car.Pipe? || Wf3(t.car, c);
      assert forall x | x in Behind :: x in t.car.flg;
      BackgroundBare(l.t, t.car);
      if !t.cdr.Null? {
        Shows0(t.cdr, c);
        Read0(t.cdr, after, c);
      }
      Syn0Behind(Show(t.car), Show(t.cdr), after, c);
    } else {
      ReadOn(t, after, c);
    }
  }

  // ----- lists in the background -----

  // An `&` after a list, an `&&` or an `||` takes the whole of it, as if it stood in
  // parentheses; whatever follows is read as it would be alone.
  lemma GroupBehind(t: Tree, more: seq<Word>, after: Word, c: Context)
    requires Wf1(t, c) && !c.perr && (t.List? || t.And? || t.Or?)
    ensures var r := Syntax(Show(t) + ["&"] + more, after, c, NoError);
      var m := Syntax(more, after, c, NoError);
      r == Syn0(Show(t) + ["&"] + more, after, c, NoError) &&
      r == Parsed(List({}, Paren({AMPERSAND, NOINTERRUPT}, None, None, Marked(t, false)), m.t), m.e)
  {
    var a := Show(t);
    var ws := a + ["&"] + more;
    Shows1(t, c);
    assert ws[0] == a[0];
    Read1(t, "&", c);
    Syn0Behind(a, more, after, c);
    Grouped(t);
  }

  lemma Grouped(t: Tree)
    requires t.List? || t.And? || t.Or?
    ensures Background(Marked(t, false)) == Paren({AMPERSAND, NOINTERRUPT}, None, None, Marked(t, false))
  {
    assert Backgrounded({}) == {AMPERSAND, NOINTERRUPT};
  }

  // So such a list, and a tree after it or nothing, are read back as one list.
  lemma GroupRoundTrip(t: Tree, m: Tree, after: Word, c: Context)
    requires Wf1(t, c) && !c.perr && (t.List? || t.And? || t.Or?) && (m.Null? || Wf0(m, c))
    ensures Syntax(Show(t) + ["&"] + Show(m), after, c, NoError)
      == Parsed(List({}, Paren({AMPERSAND, NOINTERRUPT}, None, None, Marked(t, false)), Marked(m, Closes(after))), NoError)
  {
    GroupBehind(t, Show(m), after, c);
    if !m.Null? {
      Shows0(m, c);
      Read0(m, after, c);
    }
  }

  // ----- the round trips -----

  // Every well-formed tree, written out in full, is read back.
  lemma ShowRoundTrip(t: Tree, after: Word)
    requires Wf0(t, TopLevel)
    ensures Syntax(Show(t), after, TopLevel, NoError) == Parsed(Marked(t, Closes(after)), NoError)
  {
    Shows0(t, TopLevel);
    Read0(t, after, TopLevel);
  }

  // So is every well-formed tree that padd prints in full.
  lemma RoundTrip(t: Tree, after: Word)
    requires Wf0(t, TopLevel) && Printable(t)
    ensures Syntax(Print(t), after, TopLevel, NoError) == Parsed(Marked(t, Closes(after)), NoError)
  {
    PrintIsShow(t);
    ShowRoundTrip(t, after);
  }
}
