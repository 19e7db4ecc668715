/**
 * csh's command parser: recursive descent over a list of words, splitting at the first
 * separator outside parentheses.
 */
module Parse {
  import opened Common

  datatype Flag = AMPERSAND | NOINTERRUPT | APPEND | NOFORK | STDERR | OVERWRITE | READ

  type Flags = set<Flag>

  datatype Tree =
    | Null
    | Command(flg: Flags, lef: Option<Word>, rit: Option<Word>, com: seq<Word>)
    | Paren(flg: Flags, lef: Option<Word>, rit: Option<Word>, spr: Tree)
    | Pipe(flg: Flags, car: Tree, cdr: Tree)
    | List(flg: Flags, car: Tree, cdr: Tree)
    | Or(flg: Flags, car: Tree, cdr: Tree)
    | And(flg: Flags, car: Tree, cdr: Tree)

  // What seterr can hold.  OffList is no message: it stands for a walk that leaves the
  // words it was given and goes round the list of words.
  datatype Error =
    | NoError
    | TooManyRp
    | TooManyLp
    | BadPlp
    | BadPlps
    | NullCommand
    | MissingName
    | AmbiguousOut
    | AmbiguousIn
    | HereInParens
    | OffList

  // The first error stays.
  function SetError(e: Error, id: Error): Error {
    if e == NoError then id else e
  }

  datatype Parsed = Parsed(t: Tree, e: Error)

  // PHERE, PIN, POUT and PERR.
  datatype Context = Context(here: bool, pin: bool, pout: bool, perr: bool)

  const TopLevel := Context(false, false, false, false)
  const InParens := Context(true, false, false, false)

  // ----- words -----

  function First(w: Word): char {
    if w == "" then '\0' else w[0]
  }

  function Second(w: Word): char {
    if |w| < 2 then '\0' else w[1]
  }

  predicate Opens(w: Word) { First(w) == '(' }
  predicate Closes(w: Word) { First(w) == ')' }
  predicate IsAnd(w: Word) { |w| == 1 && w[0] == '&' }
  predicate IsBang(w: Word) { |w| == 1 && w[0] == '!' }
  predicate Redirects(w: Word) { First(w) == '<' || First(w) == '>' }
  predicate RelPar(w: Word) { Opens(w) || Closes(w) || Redirects(w) }

  predicate Skipped(w: Word) { First(w) == ';' || First(w) == '&' || First(w) == '\n' }

  // How a word changes the depth of parentheses.
  function Delta(w: Word): int {
    if Opens(w) then 1 else if Closes(w) then -1 else 0
  }

  function Net(ws: seq<Word>): int {
    if ws == [] then 0 else Delta(ws[0]) + Net(ws[1..])
  }

  datatype Separator = Semi | OrOr | AndAnd | Bar

  predicate Separates(k: Separator, w: Word) {
    match k
    case Semi => First(w) == ';' || First(w) == '\n'
    case OrOr => First(w) == '|' && Second(w) == '|'
    case AndAnd => First(w) == '&' && Second(w) == '&'
    case Bar => First(w) == '|'
  }

  // The first separator outside parentheses, where the walk starts at depth l.
  function Split(ws: seq<Word>, l: int, k: Separator): (p: nat)
    ensures p <= |ws| && (p < |ws| ==> Separates(k, ws[p]))
  {
    if ws == [] then 0
    else if l == 0 && Separates(k, ws[0]) then 0
    else 1 + Split(ws[1..], l + Delta(ws[0]), k)
  }

  // ----- the parser -----

  predicate Ampersand(ws: seq<Word>, p: nat) {
    p < |ws| && IsAnd(ws[p])
  }

  // syn0's walk: where it stops for an ampersand (or at the end), at which depth, and
  // with which error.
  datatype Walk = Walk(p: nat, l: int, e: Error)

  // An ampersand that ends a command.
  predicate Backgrounds(w: Word) {
    First(w) == '&' && Second(w) != '&'
  }

  // One word, or two where an ampersand belongs to the pipe or redirection before it.
  function Stride(ws: seq<Word>): (n: nat)
    requires ws != []
    ensures 1 <= n <= |ws| && n <= 2 && (n == 2 ==> Delta(ws[0]) == Delta(ws[1]) == 0 && IsAnd(ws[1]))
  {
    if ((First(ws[0]) == '|' && Second(ws[0]) != '|') || First(ws[0]) == '>') && Ampersand(ws, 1) then 2 else 1
  }

  function WalkAmp(ws: seq<Word>, l: int, e: Error): (r: Walk)
    ensures r.p <= |ws| && (r.p < |ws| ==> First(ws[r.p]) == '&')
    decreases |ws|
  {
    if ws == [] then Walk(0, l, e)
    else if l == 0 && Backgrounds(ws[0]) then Walk(0, l, e)
    else
      var n := Stride(ws);
      var l' := l + Delta(ws[0]);
      var e' := if Closes(ws[0]) && l' < 0 then SetError(e, TooManyRp) else e;
      var r := WalkAmp(ws[n..], l', e');
      r.(p := r.p + n)
  }

  // One step of the walk: the depth and the error after it.
  function Deeper(w: Word, l: int, e: Error): (int, Error) {
    var l' := l + Delta(w);
    (l', if Closes(w) && l' < 0 then SetError(e, TooManyRp) else e)
  }

  lemma WalkStep(ws: seq<Word>, l: int, e: Error)
    requires ws != [] && !(l == 0 && Backgrounds(ws[0]))
    ensures var (l', e') := Deeper(ws[0], l, e);
      var r := WalkAmp(ws[Stride(ws)..], l', e');
      WalkAmp(ws, l, e) == Walk(r.p + Stride(ws), r.l, r.e)
  {
  }

  function Syntax(ws: seq<Word>, after: Word, c: Context, e: Error): Parsed
    decreases |ws|, if ws != [] && Skipped(ws[0]) then 0 else 7
  {
    if ws == [] then Parsed(Null, e)
    else if Skipped(ws[0]) then Syntax(ws[1..], after, c, e)
    else Syn0(ws, after, c, e)
  }

  function Backgrounded(f: Flags): Flags {
    f + {AMPERSAND, NOINTERRUPT}
  }

  // A command or list put in the background.
  function Background(t: Tree): Tree {
    match t
    case Null => t
    case Command(f, lef, rit, com) => Command(Backgrounded(f), lef, rit, com)
    case Paren(f, lef, rit, spr) => Paren(Backgrounded(f), lef, rit, spr)
    case Pipe(f, car, cdr) => Pipe(Backgrounded(f), car, cdr)
    case _ => Paren(Backgrounded({}), None, None, t)
  }

  function Syn0(ws: seq<Word>, after: Word, c: Context, e: Error): Parsed
    decreases |ws|, 6
  {
    var w := WalkAmp(ws, 0, e);
    if w.p < |ws| then
      var a := Syn1(ws[..w.p], ws[w.p], c, w.e);
      var b := Syntax(ws[w.p..], after, c, a.e);
      Parsed(List({}, Background(a.t), b.t), b.e)
    else if w.l == 0 then Syn1(ws, after, c, w.e)
    else Parsed(Null, SetError(w.e, TooManyLp))
  }

  function Syn1(ws: seq<Word>, after: Word, c: Context, e: Error): Parsed
    decreases |ws|, 5
  {
    var p := Split(ws, 0, Semi);
    if p < |ws| then
      var a := Syn1a(ws[..p], ws[p], c, e);
      var b := Syntax(ws[p + 1..], after, c, a.e);
      Parsed(if b.t.Null? then List({}, Null, a.t) else List({}, a.t, b.t), b.e)
    else Syn1a(ws, after, c, e)
  }

  function Syn1a(ws: seq<Word>, after: Word, c: Context, e: Error): Parsed
    decreases |ws|, 4
  {
    var p := Split(ws, 0, OrOr);
    if p < |ws| then
      var a := Syn1b(ws[..p], ws[p], c, e);
      var b := Syn1a(ws[p + 1..], after, c, a.e);
      Parsed(Or({}, a.t, b.t), b.e)
    else Syn1b(ws, after, c, e)
  }

  function Syn1b(ws: seq<Word>, after: Word, c: Context, e: Error): Parsed
    decreases |ws|, 3
  {
    var p := Split(ws, 0, AndAnd);
    if p < |ws| then
      var a := Syn2(ws[..p], ws[p], c, e);
      var b := Syn1b(ws[p + 1..], after, c, a.e);
      Parsed(And({}, a.t, b.t), b.e)
    else Syn2(ws, after, c, e)
  }

  function Syn2(ws: seq<Word>, after: Word, c: Context, e: Error): Parsed
    decreases |ws|, 2
  {
    var p := Split(ws, 0, Bar);
    if p < |ws| then
      var both := p + 1 < |ws| && First(ws[p + 1]) == '&';
      var a := Syn3(ws[..p], ws[p], c.(pout := true, perr := c.perr || both), e);
      var b := Syn2(ws[if both then p + 2 else p + 1..], after, c.(pin := true), a.e);
      Parsed(Pipe(Raise({}, both, STDERR), a.t, b.t), b.e)
    else Syn3(ws, after, c, e)
  }

  // ----- commands -----

  const Specials: set<Word> := {"@", "exit", "foreach", "if", "set", "switch", "while"}

  // The command is one whose words may hold parentheses.
  predicate Special(ws: seq<Word>) {
    ws != [] && (ws[0] in Specials || (ws[0] == "else" && Special(ws[1..])))
  }

  // The first pass: how many slots the words need.
  function Slots(ws: seq<Word>, l: int, special: bool): int {
    if ws == [] then 0
    else
      (if Opens(ws[0]) || Closes(ws[0]) then if special then 1 else 0
       else if Redirects(ws[0]) then
         if l != 0 then if special then 1 else 0
         else if |ws| == 1 || RelPar(ws[1]) then 0 else -1
       else if l != 0 && !special then 0 else 1)
      + Slots(ws[1..], l + Delta(ws[0]), special)
  }

  // The state of the second pass: the depth, the places of the outermost parentheses,
  // what the node will hold, and the error.
  datatype Scan = Scan(
    l: int, lp: Option<nat>, rp: Option<nat>, flg: Flags, lef: Option<Word>, rit: Option<Word>,
    com: seq<Word>, n: nat, e: Error)

  function Fail(s: Scan, id: Error): Scan {
    s.(e := SetError(s.e, id))
  }

  // A word of the command; once there is an error it is only counted.
  function Store(s: Scan, w: Word): Scan {
    s.(com := if s.e == NoError then s.com + [w] else s.com, n := s.n + 1)
  }

  function Save(s: Scan, w: Word, special: bool): Scan {
    if special then Store(s, w) else s
  }

  // What a redirection leaves: the flags, the name, the error, and how many words it took.
  datatype Redirect = Redirect(flg: Flags, name: Option<Word>, e: Error, n: nat)

  function Raise(f: Flags, on: bool, x: Flag): Flags {
    if on then f + {x} else f
  }

  // `>` or `>>`, then `&` and `!` perhaps, then a name.
  function TakeOut(ws: seq<Word>, c: Context, flg: Flags, rit: Option<Word>, e: Error): (r: Redirect)
    requires ws != []
    ensures 1 <= r.n <= |ws|
  {
    var amp := Ampersand(ws, 1);
    var f := Raise(Raise(flg, Second(ws[0]) == '>', APPEND), amp, STDERR);
    if amp && (c.pout || c.perr) then Redirect(f, rit, SetError(e, AmbiguousOut), 2)
    else TakeName(ws, if amp then 2 else 1, c, f, rit, e)
  }

  // The rest of it, from place i on.
  function TakeName(ws: seq<Word>, i: nat, c: Context, flg: Flags, rit: Option<Word>, e: Error): (r: Redirect)
    requires 1 <= i <= |ws|
    ensures 1 <= r.n <= |ws|
  {
    var bang := i < |ws| && IsBang(ws[i]);
    var f := Raise(flg, bang, OVERWRITE);
    var j := if bang then i + 1 else i;
    if j == |ws| then Redirect(f, rit, SetError(e, MissingName), j)
    else if RelPar(ws[j]) then Redirect(f, rit, SetError(e, MissingName), j + 1)
    else if c.pout && (!c.perr || rit.Some?) then Redirect(f, rit, SetError(e, AmbiguousOut), j + 1)
    else Redirect(f, Some(ws[j]), e, j + 1)
  }

  // `<` or `<<`, then a name.
  function TakeIn(ws: seq<Word>, c: Context, flg: Flags, lef: Option<Word>, e: Error): (r: Redirect)
    requires ws != []
    ensures 1 <= r.n <= |ws|
  {
    var f := Raise(flg, Second(ws[0]) == '<', READ);
    if |ws| == 1 then Redirect(f, lef, SetError(e, MissingName), 1)
    else if RelPar(ws[1]) then Redirect(f, lef, SetError(e, MissingName), 2)
    else if c.here && READ in f then Redirect(f, lef, SetError(e, HereInParens), 2)
    else if c.pin || lef.Some? then Redirect(f, lef, SetError(e, AmbiguousIn), 2)
    else Redirect(f, Some(ws[1]), e, 2)
  }

  datatype Taken = Taken(s: Scan, n: nat)

  // One turn of the second pass, for the words from place p on.
  function Take(ws: seq<Word>, p: nat, special: bool, c: Context, s: Scan): (r: Taken)
    requires ws != []
    ensures 1 <= r.n <= |ws|
  {
    var w := ws[0];
    if Opens(w) then
      var s1 := if s.l != 0 then s
                else (if s.lp.Some? && !special then Fail(s, BadPlp) else s).(lp := Some(p + 1));
      Taken(Save(s1.(l := s.l + 1), w, special), 1)
    else if Closes(w) then
      Taken(Save(s.(l := s.l - 1, rp := if s.l == 1 then Some(p) else s.rp), w, special), 1)
    else if First(w) == '>' && s.l == 0 then
      var r := TakeOut(ws, c, s.flg, s.rit, s.e);
      Taken(s.(flg := r.flg, rit := r.name, e := r.e), r.n)
    else if First(w) == '<' && s.l == 0 then
      var r := TakeIn(ws, c, s.flg, s.lef, s.e);
      Taken(s.(flg := r.flg, lef := r.name, e := r.e), r.n)
    else if s.l != 0 then Taken(Save(s, w, special), 1)
    else Taken(Store(s, w), 1)
  }

  // The second pass.
  function Pass(ws: seq<Word>, p: nat, special: bool, c: Context, s: Scan): Scan
    decreases |ws|
  {
    if ws == [] then s
    else
      var r := Take(ws, p, special, c, s);
      Pass(ws[r.n..], p + r.n, special, c, r.s)
  }

  function Fresh(after: Word, e: Error): Scan {
    Scan(0, None, None, Raise({}, Closes(after), NOFORK), None, None, [], 0, e)
  }

  function Syn3(ws: seq<Word>, after: Word, c: Context, e: Error): Parsed
    decreases |ws|, 1
  {
    var special := Special(ws);
    var s := Pass(ws, 0, special, c, Fresh(after, e));
    if s.lp.Some? && !special then
      var s1 := if s.n != 0 then Fail(s, BadPlps) else s;
      if s.rp.Some? && 0 < s.lp.value <= s.rp.value < |ws| then
        var r := Syn0(ws[s.lp.value..s.rp.value], ws[s.rp.value], InParens, s1.e);
        Parsed(Paren(s.flg, s.lef, s.rit, r.t), r.e)
      else Parsed(Paren(s.flg, s.lef, s.rit, Null), OffList)
    else Parsed(Command(s.flg, s.lef, s.rit, s.com), if s.n == 0 then SetError(s.e, NullCommand) else s.e)
  }

  // ----- the two passes over one array of slots -----

  lemma {:induction false} SlotsNatural(ws: seq<Word>, l: int, special: bool)
    ensures Slots(ws, l, special) >= 0
    decreases |ws|
  {
    if ws != [] {
      SlotsNatural(ws[1..], l + Delta(ws[0]), special);
      if |ws| > 1 {
        SlotsNatural(ws[2..], l + Delta(ws[0]) + Delta(ws[1]), special);
        assert ws[1..][0] == ws[1] && ws[1..][1..] == ws[2..];
      }
    }
  }

  // n words that are no operators and no parentheses take n slots.
  lemma {:induction false} SlotsPlain(ws: seq<Word>, n: nat, special: bool)
    requires n <= |ws| && forall i | 0 <= i < n :: !RelPar(ws[i])
    ensures Slots(ws, 0, special) == n + Slots(ws[n..], 0, special)
  {
    if n > 0 {
      SlotsPlain(ws[1..], n - 1, special);
      assert ws[1..][n - 1..] == ws[n..];
    }
  }

  // A redirection that is in order takes names and marks after the operator.
  lemma OutWords(ws: seq<Word>, c: Context, flg: Flags, rit: Option<Word>, e: Error)
    requires ws != [] && TakeOut(ws, c, flg, rit, e).e == NoError
    ensures var r := TakeOut(ws, c, flg, rit, e);
      e == NoError && r.n >= 2 && forall i | 1 <= i < r.n :: !RelPar(ws[i])
  {
  }

  // As long as there is no error, what a turn stores is within what the first pass
  // counted for the words it takes.
  lemma TakeSlots(ws: seq<Word>, p: nat, special: bool, c: Context, s: Scan)
    requires ws != [] && Take(ws, p, special, c, s).s.e == NoError
    ensures var r := Take(ws, p, special, c, s);
      s.e == NoError && |r.s.com| - |s.com| == r.s.n - s.n &&
      r.s.n + Slots(ws[r.n..], r.s.l, special) <= s.n + Slots(ws, s.l, special)
  {
    if Redirects(ws[0]) && s.l == 0 {
      var r := Take(ws, p, special, c, s);
      if First(ws[0]) == '>' {
        OutWords(ws, c, s.flg, s.rit, s.e);
      }
      RedirectSlots(ws, r.n, special);
    }
  }

  // The names and marks of a redirection make up for the slot its operator takes off.
  lemma RedirectSlots(ws: seq<Word>, n: nat, special: bool)
    requires 2 <= n <= |ws| && Redirects(ws[0]) && forall i | 1 <= i < n :: !RelPar(ws[i])
    ensures Slots(ws[n..], 0, special) <= Slots(ws, 0, special)
  {
    assert forall i | 0 <= i < n - 1 :: ws[1..][i] == ws[i + 1];
    SlotsPlain(ws[1..], n - 1, special);
    assert ws[1..][n - 1..] == ws[n..];
  }

  // `else` may come before the word that tells.
  method IsSpecial(ws: seq<Word>) returns (special: bool)
    ensures special == Special(ws)
  {
    var p := 0;
    while p < |ws| && ws[p] == "else"
      invariant 0 <= p <= |ws| && Special(ws) == Special(ws[p..])
    {
      assert ws[p..][1..] == ws[p + 1..];
      p := p + 1;
    }
    special := p < |ws| && ws[p] in Specials;
  }

  method CountSlots(ws: seq<Word>, special: bool) returns (n: nat)
    ensures n == Slots(ws, 0, special)
  {
    var m, l, p := 0, 0, 0;
    while p < |ws|
      invariant 0 <= p <= |ws| && Slots(ws, 0, special) == m + Slots(ws[p..], l, special)
    {
      assert ws[p..][1..] == ws[p + 1..];
      var w := ws[p];
      if Opens(w) {
        m := if special then m + 1 else m;
        l := l + 1;
      } else if Closes(w) {
        m := if special then m + 1 else m;
        l := l - 1;
      } else if Redirects(w) {
        if l != 0 {
          m := if special then m + 1 else m;
        } else if p + 1 < |ws| && !RelPar(ws[p + 1]) {
          m := m - 1;
        }
      } else if special || l == 0 {
        m := m + 1;
      }
      p := p + 1;
    }
    SlotsNatural(ws, 0, special);
    n := m;
  }

  // The words of a command: the slots up to the first empty one.
  method TakeWords(av: array<Option<Word>>, ghost com: seq<Word>) returns (words: seq<Word>)
    requires |com| < av.Length && av[|com|] == None && forall i | 0 <= i < |com| :: av[i] == Some(com[i])
    ensures words == com
  {
    words := [];
    var i := 0;
    while av[i].Some?
      invariant 0 <= i <= |com| && words == com[..i]
      decreases |com| - i
    {
      words := words + [av[i].value];
      i := i + 1;
    }
  }

  // The redirections; p ends at the last word they take.
  method OutName(ws: seq<Word>, p0: nat, c: Context, flg0: Flags, rit0: Option<Word>, e0: Error)
    returns (p: nat, flg: Flags, rit: Option<Word>, e: Error)
    requires p0 < |ws|
    ensures p >= p0 && Redirect(flg, rit, e, p + 1 - p0) == TakeOut(ws[p0..], c, flg0, rit0, e0)
  {
    p, flg, rit, e := p0, flg0, rit0, e0;
    if Second(ws[p]) == '>' {
      flg := flg + {APPEND};
    }
    if p + 1 < |ws| && IsAnd(ws[p + 1]) {
      flg := flg + {STDERR};
      p := p + 1;
      if c.pout || c.perr {
        e := SetError(e, AmbiguousOut);
        return;
      }
    }
    p, flg, rit, e := NameAfter(ws, p0, p, c, flg, rit, e);
  }

  method NameAfter(ws: seq<Word>, p0: nat, p1: nat, c: Context, flg0: Flags, rit0: Option<Word>, e0: Error)
    returns (p: nat, flg: Flags, rit: Option<Word>, e: Error)
    requires p0 <= p1 < |ws|
    ensures p >= p0 && Redirect(flg, rit, e, p + 1 - p0) == TakeName(ws[p0..], p1 + 1 - p0, c, flg0, rit0, e0)
  {
    p, flg, rit, e := p1, flg0, rit0, e0;
    if p + 1 < |ws| && IsBang(ws[p + 1]) {
      flg := flg + {OVERWRITE};
      p := p + 1;
    }
    if p + 1 == |ws| {
      e := SetError(e, MissingName);
      return;
    }
    p := p + 1;
    if RelPar(ws[p]) {
      e := SetError(e, MissingName);
    } else if c.pout && (!c.perr || rit.Some?) {
      e := SetError(e, AmbiguousOut);
    } else {
      rit := Some(ws[p]);
    }
  }

  method InName(ws: seq<Word>, p0: nat, c: Context, flg0: Flags, lef0: Option<Word>, e0: Error)
    returns (p: nat, flg: Flags, lef: Option<Word>, e: Error)
    requires p0 < |ws|
    ensures p >= p0 && Redirect(flg, lef, e, p + 1 - p0) == TakeIn(ws[p0..], c, flg0, lef0, e0)
  {
    p, flg, lef, e := p0, flg0, lef0, e0;
    if Second(ws[p]) == '<' {
      flg := flg + {READ};
    }
    if p + 1 == |ws| {
      e := SetError(e, MissingName);
      return;
    }
    p := p + 1;
    if RelPar(ws[p]) {
      e := SetError(e, MissingName);
    } else if c.here && READ in flg {
      e := SetError(e, HereInParens);
    } else if c.pin || lef.Some? {
      e := SetError(e, AmbiguousIn);
    } else {
      lef := Some(ws[p]);
    }
  }

  // Before place p the slots still suffice.
  ghost predicate Enough(ws: seq<Word>, p: nat, special: bool, s: Scan, slots: nat) {
    p <= |ws| && |s.com| <= slots &&
    (s.e == NoError ==> s.n == |s.com| && s.n + Slots(ws[p..], s.l, special) <= slots)
  }

  lemma NextEnough(ws: seq<Word>, p: nat, special: bool, c: Context, s: Scan, slots: nat)
    requires p < |ws| && Enough(ws, p, special, s, slots)
    ensures var r := Take(ws[p..], p, special, c, s); Enough(ws, p + r.n, special, r.s, slots)
  {
    var rest := ws[p..];
    var r := Take(rest, p, special, c, s);
    assert rest[r.n..] == ws[p + r.n..];
    if r.s.e == NoError {
      TakeSlots(rest, p, special, c, s);
      SlotsNatural(rest[r.n..], r.s.l, special);
    } else {
      TakeFails(rest, p, special, c, s);
    }
  }

  // From place p the second pass ends in goal.
  ghost predicate Leads(ws: seq<Word>, p: nat, special: bool, c: Context, s: Scan, goal: Scan) {
    p <= |ws| && Pass(ws[p..], p, special, c, s) == goal
  }

  lemma NextPass(ws: seq<Word>, p: nat, special: bool, c: Context, s: Scan, goal: Scan)
    requires p < |ws| && Leads(ws, p, special, c, s, goal)
    ensures var r := Take(ws[p..], p, special, c, s); Leads(ws, p + r.n, special, c, r.s, goal)
  {
    var r := Take(ws[p..], p, special, c, s);
    assert ws[p..][r.n..] == ws[p + r.n..];
  }

  // After an error nothing more is stored.
  lemma TakeFails(ws: seq<Word>, p: nat, special: bool, c: Context, s: Scan)
    requires ws != [] && Take(ws, p, special, c, s).s.e != NoError
    ensures Take(ws, p, special, c, s).s.com == s.com
  {
  }

  // The slots hold the words stored so far, and nothing after them.
  ghost predicate Holds(av: array<Option<Word>>, com: seq<Word>)
    reads av
  {
    |com| < av.Length && (forall i | 0 <= i < |com| :: av[i] == Some(com[i])) &&
    forall i | |com| <= i < av.Length :: av[i] == None
  }

  // `av[n] = word`, unless there is an error; the slot is there.
  method StoreWord(av: array<Option<Word>>, s: Scan, w: Word) returns (r: Scan)
    requires Holds(av, s.com) && (s.e == NoError ==> s.n == |s.com| && s.n + 1 < av.Length)
    modifies av
    ensures r == Store(s, w) && Holds(av, r.com)
  {
    if s.e == NoError {
      av[s.n] := Some(w);
    }
    r := Store(s, w);
  }

  // A turn that is no redirection: the new depth and places, and whether to store.
  method Depth(w: Word, p: nat, special: bool, s: Scan) returns (r: Scan, save: bool)
    requires !(Redirects(w) && s.l == 0)
    ensures forall ws, c | ws != [] && ws[0] == w ::
      Take(ws, p, special, c, s) == Taken(if save then Store(r, w) else r, 1)
    ensures r.e == NoError ==> s.e == NoError
    ensures r.com == s.com && r.n == s.n
  {
    r := s;
    save := special;
    if Opens(w) {
      if r.l == 0 {
        if r.lp.Some? && !special {
          r := Fail(r, BadPlp);
        }
        r := r.(lp := Some(p + 1));
      }
      r := r.(l := r.l + 1);
    } else if Closes(w) {
      r := r.(l := r.l - 1);
      if r.l == 0 {
        r := r.(rp := Some(p));
      }
    } else if r.l == 0 {
      save := true;
    }
  }

  method Turn(ws: seq<Word>, p0: nat, special: bool, c: Context, s0: Scan, av: array<Option<Word>>)
    returns (p: nat, s: Scan)
    requires p0 < |ws| && av.Length > 0 && Enough(ws, p0, special, s0, av.Length - 1) && Holds(av, s0.com)
    modifies av
    ensures p0 < p <= |ws| && Taken(s, p - p0) == Take(ws[p0..], p0, special, c, s0)
    ensures Enough(ws, p, special, s, av.Length - 1) && Holds(av, s.com)
  {
    NextEnough(ws, p0, special, c, s0, av.Length - 1);
    p, s := p0, s0;
    if Redirects(ws[p]) && s.l == 0 {
      if First(ws[p]) == '>' {
        var flg, rit, e;
        p, flg, rit, e := OutName(ws, p, c, s.flg, s.rit, s.e);
        s := s.(flg := flg, rit := rit, e := e);
      } else {
        var flg, lef, e;
        p, flg, lef, e := InName(ws, p, c, s.flg, s.lef, s.e);
        s := s.(flg := flg, lef := lef, e := e);
      }
    } else {
      var save;
      s, save := Depth(ws[p], p, special, s);
      if save {
        s := StoreWord(av, s, ws[p]);
      }
    }
    p := p + 1;
  }

  // What every turn of the second pass keeps.
  ghost predicate Passing(ws: seq<Word>, p: nat, special: bool, c: Context, s: Scan, av: array<Option<Word>>, goal: Scan)
    reads av
  {
    av.Length > 0 && Holds(av, s.com) && Enough(ws, p, special, s, av.Length - 1) &&
    Leads(ws, p, special, c, s, goal)
  }

  method NextTurn(ws: seq<Word>, p0: nat, special: bool, c: Context, s0: Scan, av: array<Option<Word>>, ghost goal: Scan)
    returns (p: nat, s: Scan)
    requires p0 < |ws| && Passing(ws, p0, special, c, s0, av, goal)
    modifies av
    ensures p0 < p && Passing(ws, p, special, c, s, av, goal) == true
  {
    NextPass(ws, p0, special, c, s0, goal);
    p, s := Turn(ws, p0, special, c, s0, av);
  }

  method SecondPass(ws: seq<Word>, special: bool, c: Context, s0: Scan, av: array<Option<Word>>, ghost goal: Scan)
    returns (s: Scan)
    requires Passing(ws, 0, special, c, s0, av, goal)
    modifies av
    ensures s == goal && Holds(av, s.com)
  {
    s := s0;
    var p := 0;
    while p < |ws|
      invariant p <= |ws| && Passing(ws, p, special, c, s, av, goal) == true
    {
      p, s := NextTurn(ws, p, special, c, s, av, goal);
    }
    assert Leads(ws, p, special, c, s, goal);
  }

  // syn3's two passes.  The array has a slot for every word the second pass stores and
  // one more, so that the words end at an empty slot.
  method ScanCommand(ws: seq<Word>, after: Word, c: Context, seterr: Error) returns (special: bool, s: Scan)
    ensures special == Special(ws) && s == Pass(ws, 0, special, c, Fresh(after, seterr))
  {
    special := IsSpecial(ws);
    var slots := CountSlots(ws, special);
    var av := new Option<Word>[slots + 1](_ => None);
    s := Fresh(after, seterr);
    assert ws[0..] == ws;
    s := SecondPass(ws, special, c, s, av, Pass(ws, 0, special, c, s));
    var words := TakeWords(av, s.com);
    s := s.(com := words);
  }

  // However the words come and whatever goes wrong, no more words are stored than the
  // first pass counted.
  lemma {:induction false} StoredWithin(ws: seq<Word>, p: nat, special: bool, c: Context, s: Scan, slots: nat)
    requires Enough(ws, p, special, s, slots)
    ensures |Pass(ws[p..], p, special, c, s).com| <= slots
    decreases |ws| - p
  {
    if p < |ws| {
      var r := Take(ws[p..], p, special, c, s);
      NextEnough(ws, p, special, c, s, slots);
      NextPass(ws, p, special, c, s, Pass(ws[p..], p, special, c, s));
      StoredWithin(ws, p + r.n, special, c, r.s, slots);
    }
  }

  lemma SlotsSuffice(ws: seq<Word>, special: bool, c: Context, after: Word, e: Error)
    ensures |Pass(ws, 0, special, c, Fresh(after, e)).com| <= Slots(ws, 0, special)
  {
    SlotsNatural(ws, 0, special);
    assert ws[0..] == ws;
    StoredWithin(ws, 0, special, c, Fresh(after, e), Slots(ws, 0, special));
  }
}
