/**
 * The trees of csh's expressions: right-associative operators with their precedence, tied to
 * the words they are written with.  Words have one such tree, and the evaluator computes its
 * value.
 */
module ExprTree {
  import opened Common
  import opened Number
  import opened Expr

  // ----- words and levels -----

  function OperatorWords(op: Operator): seq<Word> {
    match op
    case Disjoin => ["||"]
    case Conjoin => ["&&"]
    case Bit(b) => [match b case BitOr => "|" case BitXor => "^" case BitAnd => "&"]
    case Eq(e) => [match e case Equal => "==" case NotEqual => "!=" case Match => "=~" case NotMatch => "!~"]
    case Rel(w, eq) => if eq then [w, "="] else [w]
    case Shift(w) => [w]
    case Add(w) => [w]
    case Mul(w) => [w]
  }

  function AtomWords(a: Atom): seq<Word> {
    match a
    case Run(ws) => ["{"] + ws + ["}"]
    case Blank => []
    case File(w, name) => [w, name]
    case Literal(w, _) => [w]
  }

  function PrefixWords(pre: Prefix): seq<Word> {
    match pre
    case Number => []
    case Not => ["!"]
    case Complement => ["~"]
    case Group(_) => ["("]
  }

  function SuffixWords(pre: Prefix): seq<Word> {
    if pre.Group? then [pre.close] else []
  }

  // The words of a tree, in order.
  function Words(t: Tree): seq<Word> {
    match t
    case Binary(op, l, r) => Words(l) + (OperatorWords(op) + Words(r))
    case Unary(pre, t) => PrefixWords(pre) + (Words(t) + SuffixWords(pre))
    case Leaf(a) => AtomWords(a)
  }

  function Rank(op: Operator): nat {
    match op
    case Disjoin => 0
    case Conjoin => 1
    case Bit(b) => (match b case BitOr => 2 case BitXor => 3 case BitAnd => 4)
    case Eq(_) => 5
    case Rel(_, _) => 6
    case Shift(_) => 7
    case Add(_) => 8
    case Mul(_) => 9
  }

  // How tightly the top of a tree binds.
  function Level(t: Tree): nat {
    match t
    case Binary(op, _, _) => Rank(op)
    case Unary(pre, _) => if pre.Number? then 5 else 10
    case Leaf(_) => 10
  }

  // t can stand where something of level n is asked for.
  predicate AtLevel(t: Tree, n: nat) {
    Level(t) >= n && (n <= 5 ==> Level(t) <= 5)
  }

  // An operator of rank n comes next.
  predicate Continues(n: nat, rest: seq<Word>) {
    match n
    case 0 => Two(rest, '|', '|')
    case 1 => Two(rest, '&', '&')
    case 2 => One(rest, '|')
    case 3 => One(rest, '^')
    case 4 => One(rest, '&')
    case 5 => IsEq(rest).Some?
    case 6 => IsRel(rest)
    case 7 => IsShift(rest)
    case 8 => IsAdd(rest)
    case 9 => IsMul(rest)
    case _ => false
  }

  // The last comparison in t for equality, if that is where it ends: after it another one
  // does not go on with it.
  predicate EndsInEq(t: Tree) {
    t.Binary? && (t.op.Eq? || (Rank(t.op) < 5 && EndsInEq(t.r)))
  }

  // What follows does not go on with a tree t of level n.
  predicate Stops(t: Tree, n: nat, rest: seq<Word>) {
    (forall k | n <= k <= 9 && k != 5 :: !Continues(k, rest)) && (n <= 5 && !EndsInEq(t) ==> !Continues(5, rest))
  }

  // ----- the trees of words -----

  // The operator is the one its word says.
  predicate Means(op: Operator) {
    match op
    case Rel(w, _) => IsRel([w]) && !IsShift([w])
    case Shift(w) => IsShift([w])
    case Add(w) => IsAdd([w])
    case Mul(w) => IsMul([w])
    case _ => true
  }

  // Globbing is off on the right of a match, and on again after || and &&.
  function RightNg(op: Operator, ng: bool): bool {
    if op.Disjoin? || op.Conjoin? then false else if op.Eq? then ng || IsMatch(op.e) else ng
  }

  function RightLevel(op: Operator): nat {
    if op.Eq? then 6 else Rank(op)
  }

  // The first word of an operand that is a word of its own.
  predicate Ordinary(w: Word) {
    !One([w], '!') && !One([w], '~') && !One([w], '(') && !One([w], '{') && !IsAny([w])
  }

  predicate WellAtom(env: Env, a: Atom, ng: bool, rest: seq<Word>) {
    match a
    case Run(ws) => forall i | 0 <= i < |ws| :: !One([ws[i]], '}')
    case Blank => rest != [] && IsAny(rest) && !One(rest, '!') && !One(rest, '~') && !One(rest, '(')
    case File(w, name) => Ordinary(w) && Inquires(w) && |w| == 2 && (IsAny([name]) ==> env.exists_(name))
    case Literal(w, off) => Ordinary(w) && !Inquires(w) && off == ng
  }

  // t is a tree of its words, where `rest` follows them: every operator and operand is what
  // its words say, what is on the left of an operator binds tighter, and what is on the
  // right at least as tight.  Equalities do not chain, and only numbers are below them.
  predicate Well(env: Env, t: Tree, ng: bool, rest: seq<Word>) {
    match t
    case Binary(op, l, r) =>
      Means(op) && AtLevel(l, Rank(op) + 1) && AtLevel(r, RightLevel(op)) &&
      Well(env, l, ng, OperatorWords(op) + Words(r) + rest) && Well(env, r, RightNg(op, ng), rest) &&
      (op.Rel? && !op.eq ==> !One(Words(r) + rest, '='))
    case Unary(pre, t) =>
      Well(env, t, ng, SuffixWords(pre) + rest) &&
      (match pre
       case Number => Level(t) > 5
       case Group(close) => Level(t) <= 5 && At(close, 0) == ')'
       case _ => Level(t) == 10)
    case Leaf(a) => WellAtom(env, a, ng, rest)
  }

  // The tree at the start of ws, and what follows it.
  predicate TreeOf(env: Env, ws: seq<Word>, ng: bool, n: nat, t: Tree, rest: seq<Word>) {
    ws == Words(t) + rest && Well(env, t, ng, rest) && AtLevel(t, n) && Stops(t, n, rest)
  }

  // ----- what is read is such a tree -----

  ghost predicate ReadFrom(env: Env, ws: seq<Word>, ng: bool, r: Res<Tree>, n: nat) {
    r.Ok? ==> TreeOf(env, ws, ng, n, r.v, r.rest)
  }

  lemma OneWord(ws: seq<Word>, c: char)
    requires One(ws, c)
    ensures ws == [[c]] + ws[1..]
  {
    assert ws[0] == [c];
  }

  lemma TwoWord(ws: seq<Word>, c: char, d: char)
    requires Two(ws, c, d)
    ensures ws == [[c, d]] + ws[1..]
  {
    assert ws[0] == [c, d];
  }

  // The operator of rank n that comes next; RelWords tells how many words it has.
  function NextOp(n: nat, ws: seq<Word>): Operator
    requires Continues(n, ws)
  {
    match n
    case 0 => Disjoin
    case 1 => Conjoin
    case 2 => Bit(BitOr)
    case 3 => Bit(BitXor)
    case 4 => Bit(BitAnd)
    case 5 => Eq(IsEq(ws).value)
    case 6 => Rel(ws[0], RelWords(ws) == 2)
    case 7 => Shift(ws[0])
    case 8 => Add(ws[0])
    case _ => Mul(ws[0])
  }

  function OpSize(n: nat, ws: seq<Word>): (k: nat)
    requires Continues(n, ws)
    ensures 1 <= k <= |ws|
  {
    if n == 6 then RelWords(ws) else 1
  }

  lemma EqRest(ws: seq<Word>)
    requires IsEq(ws).Some?
    ensures ws == OperatorWords(Eq(IsEq(ws).value)) + ws[1..]
  {
    match IsEq(ws).value
    case Equal => TwoWord(ws, '=', '=');
    case NotEqual => TwoWord(ws, '!', '=');
    case Match => TwoWord(ws, '=', '~');
    case NotMatch => TwoWord(ws, '!', '~');
  }

  lemma RelRest(ws: seq<Word>)
    requires IsRel(ws)
    ensures ws == OperatorWords(Rel(ws[0], RelWords(ws) == 2)) + ws[RelWords(ws)..]
  {
    if RelWords(ws) == 2 {
      OneWord(ws[1..], '=');
    }
  }

  lemma OpRest(n: nat, ws: seq<Word>)
    requires Continues(n, ws)
    ensures ws == OperatorWords(NextOp(n, ws)) + ws[OpSize(n, ws)..] && Rank(NextOp(n, ws)) == n
  {
    match n
    case 0 => TwoWord(ws, '|', '|');
    case 1 => TwoWord(ws, '&', '&');
    case 2 => OneWord(ws, '|');
    case 3 => OneWord(ws, '^');
    case 4 => OneWord(ws, '&');
    case 5 => EqRest(ws);
    case 6 => RelRest(ws);
    case _ => assert ws == [ws[0]] + ws[1..];
  }

  lemma OpMeans(n: nat, ws: seq<Word>)
    requires Continues(n, ws) && (n == 6 ==> !Continues(7, ws))
    ensures Means(NextOp(n, ws))
  {
  }

  // An operator and its right side.
  lemma NodeReads(env: Env, ws: seq<Word>, ng: bool, n: nat, t: Res<Tree>, t2: Res<Tree>)
    requires n <= 9 && t.Ok? && TreeOf(env, ws, ng, n + 1, t.v, t.rest) && Continues(n, t.rest)
    requires var op := NextOp(n, t.rest);
      ReadFrom(env, t.rest[OpSize(n, t.rest)..], RightNg(op, ng), t2, RightLevel(op))
    ensures ReadFrom(env, ws, ng, Node(NextOp(n, t.rest), t.v, t2), n)
  {
    var op, rest := NextOp(n, t.rest), t.rest[OpSize(n, t.rest)..];
    if t2.Ok? {
      OpRest(n, t.rest);
      OpMeans(n, t.rest);
      NodeWell(env, ng, op, t.v, t2.v, t2.rest, ws, rest, t.rest);
    }
  }

  lemma NodeWell(env: Env, ng: bool, op: Operator, l: Tree, r: Tree, rest2: seq<Word>, ws: seq<Word>,
    rest: seq<Word>, more: seq<Word>)
    requires Means(op) && TreeOf(env, ws, ng, Rank(op) + 1, l, more) && more == OperatorWords(op) + rest
    requires TreeOf(env, rest, RightNg(op, ng), RightLevel(op), r, rest2)
    requires op.Rel? && !op.eq ==> !One(rest, '=')
    ensures TreeOf(env, ws, ng, Rank(op), Binary(op, l, r), rest2)
  {
    var o, w := OperatorWords(op), Words(r);
    assert more == o + w + rest2;
    assert Words(l) + (o + w) + rest2 == Words(l) + (o + (w + rest2));
  }

  lemma {:induction false} Reads0(env: Env, ws: seq<Word>, ng: bool)
    ensures ReadFrom(env, ws, ng, Tree0(env, ws, ng), 0)
    decreases |ws|, 10
  {
    Reads1(env, ws, ng);
    var t := Tree1(env, ws, ng);
    if t.Ok? && Continues(0, t.rest) {
      Reads0(env, t.rest[1..], false);
      NodeReads(env, ws, ng, 0, t, Tree0(env, t.rest[1..], false));
    }
  }

  lemma {:induction false} Reads1(env: Env, ws: seq<Word>, ng: bool)
    ensures ReadFrom(env, ws, ng, Tree1(env, ws, ng), 1)
    decreases |ws|, 9
  {
    Reads2(env, ws, ng);
    var t := Tree2(env, ws, ng);
    if t.Ok? && Continues(1, t.rest) {
      Reads1(env, t.rest[1..], false);
      NodeReads(env, ws, ng, 1, t, Tree1(env, t.rest[1..], false));
    }
  }

  lemma {:induction false} Reads2(env: Env, ws: seq<Word>, ng: bool)
    ensures ReadFrom(env, ws, ng, Tree2(env, ws, ng), 2)
    decreases |ws|, 8
  {
    Reads2a(env, ws, ng);
    var t := Tree2a(env, ws, ng);
    if t.Ok? && Continues(2, t.rest) {
      Reads2(env, t.rest[1..], ng);
      NodeReads(env, ws, ng, 2, t, Tree2(env, t.rest[1..], ng));
    }
  }

  lemma {:induction false} Reads2a(env: Env, ws: seq<Word>, ng: bool)
    ensures ReadFrom(env, ws, ng, Tree2a(env, ws, ng), 3)
    decreases |ws|, 7
  {
    Reads2b(env, ws, ng);
    var t := Tree2b(env, ws, ng);
    if t.Ok? && Continues(3, t.rest) {
      Reads2a(env, t.rest[1..], ng);
      NodeReads(env, ws, ng, 3, t, Tree2a(env, t.rest[1..], ng));
    }
  }

  lemma {:induction false} Reads2b(env: Env, ws: seq<Word>, ng: bool)
    ensures ReadFrom(env, ws, ng, Tree2b(env, ws, ng), 4)
    decreases |ws|, 6
  {
    Reads2c(env, ws, ng);
    var t := Tree2c(env, ws, ng);
    if t.Ok? && Continues(4, t.rest) {
      Reads2b(env, t.rest[1..], ng);
      NodeReads(env, ws, ng, 4, t, Tree2b(env, t.rest[1..], ng));
    }
  }

  lemma {:induction false} Reads2c(env: Env, ws: seq<Word>, ng: bool)
    ensures ReadFrom(env, ws, ng, Tree2c(env, ws, ng), 5)
    decreases |ws|, 5
  {
    Reads3(env, ws, ng);
    var t := Tree3(env, ws, ng);
    if t.Ok? && Continues(5, t.rest) {
      var right := ng || IsMatch(IsEq(t.rest).value);
      Reads3(env, t.rest[1..], right);
      NodeReads(env, ws, ng, 5, t, Tree3(env, t.rest[1..], right));
    } else if t.Ok? {
      NumberReads(env, ws, ng, t.v, t.rest);
    }
  }

  lemma NumberReads(env: Env, ws: seq<Word>, ng: bool, t: Tree, rest: seq<Word>)
    requires TreeOf(env, ws, ng, 6, t, rest) && !Continues(5, rest)
    ensures TreeOf(env, ws, ng, 5, Unary(Number, t), rest)
  {
    assert Words(Unary(Number, t)) == Words(t) && [] + rest == rest;
  }

  lemma {:induction false} Reads3(env: Env, ws: seq<Word>, ng: bool)
    ensures ReadFrom(env, ws, ng, Tree3(env, ws, ng), 6)
    decreases |ws|, 4
  {
    Reads3a(env, ws, ng);
    var t := Tree3a(env, ws, ng);
    if t.Ok? && Continues(6, t.rest) {
      Reads3(env, t.rest[RelWords(t.rest)..], ng);
      NodeReads(env, ws, ng, 6, t, Tree3(env, t.rest[RelWords(t.rest)..], ng));
    }
  }

  lemma {:induction false} Reads3a(env: Env, ws: seq<Word>, ng: bool)
    ensures ReadFrom(env, ws, ng, Tree3a(env, ws, ng), 7)
    decreases |ws|, 3
  {
    Reads4(env, ws, ng);
    var t := Tree4(env, ws, ng);
    if t.Ok? && Continues(7, t.rest) {
      Reads3a(env, t.rest[1..], ng);
      NodeReads(env, ws, ng, 7, t, Tree3a(env, t.rest[1..], ng));
    }
  }

  lemma {:induction false} Reads4(env: Env, ws: seq<Word>, ng: bool)
    ensures ReadFrom(env, ws, ng, Tree4(env, ws, ng), 8)
    decreases |ws|, 2
  {
    Reads5(env, ws, ng);
    var t := Tree5(env, ws, ng);
    if t.Ok? && Continues(8, t.rest) {
      Reads4(env, t.rest[1..], ng);
      NodeReads(env, ws, ng, 8, t, Tree4(env, t.rest[1..], ng));
    }
  }

  lemma {:induction false} Reads5(env: Env, ws: seq<Word>, ng: bool)
    ensures ReadFrom(env, ws, ng, Tree5(env, ws, ng), 9)
    decreases |ws|, 1
  {
    Reads6(env, ws, ng);
    var t := Tree6(env, ws, ng);
    if t.Ok? && Continues(9, t.rest) {
      Reads5(env, t.rest[1..], ng);
      NodeReads(env, ws, ng, 9, t, Tree5(env, t.rest[1..], ng));
    }
  }

  lemma {:induction false} Reads6(env: Env, ws: seq<Word>, ng: bool)
    ensures ReadFrom(env, ws, ng, Tree6(env, ws, ng), 10)
    decreases |ws|, 0
  {
    if ws == [] {
    } else if One(ws, '!') || One(ws, '~') {
      Reads6(env, ws[1..], ng);
      PrefixReads(env, ws, ng, Tree6(env, ws[1..], ng));
    } else if One(ws, '(') {
      Reads0(env, ws[1..], ng);
      GroupReads(env, ws, ng, Tree0(env, ws[1..], ng));
    } else {
      OperandReads(env, ws, ng);
    }
  }

  lemma PrefixReads(env: Env, ws: seq<Word>, ng: bool, t: Res<Tree>)
    requires (One(ws, '!') || One(ws, '~')) && ReadFrom(env, ws[1..], ng, t, 10)
    ensures ReadFrom(env, ws, ng, Over(if One(ws, '!') then Not else Complement, t), 10)
  {
    OneWord(ws, if One(ws, '!') then '!' else '~');
    if t.Ok? {
      var w := [ws[0]];
      assert w + (Words(t.v) + []) + t.rest == w + (Words(t.v) + t.rest) && [] + t.rest == t.rest;
    }
  }

  lemma GroupReads(env: Env, ws: seq<Word>, ng: bool, t: Res<Tree>)
    requires One(ws, '(') && ReadFrom(env, ws[1..], ng, t, 0)
    ensures ReadFrom(env, ws, ng, ClosedTree(t), 10)
  {
    OneWord(ws, '(');
    if ClosedTree(t).Ok? {
      var close, rest := t.rest[0], t.rest[1..];
      assert t.rest == [close] + rest;
      assert ["("] + (Words(t.v) + [close]) + rest == ["("] + (Words(t.v) + ([close] + rest));
    }
  }

  lemma {:induction false} CommandWords(ws: seq<Word>)
    requires Command(ws).Ok?
    ensures ws == Command(ws).v + ["}"] + Command(ws).rest
    ensures forall i | 0 <= i < |Command(ws).v| :: !One([Command(ws).v[i]], '}')
  {
    if One(ws, '}') {
      OneWord(ws, '}');
    } else {
      CommandWords(ws[1..]);
      assert ws == [ws[0]] + ws[1..];
    }
  }

  lemma OperandReads(env: Env, ws: seq<Word>, ng: bool)
    requires ws != [] && !One(ws, '!') && !One(ws, '~') && !One(ws, '(')
    ensures ReadFrom(env, ws, ng, OperandTree(env, ws, ng), 10)
  {
    var t := OperandTree(env, ws, ng);
    if t.Ok? {
      if One(ws, '{') {
        CommandWords(ws[1..]);
        OneWord(ws, '{');
        var r := Command(ws[1..]);
        assert ["{"] + r.v + ["}"] + r.rest == ["{"] + (r.v + ["}"] + r.rest);
      } else {
        OperandWords(env, ws, ng);
      }
    }
  }

  lemma OperandWords(env: Env, ws: seq<Word>, ng: bool)
    requires ws != [] && !One(ws, '!') && !One(ws, '~') && !One(ws, '(') && !One(ws, '{')
    ensures ReadFrom(env, ws, ng, OperandTree(env, ws, ng), 10)
  {
    var t := OperandTree(env, ws, ng);
    HeadOnly(ws);
    if t.Ok? {
      match t.v.a
      case Blank => assert [] + ws == ws;
      case File(_, _) =>
        HeadOnly(ws[1..]);
        assert ws == [ws[0], ws[1]] + ws[2..];
      case Literal(_, _) => assert ws == [ws[0]] + ws[1..];
      case Run(_) =>
    }
  }

  // Whether an operator comes next is told by the next word.
  lemma HeadOnly(ws: seq<Word>)
    requires ws != []
    ensures IsAny(ws) == IsAny([ws[0]]) && (forall c :: One(ws, c) == One([ws[0]], c))
  {
  }

  // ----- and every such tree is read -----

  function TreeAt(env: Env, ws: seq<Word>, ng: bool, n: nat): Res<Tree> {
    match n
    case 0 => Tree0(env, ws, ng)
    case 1 => Tree1(env, ws, ng)
    case 2 => Tree2(env, ws, ng)
    case 3 => Tree2a(env, ws, ng)
    case 4 => Tree2b(env, ws, ng)
    case 5 => Tree2c(env, ws, ng)
    case 6 => Tree3(env, ws, ng)
    case 7 => Tree3a(env, ws, ng)
    case 8 => Tree4(env, ws, ng)
    case 9 => Tree5(env, ws, ng)
    case _ => Tree6(env, ws, ng)
  }

  // Each level reads one of the next, and goes on where an operator of its own comes next.
  lemma LevelGoesOn(env: Env, ws: seq<Word>, ng: bool, n: nat, l: Tree, more: seq<Word>, op: Operator, rest: seq<Word>)
    requires n <= 9 && TreeAt(env, ws, ng, n + 1) == Ok(l, more) && Continues(n, more) && op == NextOp(n, more)
    requires rest == more[OpSize(n, more)..]
    ensures TreeAt(env, ws, ng, n) == Node(op, l, TreeAt(env, rest, RightNg(op, ng), RightLevel(op)))
  {
  }

  lemma LevelStops(env: Env, ws: seq<Word>, ng: bool, n: nat, t: Tree, rest: seq<Word>)
    requires n <= 9 && TreeAt(env, ws, ng, n + 1) == Ok(t, rest) && !Continues(n, rest)
    ensures TreeAt(env, ws, ng, n) == Ok(if n == 5 then Unary(Number, t) else t, rest)
  {
  }

  // The words of an operator are read as that operator.
  lemma OpComes(op: Operator, more: seq<Word>)
    requires Means(op) && (op.Rel? && !op.eq ==> !One(more, '='))
    ensures var ws := OperatorWords(op) + more;
      Continues(Rank(op), ws) && NextOp(Rank(op), ws) == op && ws[OpSize(Rank(op), ws)..] == more
  {
    var ws := OperatorWords(op) + more;
    if op.Rel? {
      assert ws[0] == op.w && ws[1..] == (if op.eq then ["="] else []) + more;
      assert op.eq ==> One(ws[1..], '=');
      assert !op.eq ==> ws[1..] == more;
      assert op.eq ==> ws[2..] == more;
    } else {
      assert ws[0] == OperatorWords(op)[0] && ws[1..] == more;
    }
  }

  // And as no operator that binds tighter.
  lemma OpStops(op: Operator, more: seq<Word>, l: Tree)
    requires Means(op) && AtLevel(l, Rank(op) + 1)
    ensures Stops(l, Rank(op) + 1, OperatorWords(op) + more)
  {
    var ws := OperatorWords(op) + more;
    assert ws[0] == OperatorWords(op)[0];
    forall k | Rank(op) + 1 <= k <= 9 ensures !Continues(k, ws) {
      OneRank(op, ws, k);
    }
  }

  lemma OneRank(op: Operator, ws: seq<Word>, k: nat)
    requires Means(op) && ws != [] && ws[0] == OperatorWords(op)[0] && Rank(op) < k <= 9
    ensures !Continues(k, ws)
  {
  }

  lemma CloseStops(t: Tree, close: Word, rest: seq<Word>)
    requires At(close, 0) == ')'
    ensures Stops(t, 0, [close] + rest)
  {
    var ws := [close] + rest;
    assert ws[0] == close;
    forall k | 0 <= k <= 9 ensures !Continues(k, ws) {
    }
  }

  lemma {:induction false} Parses(env: Env, t: Tree, ng: bool, rest: seq<Word>, n: nat)
    requires Well(env, t, ng, rest) && AtLevel(t, n) && Stops(t, n, rest) && n <= 10
    ensures TreeAt(env, Words(t) + rest, ng, n) == Ok(t, rest)
    decreases t, 11 - n
  {
    if n == 10 {
      ParsesTop(env, t, ng, rest);
    } else if t.Binary? && Rank(t.op) == n {
      ParsesNode(env, t, ng, rest);
    } else if n == 5 {
      ParsesNumber(env, t, ng, rest);
    } else {
      Parses(env, t, ng, rest, n + 1);
      LevelStops(env, Words(t) + rest, ng, n, t, rest);
    }
  }

  lemma {:induction false} ParsesNode(env: Env, t: Tree, ng: bool, rest: seq<Word>)
    requires t.Binary? && Well(env, t, ng, rest) && Stops(t, Rank(t.op), rest)
    ensures TreeAt(env, Words(t) + rest, ng, Rank(t.op)) == Ok(t, rest)
    decreases t, 0
  {
    var op, l, r, n := t.op, t.l, t.r, Rank(t.op);
    var right := Words(r) + rest;
    var more := OperatorWords(op) + Words(r) + rest;
    assert more == OperatorWords(op) + right;
    OpStops(op, right, l);
    Parses(env, l, ng, more, n + 1);
    OpComes(op, right);
    Parses(env, r, RightNg(op, ng), rest, RightLevel(op));
    assert Words(l) + more == Words(t) + rest;
    LevelGoesOn(env, Words(t) + rest, ng, n, l, more, op, right);
  }

  lemma {:induction false} ParsesTop(env: Env, t: Tree, ng: bool, rest: seq<Word>)
    requires Well(env, t, ng, rest) && Level(t) == 10
    ensures Tree6(env, Words(t) + rest, ng) == Ok(t, rest)
    decreases t, 0
  {
    if t.Leaf? {
      ParsesAtom(env, t.a, ng, rest);
    } else if t.pre.Group? {
      var after := [t.pre.close] + rest;
      CloseStops(t.t, t.pre.close, rest);
      Parses(env, t.t, ng, after, 0);
      GroupWords(t, rest);
      Tree6Group(env, Words(t) + rest, ng, t.t, after);
    } else {
      assert [] + rest == rest;
      Parses(env, t.t, ng, rest, 10);
      PrefixedWords(t, rest);
      Tree6Prefix(env, Words(t) + rest, ng, t.t, rest, t.pre);
    }
  }

  lemma GroupWords(t: Tree, rest: seq<Word>)
    requires t.Unary? && t.pre.Group?
    ensures var ws, after := Words(t) + rest, [t.pre.close] + rest;
      One(ws, '(') && ws[1..] == Words(t.t) + after && after[1..] == rest
  {
    var ws, after := Words(t) + rest, [t.pre.close] + rest;
    assert ws == ["("] + (Words(t.t) + after);
  }

  lemma PrefixedWords(t: Tree, rest: seq<Word>)
    requires t.Unary? && (t.pre.Not? || t.pre.Complement?)
    ensures var ws := Words(t) + rest; One(ws, if t.pre.Not? then '!' else '~') && ws[1..] == Words(t.t) + rest
  {
    var ws := Words(t) + rest;
    assert ws == PrefixWords(t.pre) + (Words(t.t) + rest);
  }

  lemma Tree6Group(env: Env, ws: seq<Word>, ng: bool, t: Tree, after: seq<Word>)
    requires One(ws, '(') && Tree0(env, ws[1..], ng) == Ok(t, after) && after != [] && At(after[0], 0) == ')'
    ensures Tree6(env, ws, ng) == Ok(Unary(Group(after[0]), t), after[1..])
  {
  }

  lemma Tree6Prefix(env: Env, ws: seq<Word>, ng: bool, t: Tree, rest: seq<Word>, pre: Prefix)
    requires (pre.Not? || pre.Complement?) && One(ws, if pre.Not? then '!' else '~')
    requires Tree6(env, ws[1..], ng) == Ok(t, rest)
    ensures Tree6(env, ws, ng) == Ok(Unary(pre, t), rest)
  {
  }

  lemma {:induction false} ParsesNumber(env: Env, t: Tree, ng: bool, rest: seq<Word>)
    requires t.Unary? && t.pre.Number? && Well(env, t, ng, rest) && Stops(t, 5, rest)
    ensures Tree2c(env, Words(t) + rest, ng) == Ok(t, rest)
    decreases t, 0
  {
    assert [] + rest == rest && Words(t) == Words(t.t);
    Parses(env, t.t, ng, rest, 6);
    LevelStops(env, Words(t) + rest, ng, 5, t.t, rest);
  }

  lemma {:induction false} CommandReads(v: seq<Word>, rest: seq<Word>)
    requires forall i | 0 <= i < |v| :: !One([v[i]], '}')
    ensures Command(v + ["}"] + rest) == Ok(v, rest)
  {
    var ws := v + ["}"] + rest;
    if v == [] {
      assert ws[0] == "}" && ws[1..] == rest;
    } else {
      assert ws[0] == v[0] && ws[1..] == v[1..] + ["}"] + rest && !One([v[0]], '}');
      assert forall i | 0 <= i < |v| - 1 :: v[1..][i] == v[i + 1];
      CommandReads(v[1..], rest);
      assert [v[0]] + v[1..] == v;
    }
  }

  lemma ParsesAtom(env: Env, a: Atom, ng: bool, rest: seq<Word>)
    requires WellAtom(env, a, ng, rest)
    ensures Tree6(env, AtomWords(a) + rest, ng) == Ok(Leaf(a), rest)
  {
    if a.Run? {
      ParsesRun(env, a.ws, ng, rest);
    } else {
      var ws := AtomWords(a) + rest;
      AtomHead(env, a, ng, rest);
      Tree6Operand(env, ws, ng);
      ParsesOperand(env, a, ng, rest, ws);
    }
  }

  lemma Tree6Operand(env: Env, ws: seq<Word>, ng: bool)
    requires ws != [] && !One(ws, '!') && !One(ws, '~') && !One(ws, '(')
    ensures Tree6(env, ws, ng) == OperandTree(env, ws, ng)
  {
  }

  lemma ParsesRun(env: Env, v: seq<Word>, ng: bool, rest: seq<Word>)
    requires forall i | 0 <= i < |v| :: !One([v[i]], '}')
    ensures Tree6(env, AtomWords(Run(v)) + rest, ng) == Ok(Leaf(Run(v)), rest)
  {
    var ws := AtomWords(Run(v)) + rest;
    CommandReads(v, rest);
    assert ws == ["{"] + (v + ["}"] + rest);
    assert One(ws, '{') && ws[1..] == v + ["}"] + rest;
    Tree6Operand(env, ws, ng);
  }

  lemma AnyIsNoBrace(ws: seq<Word>)
    requires ws != [] && IsAny(ws)
    ensures !One(ws, '{')
  {
  }

  // The first word of an operand opens nothing.
  lemma AtomHead(env: Env, a: Atom, ng: bool, rest: seq<Word>)
    requires WellAtom(env, a, ng, rest) && !a.Run?
    ensures var ws := AtomWords(a) + rest;
      ws != [] && !One(ws, '!') && !One(ws, '~') && !One(ws, '(') && !One(ws, '{') && (IsAny(ws) <==> a.Blank?)
  {
    var ws := AtomWords(a) + rest;
    if a.Blank? {
      assert ws == rest;
      AnyIsNoBrace(ws);
    } else {
      HeadOnly(ws);
      assert ws[0] == a.w;
    }
  }

  lemma ParsesOperand(env: Env, a: Atom, ng: bool, rest: seq<Word>, ws: seq<Word>)
    requires WellAtom(env, a, ng, rest) && !a.Run? && ws == AtomWords(a) + rest && ws != []
    requires !One(ws, '{') && (IsAny(ws) <==> a.Blank?)
    ensures OperandTree(env, ws, ng) == Ok(Leaf(a), rest)
  {
    match a
    case Blank => assert ws == rest;
    case File(w, name) =>
      assert ws[0] == w && ws[1] == name && ws[2..] == rest;
      HeadOnly(ws[1..]);
    case Literal(w, _) => assert ws[0] == w && ws[1..] == rest;
  }

  // ----- the main results -----

  // Words have one tree.
  lemma OneTree(env: Env, ws: seq<Word>, ng: bool, t: Tree, rest: seq<Word>, t': Tree, rest': seq<Word>)
    requires TreeOf(env, ws, ng, 0, t, rest) && TreeOf(env, ws, ng, 0, t', rest')
    ensures t == t' && rest == rest'
  {
    Parses(env, t, ng, rest, 0);
    Parses(env, t', ng, rest', 0);
  }

  // What expr returns is the value of the tree of the words it took.
  lemma Evaluates(env: Env, ws: seq<Word>) returns (t: Tree)
    requires Exp0(env, ws, false, false).Ok?
    ensures TreeOf(env, ws, false, 0, t, Exp0(env, ws, false, false).rest)
    ensures Value(env, t) == Some(Int(Exp0(env, ws, false, false).v))
  {
    Follows0(env, ws, false, false);
    Reads0(env, ws, false);
    t := Tree0(env, ws, false).v;
  }

  // If every part of the tree has a value of its kind, there is no error, and the value
  // is that of the tree.
  lemma EvaluatesSound(env: Env, ws: seq<Word>, t: Tree, rest: seq<Word>)
    requires TreeOf(env, ws, false, 0, t, rest) && Sound(env, t)
    ensures Numeric(env, t) && Exp0(env, ws, false, false) == Ok(NumOf(Value(env, t)).value, rest)
  {
    Parses(env, t, false, rest, 0);
    Through0(env, ws, false, false);
    Follows0(env, ws, false, false);
  }
}
