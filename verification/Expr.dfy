/**
 * csh's expressions: one pass over the words that evaluates as it goes, and the tree of
 * the expression with its value.
 */
module Expr {
  import opened Common
  import opened Number

  // ----- what the evaluator asks of its surroundings -----

  datatype Env = Env(
    glob: Word -> Option<Word>,                 // the one word a pattern stands for
    matches: (Word, Word) -> bool,              // a word and a pattern
    run: seq<Word> -> bool,                     // whether a command succeeds
    exists_: Word -> bool,                      // whether there is such a file
    inquire: (char, Word) -> Int32,             // an inquiry about a file
    oddShift: (bool, Int32, Int32) -> Int32)    // a shift by less than 0 or more than 31

  datatype Error = Syntax | BadNum | Div0 | Mod0 | MissingBrace | FileInq | FileName | NoMatch

  // A value and the words after the expression, or an error.
  datatype Res<T> = Ok(v: T, rest: seq<Word>) | Err(e: Error) {
    predicate IsFailure() { Err? }
    function PropagateFailure<U>(): Res<U>
      requires IsFailure()
    {
      Err(e)
    }
    function Extract(): (T, seq<Word>)
      requires !IsFailure()
    {
      (v, rest)
    }
  }

  datatype Num = N(n: Int32) | Bad(e: Error) {
    predicate IsFailure() { Bad? }
    function PropagateFailure<U>(): Res<U>
      requires IsFailure()
    {
      Err(e)
    }
    function Extract(): Int32
      requires !IsFailure()
    {
      n
    }
  }

  // ----- words -----

  function At(w: Word, i: nat): char {
    if i < |w| then w[i] else '\0'
  }

  // The next word is c, or c and d.
  predicate One(ws: seq<Word>, c: char) {
    ws != [] && |ws[0]| == 1 && ws[0][0] == c
  }

  predicate Two(ws: seq<Word>, c: char, d: char) {
    ws != [] && |ws[0]| == 2 && ws[0][0] == c && ws[0][1] == d
  }

  datatype EqOp = Equal | NotEqual | Match | NotMatch

  function IsEq(ws: seq<Word>): Option<EqOp> {
    if Two(ws, '=', '=') then Some(Equal)
    else if Two(ws, '=', '~') then Some(Match)
    else if Two(ws, '!', '=') then Some(NotEqual)
    else if Two(ws, '!', '~') then Some(NotMatch)
    else None
  }

  // Any word that starts with < or >.
  predicate IsRel(ws: seq<Word>) {
    ws != [] && (At(ws[0], 0) == '<' || At(ws[0], 0) == '>')
  }

  predicate IsShift(ws: seq<Word>) {
    IsRel(ws) && At(ws[0], 0) == At(ws[0], 1)
  }

  predicate IsAdd(ws: seq<Word>) {
    One(ws, '+') || One(ws, '-')
  }

  predicate IsMul(ws: seq<Word>) {
    One(ws, '*') || One(ws, '/') || One(ws, '%')
  }

  predicate IsRest(ws: seq<Word>) {
    ws == [] ||
    One(ws, '(') || One(ws, ')') || One(ws, '!') || One(ws, '~') || One(ws, '^') || One(ws, '"') ||
    Two(ws, '|', '&') || Two(ws, '<', '<') || Two(ws, '>', '>')
  }

  // isa for any operator; the end of the words counts as one.
  predicate IsAny(ws: seq<Word>) {
    IsRest(ws) || IsEq(ws).Some? || IsRel(ws) || IsAdd(ws) || IsMul(ws)
  }

  // A number; the empty word is 0.
  function Egetn(w: Word): Num {
    if w != "" && w[0] != '-' && !IsDigit(w[0]) then Bad(Syntax)
    else match Getn(w)
         case None => Bad(BadNum)
         case Some(n) => N(n)
  }

  // ----- arithmetic -----

  function Truth(b: bool): Int32 {
    if b then 1 else 0
  }

  datatype BitOp = BitOr | BitXor | BitAnd

  function OneBit(op: BitOp, a: bool, b: bool): bool {
    match op
    case BitOr => a || b
    case BitXor => a != b
    case BitAnd => a && b
  }

  predicate OnlySign(x: int) {
    x == 0 || x == -1
  }

  // All bits of two numbers in two's complement, from the last one on.
  function AllBits(op: BitOp, a: int, b: int): int
    decreases (if a < 0 then -a else a) + (if b < 0 then -b else b)
  {
    if OnlySign(a) && OnlySign(b) then if OneBit(op, a < 0, b < 0) then -1 else 0
    else 2 * AllBits(op, a / 2, b / 2) + if OneBit(op, a % 2 == 1, b % 2 == 1) then 1 else 0
  }

  // x has n bits and a sign.
  predicate Fits(x: int, n: nat) {
    0 <= x + Pow2(n) && x < Pow2(n)
  }

  lemma {:induction false} AllBitsFit(op: BitOp, a: int, b: int, n: nat)
    requires Fits(a, n) && Fits(b, n)
    ensures Fits(AllBits(op, a, b), n)
    decreases n
  {
    if !(OnlySign(a) && OnlySign(b)) {
      AllBitsFit(op, a / 2, b / 2, n - 1);
    }
  }

  function BitValue(op: BitOp, a: Int32, b: Int32): Int32 {
    Pow31();
    AllBitsFit(op, a, b, 31);
    AllBits(op, a, b)
  }

  function ShiftValue(env: Env, left: bool, a: Int32, b: Int32): Int32 {
    if b < 0 || b > 31 then env.oddShift(left, a, b)
    else if left then Wrap(a * Pow2(b)) else Wrap(a / Pow2(b))
  }

  // Division truncates; b is not 0.
  function Quotient(a: int, b: int): int
    requires b != 0
  {
    var q := (if a < 0 then -a else a) / (if b < 0 then -b else b);
    if (a < 0) == (b < 0) then q else -q
  }

  function AddValue(op: char, a: Int32, b: Int32): Int32 {
    if op == '+' then Wrap(a + b) else Wrap(a - b)
  }

  predicate DividesByZero(op: char, b: Int32) {
    op != '*' && b == 0
  }

  function MulValue(op: char, a: Int32, b: Int32): Int32
    requires !DividesByZero(op, b)
  {
    if op == '*' then Wrap(a * b)
    else if op == '/' then Wrap(Quotient(a, b))
    else Wrap(a - Quotient(a, b) * b)
  }

  // `less` is < rather than >; `eq` says that = follows.
  function RelValue(less: bool, eq: bool, a: Int32, b: Int32): bool {
    if less then (if eq then a <= b else a < b) else (if eq then a >= b else a > b)
  }

  function EqValue(env: Env, op: EqOp, a: Word, b: Word): bool {
    match op
    case Equal => a == b
    case NotEqual => a != b
    case Match => env.matches(a, b)
    case NotMatch => !env.matches(a, b)
  }

  // ----- the evaluator -----

  // What each level does with its two operands.  `ig` is IGNORE.

  function OrElse(p1: Int32, p2: Res<Int32>): Res<Int32> {
    if p2.Err? then p2 else Ok(Truth(p1 != 0 || p2.v != 0), p2.rest)
  }

  function AndThen(p1: Int32, p2: Res<Int32>): Res<Int32> {
    if p2.Err? then p2 else Ok(Truth(p1 != 0 && p2.v != 0), p2.rest)
  }

  function Bitwise(op: BitOp, p1: Int32, p2: Res<Int32>): Res<Int32> {
    if p2.Err? then p2 else Ok(BitValue(op, p1, p2.v), p2.rest)
  }

  // The number isa gives for the operator; it is left as the value when ignoring.
  function EqCode(op: EqOp): Int32 {
    match op
    case Equal => 1
    case NotEqual => 6
    case Match => 7
    case NotMatch => 8
  }

  function Equality(env: Env, op: EqOp, p1: Word, p2: Res<Word>, ig: bool): Res<Int32> {
    if p2.Err? then Err(p2.e)
    else Ok(if ig then EqCode(op) else Truth(EqValue(env, op, p1, p2.v)), p2.rest)
  }

  function ToNumber(p: Res<Word>): Res<Int32> {
    if p.Err? then Err(p.e)
    else if Egetn(p.v).Bad? then Err(Egetn(p.v).e)
    else Ok(Egetn(p.v).n, p.rest)
  }

  function RelCode(less: bool, eq: bool): Int32 {
    (if less then 4 else 2) + Truth(eq)
  }

  function Compare(less: bool, eq: bool, p1: Word, p2: Res<Word>, ig: bool): Res<Word> {
    if p2.Err? then p2
    else if ig then Ok(Putn(RelCode(less, eq)), p2.rest)
    else
      var n1 :- Egetn(p1);
      var n2 :- Egetn(p2.v);
      Ok(Putn(Truth(RelValue(less, eq, n1, n2))), p2.rest)
  }

  // The operands are read as numbers even when ignoring.
  function Shifted(env: Env, left: bool, p1: Word, p2: Res<Word>): Res<Word> {
    if p2.Err? then p2
    else
      var n1 :- Egetn(p1);
      var n2 :- Egetn(p2.v);
      Ok(Putn(ShiftValue(env, left, n1, n2)), p2.rest)
  }

  function Sum(op: char, p1: Word, p2: Res<Word>, ig: bool): Res<Word> {
    if p2.Err? then p2
    else if ig then Ok(Putn(0), p2.rest)
    else
      var n1 :- Egetn(p1);
      var n2 :- Egetn(p2.v);
      Ok(Putn(AddValue(op, n1, n2)), p2.rest)
  }

  function Product(op: char, p1: Word, p2: Res<Word>, ig: bool): Res<Word> {
    if p2.Err? then p2
    else if ig then Ok(Putn(0), p2.rest)
    else
      var n2 :- Egetn(p2.v);
      if DividesByZero(op, n2) then Err(if op == '/' then Div0 else Mod0)
      else
        var n1 :- Egetn(p1);
        Ok(Putn(MulValue(op, n1, n2)), p2.rest)
  }

  function Negation(p: Res<Word>): Res<Word> {
    if p.Err? then p
    else
      var n :- Egetn(p.v);
      Ok(Putn(Truth(n == 0)), p.rest)
  }

  function Complemented(p: Res<Word>): Res<Word> {
    if p.Err? then p
    else
      var n :- Egetn(p.v);
      Ok(Putn(-1 - n), p.rest)
  }

  function Closed(p: Res<Int32>): Res<Word> {
    if p.Err? then Err(p.e)
    else if p.rest == [] || At(p.rest[0], 0) != ')' then Err(Syntax)
    else Ok(Putn(p.v), p.rest[1..])
  }

  // The words up to }.
  function Command(ws: seq<Word>): (r: Res<seq<Word>>)
    ensures r.Ok? ==> |r.rest| < |ws|
  {
    if ws == [] then Err(MissingBrace)
    else if One(ws, '}') then Ok([], ws[1..])
    else
      var (c, rest) :- Command(ws[1..]);
      Ok([ws[0]] + c, rest)
  }

  predicate Inquires(w: Word) {
    At(w, 0) == '-' && At(w, 1) in "erwxfdzopls"
  }

  // An operand that is no expression of its own: a command, an inquiry, a word, or
  // nothing where an operator stands.  `ng` is NOGLOB.
  function Operand(env: Env, ws: seq<Word>, ig: bool, ng: bool): (r: Res<Word>)
    requires ws != []
    ensures r.Ok? ==> |r.rest| <= |ws|
  {
    if One(ws, '{') then
      var (v, rest) :- Command(ws[1..]);
      Ok(if ig then "" else Putn(Truth(env.run(v))), rest)
    else if IsAny(ws) then Ok("", ws)
    else if Inquires(ws[0]) then
      if |ws[0]| > 2 then Err(FileInq)
      else if |ws| == 1 || (IsAny(ws[1..]) && !env.exists_(ws[1])) then Err(FileName)
      else if ig then Ok("", ws[2..])
      else match env.glob(ws[1])
           case None => Err(NoMatch)
           case Some(ep) => Ok(Putn(env.inquire(At(ws[0], 1), ep)), ws[2..])
    else if ng then Ok(ws[0], ws[1..])
    else match env.glob(ws[0])
         case None => Err(NoMatch)
         case Some(w) => Ok(w, ws[1..])
  }

  function Exp0(env: Env, ws: seq<Word>, ig: bool, ng: bool): (r: Res<Int32>)
    ensures r.Ok? ==> |r.rest| <= |ws|
    decreases |ws|, 10
  {
    var p := Exp1(env, ws, ig, ng);
    if p.Ok? && Two(p.rest, '|', '|') then OrElse(p.v, Exp0(env, p.rest[1..], ig || p.v != 0, false))
    else p
  }

  function Exp1(env: Env, ws: seq<Word>, ig: bool, ng: bool): (r: Res<Int32>)
    ensures r.Ok? ==> |r.rest| <= |ws|
    decreases |ws|, 9
  {
    var p := Exp2(env, ws, ig, ng);
    if p.Ok? && Two(p.rest, '&', '&') then AndThen(p.v, Exp1(env, p.rest[1..], ig || p.v == 0, false))
    else p
  }

  function Exp2(env: Env, ws: seq<Word>, ig: bool, ng: bool): (r: Res<Int32>)
    ensures r.Ok? ==> |r.rest| <= |ws|
    decreases |ws|, 8
  {
    var p := Exp2a(env, ws, ig, ng);
    if p.Ok? && One(p.rest, '|') then Bitwise(BitOr, p.v, Exp2(env, p.rest[1..], ig, ng))
    else p
  }

  function Exp2a(env: Env, ws: seq<Word>, ig: bool, ng: bool): (r: Res<Int32>)
    ensures r.Ok? ==> |r.rest| <= |ws|
    decreases |ws|, 7
  {
    var p := Exp2b(env, ws, ig, ng);
    if p.Ok? && One(p.rest, '^') then Bitwise(BitXor, p.v, Exp2a(env, p.rest[1..], ig, ng))
    else p
  }

  function Exp2b(env: Env, ws: seq<Word>, ig: bool, ng: bool): (r: Res<Int32>)
    ensures r.Ok? ==> |r.rest| <= |ws|
    decreases |ws|, 6
  {
    var p := Exp2c(env, ws, ig, ng);
    if p.Ok? && One(p.rest, '&') then Bitwise(BitAnd, p.v, Exp2b(env, p.rest[1..], ig, ng))
    else p
  }

  function Exp2c(env: Env, ws: seq<Word>, ig: bool, ng: bool): (r: Res<Int32>)
    ensures r.Ok? ==> |r.rest| <= |ws|
    decreases |ws|, 5
  {
    var p := Exp3(env, ws, ig, ng);
    if p.Ok? && IsEq(p.rest).Some? then
      var op := IsEq(p.rest).value;
      Equality(env, op, p.v, Exp3(env, p.rest[1..], ig, ng || IsMatch(op)), ig)
    else ToNumber(p)
  }

  predicate IsMatch(op: EqOp) {
    op == Match || op == NotMatch
  }

  // How many words a comparison takes: = may follow.
  function RelWords(ws: seq<Word>): (n: nat)
    requires IsRel(ws)
    ensures 1 <= n <= |ws|
  {
    if One(ws[1..], '=') then 2 else 1
  }

  function Exp3(env: Env, ws: seq<Word>, ig: bool, ng: bool): (r: Res<Word>)
    ensures r.Ok? ==> |r.rest| <= |ws|
    decreases |ws|, 4
  {
    var p := Exp3a(env, ws, ig, ng);
    if p.Ok? && IsRel(p.rest) then
      Compare(At(p.rest[0], 0) == '<', RelWords(p.rest) == 2, p.v, Exp3(env, p.rest[RelWords(p.rest)..], ig, ng), ig)
    else p
  }

  function Exp3a(env: Env, ws: seq<Word>, ig: bool, ng: bool): (r: Res<Word>)
    ensures r.Ok? ==> |r.rest| <= |ws|
    decreases |ws|, 3
  {
    var p := Exp4(env, ws, ig, ng);
    if p.Ok? && IsShift(p.rest) then Shifted(env, At(p.rest[0], 0) == '<', p.v, Exp3a(env, p.rest[1..], ig, ng))
    else p
  }

  function Exp4(env: Env, ws: seq<Word>, ig: bool, ng: bool): (r: Res<Word>)
    ensures r.Ok? ==> |r.rest| <= |ws|
    decreases |ws|, 2
  {
    var p := Exp5(env, ws, ig, ng);
    if p.Ok? && IsAdd(p.rest) then Sum(p.rest[0][0], p.v, Exp4(env, p.rest[1..], ig, ng), ig)
    else p
  }

  function Exp5(env: Env, ws: seq<Word>, ig: bool, ng: bool): (r: Res<Word>)
    ensures r.Ok? ==> |r.rest| <= |ws|
    decreases |ws|, 1
  {
    var p := Exp6(env, ws, ig, ng);
    if p.Ok? && IsMul(p.rest) then Product(p.rest[0][0], p.v, Exp5(env, p.rest[1..], ig, ng), ig)
    else p
  }

  function Exp6(env: Env, ws: seq<Word>, ig: bool, ng: bool): (r: Res<Word>)
    ensures r.Ok? ==> |r.rest| <= |ws|
    decreases |ws|, 0
  {
    if ws == [] then Err(Syntax)
    else if One(ws, '!') then Negation(Exp6(env, ws[1..], ig, ng))
    else if One(ws, '~') then Complemented(Exp6(env, ws[1..], ig, ng))
    else if One(ws, '(') then Closed(Exp0(env, ws[1..], ig, ng))
    else Operand(env, ws, ig, ng)
  }

  // ----- the tree of an expression -----

  datatype Operator =
    | Disjoin
    | Conjoin
    | Bit(b: BitOp)
    | Eq(e: EqOp)
    | Rel(w: Word, eq: bool)
    | Shift(w: Word)
    | Add(w: Word)
    | Mul(w: Word)

  datatype Prefix =
    | Number                                     // a string taken as a number
    | Not
    | Complement
    | Group(close: Word)

  datatype Atom =
    | Run(ws: seq<Word>)
    | Blank                                      // an operator where an operand should be
    | File(w: Word, name: Word)
    | Literal(w: Word, ng: bool)

  datatype Tree =
    | Binary(op: Operator, l: Tree, r: Tree)
    | Unary(pre: Prefix, t: Tree)
    | Leaf(a: Atom)

  // ----- its value -----

  datatype Val = Str(s: Word) | Int(n: Int32)

  function AsNum(v: Val): Num {
    match v
    case Str(s) => Egetn(s)
    case Int(n) => N(n)
  }

  function AsStr(v: Val): Word {
    match v
    case Str(s) => s
    case Int(n) => Putn(n)
  }

  function NumOf(v: Option<Val>): Option<Int32> {
    if v.Some? && AsNum(v.value).N? then Some(AsNum(v.value).n) else None
  }

  // The operators on two numbers; None is a division by zero.
  function Apply(env: Env, op: Operator, a: Int32, b: Int32): Option<Int32> {
    match op
    case Disjoin => Some(Truth(a != 0 || b != 0))
    case Conjoin => Some(Truth(a != 0 && b != 0))
    case Bit(o) => Some(BitValue(o, a, b))
    case Eq(e) => Some(Truth(EqValue(env, e, Putn(a), Putn(b))))
    case Rel(w, eq) => Some(Truth(RelValue(At(w, 0) == '<', eq, a, b)))
    case Shift(w) => Some(ShiftValue(env, At(w, 0) == '<', a, b))
    case Add(w) => Some(AddValue(At(w, 0), a, b))
    case Mul(w) => if DividesByZero(At(w, 0), b) then None else Some(MulValue(At(w, 0), a, b))
  }

  // Numbers stay numbers; the right side of || and && is not looked at where the left
  // side decides; == compares strings.
  function BinaryValue(env: Env, op: Operator, l: Option<Val>, r: Option<Val>): Option<Val> {
    if op.Disjoin? && NumOf(l).Some? && NumOf(l).value != 0 then Some(Int(1))
    else if op.Conjoin? && NumOf(l).Some? && NumOf(l).value == 0 then Some(Int(0))
    else if op.Eq? then
      if l.Some? && r.Some? then Some(Int(Truth(EqValue(env, op.e, AsStr(l.value), AsStr(r.value))))) else None
    else if NumOf(l).Some? && NumOf(r).Some? && Apply(env, op, NumOf(l).value, NumOf(r).value).Some? then
      Some(Int(Apply(env, op, NumOf(l).value, NumOf(r).value).value))
    else None
  }

  function UnaryValue(pre: Prefix, v: Option<Val>): Option<Val> {
    if pre.Group? then v
    else
      match NumOf(v)
      case None => None
      case Some(n) => Some(Int(match pre
                               case Not => Truth(n == 0)
                               case Complement => -1 - n
                               case _ => n))
  }

  function AtomValue(env: Env, a: Atom): Option<Val> {
    match a
    case Run(ws) => Some(Int(Truth(env.run(ws))))
    case Blank => Some(Str(""))
    case File(w, name) =>
      (match env.glob(name)
       case Some(ep) => Some(Int(env.inquire(At(w, 1), ep)))
       case None => None)
    case Literal(w, ng) =>
      if ng then Some(Str(w))
      else (match env.glob(w) case Some(s) => Some(Str(s)) case None => None)
  }

  // None if the expression has no value.
  function Value(env: Env, t: Tree): Option<Val> {
    match t
    case Binary(op, l, r) => BinaryValue(env, op, Value(env, l), Value(env, r))
    case Unary(pre, t) => UnaryValue(pre, Value(env, t))
    case Leaf(a) => AtomValue(env, a)
  }

  // ----- the tree of words -----

  // The parts of exp0 to exp6 that read words, without those that compute.

  function Node(op: Operator, l: Tree, r: Res<Tree>): Res<Tree> {
    if r.Err? then r else Ok(Binary(op, l, r.v), r.rest)
  }

  function Over(pre: Prefix, t: Res<Tree>): Res<Tree> {
    if t.Err? then t else Ok(Unary(pre, t.v), t.rest)
  }

  function ClosedTree(t: Res<Tree>): Res<Tree> {
    if t.Err? then t
    else if t.rest == [] || At(t.rest[0], 0) != ')' then Err(Syntax)
    else Ok(Unary(Group(t.rest[0]), t.v), t.rest[1..])
  }

  function OperandTree(env: Env, ws: seq<Word>, ng: bool): (r: Res<Tree>)
    requires ws != []
    ensures r.Ok? ==> |r.rest| <= |ws|
  {
    if One(ws, '{') then
      var (v, rest) :- Command(ws[1..]);
      Ok(Leaf(Run(v)), rest)
    else if IsAny(ws) then Ok(Leaf(Blank), ws)
    else if Inquires(ws[0]) then
      if |ws[0]| > 2 then Err(FileInq)
      else if |ws| == 1 || (IsAny(ws[1..]) && !env.exists_(ws[1])) then Err(FileName)
      else Ok(Leaf(File(ws[0], ws[1])), ws[2..])
    else Ok(Leaf(Literal(ws[0], ng)), ws[1..])
  }

  function Tree0(env: Env, ws: seq<Word>, ng: bool): (r: Res<Tree>)
    ensures r.Ok? ==> |r.rest| <= |ws|
    decreases |ws|, 10
  {
    var t := Tree1(env, ws, ng);
    if t.Ok? && Two(t.rest, '|', '|') then Node(Disjoin, t.v, Tree0(env, t.rest[1..], false))
    else t
  }

  function Tree1(env: Env, ws: seq<Word>, ng: bool): (r: Res<Tree>)
    ensures r.Ok? ==> |r.rest| <= |ws|
    decreases |ws|, 9
  {
    var t := Tree2(env, ws, ng);
    if t.Ok? && Two(t.rest, '&', '&') then Node(Conjoin, t.v, Tree1(env, t.rest[1..], false))
    else t
  }

  function Tree2(env: Env, ws: seq<Word>, ng: bool): (r: Res<Tree>)
    ensures r.Ok? ==> |r.rest| <= |ws|
    decreases |ws|, 8
  {
    var t := Tree2a(env, ws, ng);
    if t.Ok? && One(t.rest, '|') then Node(Bit(BitOr), t.v, Tree2(env, t.rest[1..], ng))
    else t
  }

  function Tree2a(env: Env, ws: seq<Word>, ng: bool): (r: Res<Tree>)
    ensures r.Ok? ==> |r.rest| <= |ws|
    decreases |ws|, 7
  {
    var t := Tree2b(env, ws, ng);
    if t.Ok? && One(t.rest, '^') then Node(Bit(BitXor), t.v, Tree2a(env, t.rest[1..], ng))
    else t
  }

  function Tree2b(env: Env, ws: seq<Word>, ng: bool): (r: Res<Tree>)
    ensures r.Ok? ==> |r.rest| <= |ws|
    decreases |ws|, 6
  {
    var t := Tree2c(env, ws, ng);
    if t.Ok? && One(t.rest, '&') then Node(Bit(BitAnd), t.v, Tree2b(env, t.rest[1..], ng))
    else t
  }

  function Tree2c(env: Env, ws: seq<Word>, ng: bool): (r: Res<Tree>)
    ensures r.Ok? ==> |r.rest| <= |ws|
    decreases |ws|, 5
  {
    var t := Tree3(env, ws, ng);
    if t.Ok? && IsEq(t.rest).Some? then
      Node(Eq(IsEq(t.rest).value), t.v, Tree3(env, t.rest[1..], ng || IsMatch(IsEq(t.rest).value)))
    else Over(Number, t)
  }

  function Tree3(env: Env, ws: seq<Word>, ng: bool): (r: Res<Tree>)
    ensures r.Ok? ==> |r.rest| <= |ws|
    decreases |ws|, 4
  {
    var t := Tree3a(env, ws, ng);
    if t.Ok? && IsRel(t.rest) then
      Node(Rel(t.rest[0], RelWords(t.rest) == 2), t.v, Tree3(env, t.rest[RelWords(t.rest)..], ng))
    else t
  }

  function Tree3a(env: Env, ws: seq<Word>, ng: bool): (r: Res<Tree>)
    ensures r.Ok? ==> |r.rest| <= |ws|
    decreases |ws|, 3
  {
    var t := Tree4(env, ws, ng);
    if t.Ok? && IsShift(t.rest) then Node(Shift(t.rest[0]), t.v, Tree3a(env, t.rest[1..], ng))
    else t
  }

  function Tree4(env: Env, ws: seq<Word>, ng: bool): (r: Res<Tree>)
    ensures r.Ok? ==> |r.rest| <= |ws|
    decreases |ws|, 2
  {
    var t := Tree5(env, ws, ng);
    if t.Ok? && IsAdd(t.rest) then Node(Add(t.rest[0]), t.v, Tree4(env, t.rest[1..], ng))
    else t
  }

  function Tree5(env: Env, ws: seq<Word>, ng: bool): (r: Res<Tree>)
    ensures r.Ok? ==> |r.rest| <= |ws|
    decreases |ws|, 1
  {
    var t := Tree6(env, ws, ng);
    if t.Ok? && IsMul(t.rest) then Node(Mul(t.rest[0]), t.v, Tree5(env, t.rest[1..], ng))
    else t
  }

  function Tree6(env: Env, ws: seq<Word>, ng: bool): (r: Res<Tree>)
    ensures r.Ok? ==> |r.rest| <= |ws|
    decreases |ws|, 0
  {
    if ws == [] then Err(Syntax)
    else if One(ws, '!') then Over(Not, Tree6(env, ws[1..], ng))
    else if One(ws, '~') then Over(Complement, Tree6(env, ws[1..], ng))
    else if One(ws, '(') then ClosedTree(Tree0(env, ws[1..], ng))
    else OperandTree(env, ws, ng)
  }

  // ----- the evaluator computes the value of the tree -----

  // A number is the same whether it is carried as a number or as a string.
  lemma CarriedNumber(v: Val)
    ensures Egetn(AsStr(v)) == AsNum(v)
  {
    if v.Int? {
      GetPut(v.n);
      PutFirst(v.n);
    }
  }

  lemma PutFirst(n: Int32)
    ensures Putn(n) != "" && (Putn(n)[0] == '-' || IsDigit(Putn(n)[0]))
  {
    if n >= 0 {
      PutDigitsFirst(n);
    }
  }

  // What the evaluator gave agrees with a value the tree has and the words it leaves: it
  // took the same words, and if it was not ignoring, the values are the same.
  ghost predicate AgreesInt(r: Res<Int32>, v: Option<Val>, rest: seq<Word>, ig: bool) {
    r.Ok? && r.rest == rest && (!ig ==> v == Some(Int(r.v)))
  }

  ghost predicate AgreesStr(r: Res<Word>, v: Option<Val>, rest: seq<Word>, ig: bool) {
    r.Ok? && r.rest == rest && (!ig ==> v.Some? && AsStr(v.value) == r.v)
  }

  lemma OrAgrees(env: Env, p1: Int32, v1: Option<Val>, p2: Res<Int32>, v2: Option<Val>, rest: seq<Word>, ig: bool)
    requires (!ig ==> v1 == Some(Int(p1))) && AgreesInt(p2, v2, rest, ig || p1 != 0)
    ensures AgreesInt(OrElse(p1, p2), BinaryValue(env, Disjoin, v1, v2), rest, ig)
  {
  }

  lemma AndAgrees(env: Env, p1: Int32, v1: Option<Val>, p2: Res<Int32>, v2: Option<Val>, rest: seq<Word>, ig: bool)
    requires (!ig ==> v1 == Some(Int(p1))) && AgreesInt(p2, v2, rest, ig || p1 == 0)
    ensures AgreesInt(AndThen(p1, p2), BinaryValue(env, Conjoin, v1, v2), rest, ig)
  {
  }

  lemma BitAgrees(env: Env, op: BitOp, p1: Int32, v1: Option<Val>, p2: Res<Int32>, v2: Option<Val>, rest: seq<Word>, ig: bool)
    requires (!ig ==> v1 == Some(Int(p1))) && AgreesInt(p2, v2, rest, ig)
    ensures AgreesInt(Bitwise(op, p1, p2), BinaryValue(env, Bit(op), v1, v2), rest, ig)
  {
  }

  lemma EqAgrees(env: Env, op: EqOp, p1: Word, v1: Option<Val>, p2: Res<Word>, v2: Option<Val>, rest: seq<Word>, ig: bool)
    requires (!ig ==> v1.Some? && AsStr(v1.value) == p1) && AgreesStr(p2, v2, rest, ig)
    ensures AgreesInt(Equality(env, op, p1, p2, ig), BinaryValue(env, Eq(op), v1, v2), rest, ig)
  {
  }

  lemma NumberAgrees(p: Res<Word>, v: Option<Val>, rest: seq<Word>, ig: bool)
    requires AgreesStr(p, v, rest, ig) && ToNumber(p).Ok?
    ensures AgreesInt(ToNumber(p), UnaryValue(Number, v), rest, ig)
  {
    if !ig {
      CarriedNumber(v.value);
    }
  }

  lemma RelAgrees(env: Env, w: Word, eq: bool, p1: Word, v1: Option<Val>, p2: Res<Word>, v2: Option<Val>, rest: seq<Word>, ig: bool)
    requires (!ig ==> v1.Some? && AsStr(v1.value) == p1) && AgreesStr(p2, v2, rest, ig)
    requires Compare(At(w, 0) == '<', eq, p1, p2, ig).Ok?
    ensures AgreesStr(Compare(At(w, 0) == '<', eq, p1, p2, ig), BinaryValue(env, Rel(w, eq), v1, v2), rest, ig)
  {
    if !ig {
      CarriedNumber(v1.value);
      CarriedNumber(v2.value);
    }
  }

  lemma ShiftAgrees(env: Env, w: Word, p1: Word, v1: Option<Val>, p2: Res<Word>, v2: Option<Val>, rest: seq<Word>, ig: bool)
    requires (!ig ==> v1.Some? && AsStr(v1.value) == p1) && AgreesStr(p2, v2, rest, ig)
    requires Shifted(env, At(w, 0) == '<', p1, p2).Ok?
    ensures AgreesStr(Shifted(env, At(w, 0) == '<', p1, p2), BinaryValue(env, Shift(w), v1, v2), rest, ig)
  {
    if !ig {
      CarriedNumber(v1.value);
      CarriedNumber(v2.value);
    }
  }

  lemma SumAgrees(env: Env, w: Word, p1: Word, v1: Option<Val>, p2: Res<Word>, v2: Option<Val>, rest: seq<Word>, ig: bool)
    requires (!ig ==> v1.Some? && AsStr(v1.value) == p1) && AgreesStr(p2, v2, rest, ig)
    requires Sum(At(w, 0), p1, p2, ig).Ok?
    ensures AgreesStr(Sum(At(w, 0), p1, p2, ig), BinaryValue(env, Add(w), v1, v2), rest, ig)
  {
    if !ig {
      CarriedNumber(v1.value);
      CarriedNumber(v2.value);
    }
  }

  lemma ProductAgrees(env: Env, w: Word, p1: Word, v1: Option<Val>, p2: Res<Word>, v2: Option<Val>, rest: seq<Word>, ig: bool)
    requires (!ig ==> v1.Some? && AsStr(v1.value) == p1) && AgreesStr(p2, v2, rest, ig)
    requires Product(At(w, 0), p1, p2, ig).Ok?
    ensures AgreesStr(Product(At(w, 0), p1, p2, ig), BinaryValue(env, Mul(w), v1, v2), rest, ig)
  {
    if !ig {
      CarriedNumber(v1.value);
      CarriedNumber(v2.value);
    }
  }

  // The evaluator, if it ends without an error, agrees with the tree of its words.
  ghost predicate FollowsInt(env: Env, r: Res<Int32>, t: Res<Tree>, ig: bool) {
    r.Ok? ==> t.Ok? && AgreesInt(r, Value(env, t.v), t.rest, ig)
  }

  ghost predicate FollowsStr(env: Env, r: Res<Word>, t: Res<Tree>, ig: bool) {
    r.Ok? ==> t.Ok? && AgreesStr(r, Value(env, t.v), t.rest, ig)
  }

  lemma {:induction false} Follows0(env: Env, ws: seq<Word>, ig: bool, ng: bool)
    ensures FollowsInt(env, Exp0(env, ws, ig, ng), Tree0(env, ws, ng), ig)
    decreases |ws|, 10
  {
    Follows1(env, ws, ig, ng);
    var p, t := Exp1(env, ws, ig, ng), Tree1(env, ws, ng);
    if p.Ok? && Two(p.rest, '|', '|') {
      Follows0(env, p.rest[1..], ig || p.v != 0, false);
      var p2, t2 := Exp0(env, p.rest[1..], ig || p.v != 0, false), Tree0(env, p.rest[1..], false);
      if p2.Ok? {
        OrAgrees(env, p.v, Value(env, t.v), p2, Value(env, t2.v), t2.rest, ig);
      }
    }
  }

  lemma {:induction false} Follows1(env: Env, ws: seq<Word>, ig: bool, ng: bool)
    ensures FollowsInt(env, Exp1(env, ws, ig, ng), Tree1(env, ws, ng), ig)
    decreases |ws|, 9
  {
    Follows2(env, ws, ig, ng);
    var p, t := Exp2(env, ws, ig, ng), Tree2(env, ws, ng);
    if p.Ok? && Two(p.rest, '&', '&') {
      Follows1(env, p.rest[1..], ig || p.v == 0, false);
      var p2, t2 := Exp1(env, p.rest[1..], ig || p.v == 0, false), Tree1(env, p.rest[1..], false);
      if p2.Ok? {
        AndAgrees(env, p.v, Value(env, t.v), p2, Value(env, t2.v), t2.rest, ig);
      }
    }
  }

  lemma {:induction false} Follows2(env: Env, ws: seq<Word>, ig: bool, ng: bool)
    ensures FollowsInt(env, Exp2(env, ws, ig, ng), Tree2(env, ws, ng), ig)
    decreases |ws|, 8
  {
    Follows2a(env, ws, ig, ng);
    var p, t := Exp2a(env, ws, ig, ng), Tree2a(env, ws, ng);
    if p.Ok? && One(p.rest, '|') {
      Follows2(env, p.rest[1..], ig, ng);
      var p2, t2 := Exp2(env, p.rest[1..], ig, ng), Tree2(env, p.rest[1..], ng);
      if p2.Ok? {
        BitAgrees(env, BitOr, p.v, Value(env, t.v), p2, Value(env, t2.v), t2.rest, ig);
      }
    }
  }

  lemma {:induction false} Follows2a(env: Env, ws: seq<Word>, ig: bool, ng: bool)
    ensures FollowsInt(env, Exp2a(env, ws, ig, ng), Tree2a(env, ws, ng), ig)
    decreases |ws|, 7
  {
    Follows2b(env, ws, ig, ng);
    var p, t := Exp2b(env, ws, ig, ng), Tree2b(env, ws, ng);
    if p.Ok? && One(p.rest, '^') {
      Follows2a(env, p.rest[1..], ig, ng);
      var p2, t2 := Exp2a(env, p.rest[1..], ig, ng), Tree2a(env, p.rest[1..], ng);
      if p2.Ok? {
        BitAgrees(env, BitXor, p.v, Value(env, t.v), p2, Value(env, t2.v), t2.rest, ig);
      }
    }
  }

  lemma {:induction false} Follows2b(env: Env, ws: seq<Word>, ig: bool, ng: bool)
    ensures FollowsInt(env, Exp2b(env, ws, ig, ng), Tree2b(env, ws, ng), ig)
    decreases |ws|, 6
  {
    Follows2c(env, ws, ig, ng);
    var p, t := Exp2c(env, ws, ig, ng), Tree2c(env, ws, ng);
    if p.Ok? && One(p.rest, '&') {
      Follows2b(env, p.rest[1..], ig, ng);
      var p2, t2 := Exp2b(env, p.rest[1..], ig, ng), Tree2b(env, p.rest[1..], ng);
      if p2.Ok? {
        BitAgrees(env, BitAnd, p.v, Value(env, t.v), p2, Value(env, t2.v), t2.rest, ig);
      }
    }
  }

  lemma {:induction false} Follows2c(env: Env, ws: seq<Word>, ig: bool, ng: bool)
    ensures FollowsInt(env, Exp2c(env, ws, ig, ng), Tree2c(env, ws, ng), ig)
    decreases |ws|, 5
  {
    Follows3(env, ws, ig, ng);
    var p, t := Exp3(env, ws, ig, ng), Tree3(env, ws, ng);
    if p.Ok? && IsEq(p.rest).Some? {
      var op := IsEq(p.rest).value;
      Follows3(env, p.rest[1..], ig, ng || IsMatch(op));
      var p2, t2 := Exp3(env, p.rest[1..], ig, ng || IsMatch(op)), Tree3(env, p.rest[1..], ng || IsMatch(op));
      if p2.Ok? {
        EqAgrees(env, op, p.v, Value(env, t.v), p2, Value(env, t2.v), t2.rest, ig);
      }
    } else if ToNumber(p).Ok? {
      NumberAgrees(p, Value(env, t.v), t.rest, ig);
    }
  }

  lemma {:induction false} Follows3(env: Env, ws: seq<Word>, ig: bool, ng: bool)
    ensures FollowsStr(env, Exp3(env, ws, ig, ng), Tree3(env, ws, ng), ig)
    decreases |ws|, 4
  {
    Follows3a(env, ws, ig, ng);
    var p, t := Exp3a(env, ws, ig, ng), Tree3a(env, ws, ng);
    if p.Ok? && IsRel(p.rest) {
      var w, n := p.rest[0], RelWords(p.rest);
      Follows3(env, p.rest[n..], ig, ng);
      var p2, t2 := Exp3(env, p.rest[n..], ig, ng), Tree3(env, p.rest[n..], ng);
      if p2.Ok? && Compare(At(w, 0) == '<', n == 2, p.v, p2, ig).Ok? {
        RelAgrees(env, w, n == 2, p.v, Value(env, t.v), p2, Value(env, t2.v), t2.rest, ig);
      }
    }
  }

  lemma {:induction false} Follows3a(env: Env, ws: seq<Word>, ig: bool, ng: bool)
    ensures FollowsStr(env, Exp3a(env, ws, ig, ng), Tree3a(env, ws, ng), ig)
    decreases |ws|, 3
  {
    Follows4(env, ws, ig, ng);
    var p, t := Exp4(env, ws, ig, ng), Tree4(env, ws, ng);
    if p.Ok? && IsShift(p.rest) {
      var w := p.rest[0];
      Follows3a(env, p.rest[1..], ig, ng);
      var p2, t2 := Exp3a(env, p.rest[1..], ig, ng), Tree3a(env, p.rest[1..], ng);
      if p2.Ok? && Shifted(env, At(w, 0) == '<', p.v, p2).Ok? {
        ShiftAgrees(env, w, p.v, Value(env, t.v), p2, Value(env, t2.v), t2.rest, ig);
      }
    }
  }

  lemma {:induction false} Follows4(env: Env, ws: seq<Word>, ig: bool, ng: bool)
    ensures FollowsStr(env, Exp4(env, ws, ig, ng), Tree4(env, ws, ng), ig)
    decreases |ws|, 2
  {
    Follows5(env, ws, ig, ng);
    var p, t := Exp5(env, ws, ig, ng), Tree5(env, ws, ng);
    if p.Ok? && IsAdd(p.rest) {
      var w := p.rest[0];
      Follows4(env, p.rest[1..], ig, ng);
      var p2, t2 := Exp4(env, p.rest[1..], ig, ng), Tree4(env, p.rest[1..], ng);
      if p2.Ok? && Sum(At(w, 0), p.v, p2, ig).Ok? {
        SumAgrees(env, w, p.v, Value(env, t.v), p2, Value(env, t2.v), t2.rest, ig);
      }
    }
  }

  lemma {:induction false} Follows5(env: Env, ws: seq<Word>, ig: bool, ng: bool)
    ensures FollowsStr(env, Exp5(env, ws, ig, ng), Tree5(env, ws, ng), ig)
    decreases |ws|, 1
  {
    Follows6(env, ws, ig, ng);
    var p, t := Exp6(env, ws, ig, ng), Tree6(env, ws, ng);
    if p.Ok? && IsMul(p.rest) {
      var w := p.rest[0];
      Follows5(env, p.rest[1..], ig, ng);
      var p2, t2 := Exp5(env, p.rest[1..], ig, ng), Tree5(env, p.rest[1..], ng);
      if p2.Ok? && Product(At(w, 0), p.v, p2, ig).Ok? {
        ProductAgrees(env, w, p.v, Value(env, t.v), p2, Value(env, t2.v), t2.rest, ig);
      }
    }
  }

  lemma {:induction false} Follows6(env: Env, ws: seq<Word>, ig: bool, ng: bool)
    ensures FollowsStr(env, Exp6(env, ws, ig, ng), Tree6(env, ws, ng), ig)
    decreases |ws|, 0
  {
    if ws == [] {
    } else if One(ws, '!') || One(ws, '~') {
      Follows6(env, ws[1..], ig, ng);
      PrefixFollows(env, Exp6(env, ws[1..], ig, ng), Tree6(env, ws[1..], ng), ig);
    } else if One(ws, '(') {
      Follows0(env, ws[1..], ig, ng);
    } else {
      OperandFollows(env, ws, ig, ng);
    }
  }

  lemma PrefixFollows(env: Env, p: Res<Word>, t: Res<Tree>, ig: bool)
    requires FollowsStr(env, p, t, ig)
    ensures FollowsStr(env, Negation(p), Over(Not, t), ig)
    ensures FollowsStr(env, Complemented(p), Over(Complement, t), ig)
  {
    if p.Ok? && !ig {
      var v := Value(env, t.v);
      CarriedNumber(v.value);
      assert NumOf(v) == if Egetn(p.v).N? then Some(Egetn(p.v).n) else None;
    }
  }

  lemma OperandFollows(env: Env, ws: seq<Word>, ig: bool, ng: bool)
    requires ws != []
    ensures FollowsStr(env, Operand(env, ws, ig, ng), OperandTree(env, ws, ng), ig)
  {
  }

  // ----- where the evaluator raises no error -----

  // Every part of the tree has a value of the kind its place asks for.
  predicate Sound(env: Env, t: Tree) {
    match t
    case Binary(op, l, r) =>
      Sound(env, l) && Sound(env, r) && (op.Eq? || (Numeric(env, l) && Numeric(env, r))) &&
      (op.Mul? && Numeric(env, r) ==> !DividesByZero(At(op.w, 0), NumOf(Value(env, r)).value))
    case Unary(pre, t) => Sound(env, t) && (pre.Group? || Numeric(env, t))
    case Leaf(a) => AtomValue(env, a).Some?
  }

  predicate Numeric(env: Env, t: Tree) {
    NumOf(Value(env, t)).Some?
  }

  // The evaluator got through, and gave a number where the tree has one.
  ghost predicate Through(env: Env, r: Res<Word>, t: Tree) {
    r.Ok? && (Numeric(env, t) ==> Egetn(r.v).N?)
  }

  lemma NumberThrough(n: Int32)
    ensures Egetn(Putn(n)).N?
  {
    CarriedNumber(Int(n));
  }

  lemma OperandThrough(env: Env, ws: seq<Word>, ig: bool, ng: bool)
    requires ws != [] && OperandTree(env, ws, ng).Ok? && Sound(env, OperandTree(env, ws, ng).v)
    ensures Through(env, Operand(env, ws, ig, ng), OperandTree(env, ws, ng).v)
  {
    var r := Operand(env, ws, ig, ng);
    assert r.Ok?;
    assert Egetn("").N?;
    if r.v != "" && !OperandTree(env, ws, ng).v.a.Literal? {
      if One(ws, '{') {
        NumberThrough(Truth(env.run(Command(ws[1..]).v)));
      } else {
        NumberThrough(env.inquire(At(ws[0], 1), env.glob(ws[1]).value));
      }
    }
  }

  lemma PrefixThrough(env: Env, p: Res<Word>, t: Tree)
    requires Through(env, p, t) && Numeric(env, t)
    ensures Through(env, Negation(p), Unary(Not, t)) && Through(env, Complemented(p), Unary(Complement, t))
  {
    var n := Egetn(p.v).n;
    NumberThrough(Truth(n == 0));
    NumberThrough(-1 - n);
  }

  // The operators, given operands that are numbers.
  lemma CompareThrough(env: Env, less: bool, eq: bool, p1: Word, p2: Res<Word>, ig: bool, t: Tree)
    requires p2.Ok? && Egetn(p1).N? && Egetn(p2.v).N?
    ensures Through(env, Compare(less, eq, p1, p2, ig), t)
  {
    NumberThrough(if ig then RelCode(less, eq) else Truth(RelValue(less, eq, Egetn(p1).n, Egetn(p2.v).n)));
  }

  lemma ShiftThrough(env: Env, left: bool, p1: Word, p2: Res<Word>, ig: bool, t: Tree)
    requires p2.Ok? && Egetn(p1).N? && Egetn(p2.v).N?
    ensures Through(env, Shifted(env, left, p1, p2), t)
  {
    NumberThrough(ShiftValue(env, left, Egetn(p1).n, Egetn(p2.v).n));
  }

  lemma SumThrough(env: Env, op: char, p1: Word, p2: Res<Word>, ig: bool, t: Tree)
    requires p2.Ok? && Egetn(p1).N? && Egetn(p2.v).N?
    ensures Through(env, Sum(op, p1, p2, ig), t)
  {
    NumberThrough(if ig then 0 else AddValue(op, Egetn(p1).n, Egetn(p2.v).n));
  }

  lemma ProductThrough(env: Env, op: char, p1: Word, p2: Res<Word>, ig: bool, t: Tree)
    requires p2.Ok? && Egetn(p1).N? && Egetn(p2.v).N? && (ig || !DividesByZero(op, Egetn(p2.v).n))
    ensures Through(env, Product(op, p1, p2, ig), t)
  {
    NumberThrough(if ig then 0 else MulValue(op, Egetn(p1).n, Egetn(p2.v).n));
  }

  lemma {:induction false} Through0(env: Env, ws: seq<Word>, ig: bool, ng: bool)
    requires Tree0(env, ws, ng).Ok? && Sound(env, Tree0(env, ws, ng).v)
    ensures Exp0(env, ws, ig, ng).Ok?
    decreases |ws|, 10
  {
    var t := Tree1(env, ws, ng);
    Through1(env, ws, ig, ng);
    Follows1(env, ws, ig, ng);
    var p := Exp1(env, ws, ig, ng);
    if Two(t.rest, '|', '|') {
      Through0(env, t.rest[1..], ig || p.v != 0, false);
    }
  }

  lemma {:induction false} Through1(env: Env, ws: seq<Word>, ig: bool, ng: bool)
    requires Tree1(env, ws, ng).Ok? && Sound(env, Tree1(env, ws, ng).v)
    ensures Exp1(env, ws, ig, ng).Ok?
    decreases |ws|, 9
  {
    var t := Tree2(env, ws, ng);
    Through2(env, ws, ig, ng);
    Follows2(env, ws, ig, ng);
    var p := Exp2(env, ws, ig, ng);
    if Two(t.rest, '&', '&') {
      Through1(env, t.rest[1..], ig || p.v == 0, false);
    }
  }

  lemma {:induction false} Through2(env: Env, ws: seq<Word>, ig: bool, ng: bool)
    requires Tree2(env, ws, ng).Ok? && Sound(env, Tree2(env, ws, ng).v)
    ensures Exp2(env, ws, ig, ng).Ok?
    decreases |ws|, 8
  {
    var t := Tree2a(env, ws, ng);
    Through2a(env, ws, ig, ng);
    Follows2a(env, ws, ig, ng);
    var p := Exp2a(env, ws, ig, ng);
    if One(t.rest, '|') {
      Through2(env, t.rest[1..], ig, ng);
    }
  }

  lemma {:induction false} Through2a(env: Env, ws: seq<Word>, ig: bool, ng: bool)
    requires Tree2a(env, ws, ng).Ok? && Sound(env, Tree2a(env, ws, ng).v)
    ensures Exp2a(env, ws, ig, ng).Ok?
    decreases |ws|, 7
  {
    var t := Tree2b(env, ws, ng);
    Through2b(env, ws, ig, ng);
    Follows2b(env, ws, ig, ng);
    var p := Exp2b(env, ws, ig, ng);
    if One(t.rest, '^') {
      Through2a(env, t.rest[1..], ig, ng);
    }
  }

  lemma {:induction false} Through2b(env: Env, ws: seq<Word>, ig: bool, ng: bool)
    requires Tree2b(env, ws, ng).Ok? && Sound(env, Tree2b(env, ws, ng).v)
    ensures Exp2b(env, ws, ig, ng).Ok?
    decreases |ws|, 6
  {
    var t := Tree2c(env, ws, ng);
    Through2c(env, ws, ig, ng);
    Follows2c(env, ws, ig, ng);
    var p := Exp2c(env, ws, ig, ng);
    if One(t.rest, '&') {
      Through2b(env, t.rest[1..], ig, ng);
    }
  }

  lemma {:induction false} Through2c(env: Env, ws: seq<Word>, ig: bool, ng: bool)
    requires Tree2c(env, ws, ng).Ok? && Sound(env, Tree2c(env, ws, ng).v)
    ensures Exp2c(env, ws, ig, ng).Ok?
    decreases |ws|, 5
  {
    var t := Tree3(env, ws, ng);
    Through3(env, ws, ig, ng);
    Follows3(env, ws, ig, ng);
    var p := Exp3(env, ws, ig, ng);
    if IsEq(t.rest).Some? {
      Through3(env, t.rest[1..], ig, ng || IsMatch(IsEq(t.rest).value));
    }
  }

  lemma {:induction false} Through3(env: Env, ws: seq<Word>, ig: bool, ng: bool)
    requires Tree3(env, ws, ng).Ok? && Sound(env, Tree3(env, ws, ng).v)
    ensures Through(env, Exp3(env, ws, ig, ng), Tree3(env, ws, ng).v)
    decreases |ws|, 4
  {
    var t := Tree3a(env, ws, ng);
    Through3a(env, ws, ig, ng);
    Follows3a(env, ws, ig, ng);
    var p := Exp3a(env, ws, ig, ng);
    if IsRel(t.rest) {
      var n := RelWords(t.rest);
      Through3(env, t.rest[n..], ig, ng);
      CompareThrough(env, At(t.rest[0], 0) == '<', n == 2, p.v, Exp3(env, t.rest[n..], ig, ng), ig, Tree3(env, ws, ng).v);
    }
  }

  lemma {:induction false} Through3a(env: Env, ws: seq<Word>, ig: bool, ng: bool)
    requires Tree3a(env, ws, ng).Ok? && Sound(env, Tree3a(env, ws, ng).v)
    ensures Through(env, Exp3a(env, ws, ig, ng), Tree3a(env, ws, ng).v)
    decreases |ws|, 3
  {
    var t := Tree4(env, ws, ng);
    Through4(env, ws, ig, ng);
    Follows4(env, ws, ig, ng);
    var p := Exp4(env, ws, ig, ng);
    if IsShift(t.rest) {
      Through3a(env, t.rest[1..], ig, ng);
      ShiftThrough(env, At(t.rest[0], 0) == '<', p.v, Exp3a(env, t.rest[1..], ig, ng), ig, Tree3a(env, ws, ng).v);
    }
  }

  lemma {:induction false} Through4(env: Env, ws: seq<Word>, ig: bool, ng: bool)
    requires Tree4(env, ws, ng).Ok? && Sound(env, Tree4(env, ws, ng).v)
    ensures Through(env, Exp4(env, ws, ig, ng), Tree4(env, ws, ng).v)
    decreases |ws|, 2
  {
    var t := Tree5(env, ws, ng);
    Through5(env, ws, ig, ng);
    Follows5(env, ws, ig, ng);
    var p := Exp5(env, ws, ig, ng);
    if IsAdd(t.rest) {
      Through4(env, t.rest[1..], ig, ng);
      SumThrough(env, At(t.rest[0], 0), p.v, Exp4(env, t.rest[1..], ig, ng), ig, Tree4(env, ws, ng).v);
    }
  }

  lemma {:induction false} Through5(env: Env, ws: seq<Word>, ig: bool, ng: bool)
    requires Tree5(env, ws, ng).Ok? && Sound(env, Tree5(env, ws, ng).v)
    ensures Through(env, Exp5(env, ws, ig, ng), Tree5(env, ws, ng).v)
    decreases |ws|, 1
  {
    var t := Tree6(env, ws, ng);
    Through6(env, ws, ig, ng);
    Follows6(env, ws, ig, ng);
    var p := Exp6(env, ws, ig, ng);
    if IsMul(t.rest) {
      Through5(env, t.rest[1..], ig, ng);
      var t2, p2 := Tree5(env, t.rest[1..], ng), Exp5(env, t.rest[1..], ig, ng);
      if !ig {
        Follows5(env, t.rest[1..], ig, ng);
        CarriedNumber(Value(env, t2.v).value);
      }
      ProductThrough(env, At(t.rest[0], 0), p.v, p2, ig, Tree5(env, ws, ng).v);
    }
  }

  lemma {:induction false} Through6(env: Env, ws: seq<Word>, ig: bool, ng: bool)
    requires Tree6(env, ws, ng).Ok? && Sound(env, Tree6(env, ws, ng).v)
    ensures Through(env, Exp6(env, ws, ig, ng), Tree6(env, ws, ng).v)
    decreases |ws|, 0
  {
    if One(ws, '!') || One(ws, '~') {
      Through6(env, ws[1..], ig, ng);
      PrefixThrough(env, Exp6(env, ws[1..], ig, ng), Tree6(env, ws[1..], ng).v);
    } else if One(ws, '(') {
      Through0(env, ws[1..], ig, ng);
      Follows0(env, ws[1..], ig, ng);
      NumberThrough(Exp0(env, ws[1..], ig, ng).v);
    } else {
      OperandThrough(env, ws, ig, ng);
    }
  }

  // ----- ignoring -----

  // The ignoring run q gets through where p did, takes the same words, and has a number
  // where p has one.
  ghost predicate AlsoInt(p: Res<Int32>, q: Res<Int32>) {
    p.Ok? ==> q.Ok? && q.rest == p.rest
  }

  ghost predicate AlsoStr(p: Res<Word>, q: Res<Word>) {
    p.Ok? ==> q.Ok? && q.rest == p.rest && (Egetn(p.v).N? ==> Egetn(q.v).N?)
  }

  lemma {:induction false} Ignores0(env: Env, ws: seq<Word>, ig: bool, ng: bool)
    ensures AlsoInt(Exp0(env, ws, ig, ng), Exp0(env, ws, true, ng))
    decreases |ws|, 10
  {
    Ignores1(env, ws, ig, ng);
    var p, q := Exp1(env, ws, ig, ng), Exp1(env, ws, true, ng);
    if p.Ok? && Two(p.rest, '|', '|') {
      Ignores0(env, p.rest[1..], ig || p.v != 0, false);
    }
  }

  lemma {:induction false} Ignores1(env: Env, ws: seq<Word>, ig: bool, ng: bool)
    ensures AlsoInt(Exp1(env, ws, ig, ng), Exp1(env, ws, true, ng))
    decreases |ws|, 9
  {
    Ignores2(env, ws, ig, ng);
    var p, q := Exp2(env, ws, ig, ng), Exp2(env, ws, true, ng);
    if p.Ok? && Two(p.rest, '&', '&') {
      Ignores1(env, p.rest[1..], ig || p.v == 0, false);
    }
  }

  lemma {:induction false} Ignores2(env: Env, ws: seq<Word>, ig: bool, ng: bool)
    ensures AlsoInt(Exp2(env, ws, ig, ng), Exp2(env, ws, true, ng))
    decreases |ws|, 8
  {
    Ignores2a(env, ws, ig, ng);
    var p, q := Exp2a(env, ws, ig, ng), Exp2a(env, ws, true, ng);
    if p.Ok? && One(p.rest, '|') {
      Ignores2(env, p.rest[1..], ig, ng);
    }
  }

  lemma {:induction false} Ignores2a(env: Env, ws: seq<Word>, ig: bool, ng: bool)
    ensures AlsoInt(Exp2a(env, ws, ig, ng), Exp2a(env, ws, true, ng))
    decreases |ws|, 7
  {
    Ignores2b(env, ws, ig, ng);
    var p, q := Exp2b(env, ws, ig, ng), Exp2b(env, ws, true, ng);
    if p.Ok? && One(p.rest, '^') {
      Ignores2a(env, p.rest[1..], ig, ng);
    }
  }

  lemma {:induction false} Ignores2b(env: Env, ws: seq<Word>, ig: bool, ng: bool)
    ensures AlsoInt(Exp2b(env, ws, ig, ng), Exp2b(env, ws, true, ng))
    decreases |ws|, 6
  {
    Ignores2c(env, ws, ig, ng);
    var p, q := Exp2c(env, ws, ig, ng), Exp2c(env, ws, true, ng);
    if p.Ok? && One(p.rest, '&') {
      Ignores2b(env, p.rest[1..], ig, ng);
    }
  }

  lemma {:induction false} Ignores2c(env: Env, ws: seq<Word>, ig: bool, ng: bool)
    ensures AlsoInt(Exp2c(env, ws, ig, ng), Exp2c(env, ws, true, ng))
    decreases |ws|, 5
  {
    Ignores3(env, ws, ig, ng);
    var p, q := Exp3(env, ws, ig, ng), Exp3(env, ws, true, ng);
    if p.Ok? && IsEq(p.rest).Some? {
      Ignores3(env, p.rest[1..], ig, ng || IsMatch(IsEq(p.rest).value));
    }
  }

  lemma {:induction false} Ignores3(env: Env, ws: seq<Word>, ig: bool, ng: bool)
    ensures AlsoStr(Exp3(env, ws, ig, ng), Exp3(env, ws, true, ng))
    decreases |ws|, 4
  {
    Ignores3a(env, ws, ig, ng);
    var p, q := Exp3a(env, ws, ig, ng), Exp3a(env, ws, true, ng);
    if p.Ok? && IsRel(p.rest) {
      Ignores3(env, p.rest[RelWords(p.rest)..], ig, ng);
      NumberThrough(RelCode(At(p.rest[0], 0) == '<', RelWords(p.rest) == 2));
    }
  }

  lemma {:induction false} Ignores3a(env: Env, ws: seq<Word>, ig: bool, ng: bool)
    ensures AlsoStr(Exp3a(env, ws, ig, ng), Exp3a(env, ws, true, ng))
    decreases |ws|, 3
  {
    Ignores4(env, ws, ig, ng);
    var p, q := Exp4(env, ws, ig, ng), Exp4(env, ws, true, ng);
    if p.Ok? && IsShift(p.rest) {
      Ignores3a(env, p.rest[1..], ig, ng);
      var q2 := Exp3a(env, p.rest[1..], true, ng);
      if q2.Ok? && Egetn(q.v).N? && Egetn(q2.v).N? {
        NumberThrough(ShiftValue(env, At(p.rest[0], 0) == '<', Egetn(q.v).n, Egetn(q2.v).n));
      }
    }
  }

  lemma {:induction false} Ignores4(env: Env, ws: seq<Word>, ig: bool, ng: bool)
    ensures AlsoStr(Exp4(env, ws, ig, ng), Exp4(env, ws, true, ng))
    decreases |ws|, 2
  {
    Ignores5(env, ws, ig, ng);
    var p, q := Exp5(env, ws, ig, ng), Exp5(env, ws, true, ng);
    if p.Ok? && IsAdd(p.rest) {
      Ignores4(env, p.rest[1..], ig, ng);
      NumberThrough(0);
    }
  }

  lemma {:induction false} Ignores5(env: Env, ws: seq<Word>, ig: bool, ng: bool)
    ensures AlsoStr(Exp5(env, ws, ig, ng), Exp5(env, ws, true, ng))
    decreases |ws|, 1
  {
    Ignores6(env, ws, ig, ng);
    var p, q := Exp6(env, ws, ig, ng), Exp6(env, ws, true, ng);
    if p.Ok? && IsMul(p.rest) {
      Ignores5(env, p.rest[1..], ig, ng);
      NumberThrough(0);
    }
  }

  lemma {:induction false} Ignores6(env: Env, ws: seq<Word>, ig: bool, ng: bool)
    ensures AlsoStr(Exp6(env, ws, ig, ng), Exp6(env, ws, true, ng))
    decreases |ws|, 0
  {
    if ws == [] {
    } else if One(ws, '!') || One(ws, '~') {
      Ignores6(env, ws[1..], ig, ng);
      var q := Exp6(env, ws[1..], true, ng);
      if q.Ok? && Egetn(q.v).N? {
        NumberThrough(Truth(Egetn(q.v).n == 0));
        NumberThrough(-1 - Egetn(q.v).n);
      }
    } else if One(ws, '(') {
      Ignores0(env, ws[1..], ig, ng);
      var q := Exp0(env, ws[1..], true, ng);
      if q.Ok? {
        NumberThrough(q.v);
      }
    } else {
      OperandIgnored(env, ws, ig, ng);
    }
  }

  lemma OperandIgnored(env: Env, ws: seq<Word>, ig: bool, ng: bool)
    requires ws != []
    ensures AlsoStr(Operand(env, ws, ig, ng), Operand(env, ws, true, ng))
  {
    assert Egetn("").N?;
  }

  // Where the evaluator gets through, it gets through ignoring too, and takes the same
  // words.
  lemma IgnoringTakesTheSame(env: Env, ws: seq<Word>, ng: bool)
    requires Exp0(env, ws, false, ng).Ok?
    ensures Exp0(env, ws, true, ng).Ok? && Exp0(env, ws, true, ng).rest == Exp0(env, ws, false, ng).rest
  {
    Ignores0(env, ws, false, ng);
  }
}
