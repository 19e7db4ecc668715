/** What the operators of csh's expressions compute, in terms of integers. */
module ExprValue {
  import opened Common
  import opened Number
  import opened Expr
  import opened ExprTree

  // ----- integers -----

  // v is what 32 bits hold of x.
  ghost predicate Holds(v: int, x: int) {
    -0x8000_0000 <= v < 0x8000_0000 && (v - x) % 0x1_0000_0000 == 0
  }

  lemma HoldsFitting(v: int, x: int)
    requires Holds(v, x) && -0x8000_0000 <= x < 0x8000_0000
    ensures v == x
  {
  }

  lemma WrapHolds(x: int)
    ensures Holds(Wrap(x), x)
  {
    var k := WrapNear(x);
    assert Wrap(x) - x == k * 0x1_0000_0000;
  }

  function Abs(x: int): nat {
    if x < 0 then -x else x
  }

  // Division with a remainder that has the sign of what is divided.
  ghost predicate Divides(a: int, b: int, q: int, r: int) {
    a == q * b + r && Abs(r) < Abs(b) && (r != 0 ==> (r < 0 <==> a < 0))
  }

  lemma QuotientDivides(a: int, b: int)
    requires b != 0
    ensures Divides(a, b, Quotient(a, b), a - Quotient(a, b) * b)
  {
    var x, y := Abs(a), Abs(b);
    var q, r := x / y, x % y;
    assert x == q * y + r;
    if (a < 0) == (b < 0) {
      assert Quotient(a, b) == q;
      assert q * b == if b < 0 then -(q * y) else q * y;
    } else {
      assert Quotient(a, b) == -q;
      assert -q * b == if b < 0 then q * y else -(q * y);
    }
  }

  // ----- bits -----

  // The bit of weight 2^i of x in two's complement.
  predicate BitOf(x: int, i: nat) {
    (x / Pow2(i)) % 2 == 1
  }

  lemma DivideTwice(x: int, p: int)
    requires p > 0
    ensures x / (2 * p) == x / 2 / p
  {
    var h := x / 2;
    var q, r := h / p, h % p;
    assert h == q * p + r;
    assert x == q * (2 * p) + (2 * r + x % 2);
    OneQuotient(x, 2 * p, q, 2 * r + x % 2);
  }

  lemma Grows(x: int, y: int)
    requires y >= 1
    ensures x >= 1 ==> x * y >= x && x * y >= y
    ensures x <= 0 ==> x * y <= x
  {
    if x >= 1 {
      assert (x - 1) * (y - 1) >= 0;
    } else {
      assert -x * (y - 1) >= 0;
    }
  }

  lemma OneQuotient(x: int, y: int, q: int, r: int)
    requires x == q * y + r && 0 <= r < y
    ensures x / y == q
  {
    var d := x / y - q;
    assert x == (x / y) * y + x % y;
    assert d * y == r - x % y;
    Grows(d, y);
    Grows(-d, y);
  }

  lemma NextBit(x: int, i: nat)
    ensures BitOf(x, i + 1) == BitOf(x / 2, i) && BitOf(x, 0) == (x % 2 == 1)
  {
    DivideTwice(x, Pow2(i));
  }

  lemma SignBits(i: nat)
    ensures BitOf(-1, i) && !BitOf(0, i)
  {
    OneQuotient(-1, Pow2(i), -1, Pow2(i) - 1);
    OneQuotient(0, Pow2(i), 0, 0);
  }

  lemma HalfFits(x: int, n: nat)
    requires n > 0 && Fits(x, n)
    ensures Fits(x / 2, n - 1)
  {
  }

  lemma {:induction false} EachBit(op: BitOp, a: int, b: int, i: nat)
    ensures BitOf(AllBits(op, a, b), i) == OneBit(op, BitOf(a, i), BitOf(b, i))
    decreases i
  {
    var r := AllBits(op, a, b);
    if OnlySign(a) && OnlySign(b) {
      SignBits(i);
    } else if i == 0 {
      NextBit(a, 0);
      NextBit(b, 0);
      NextBit(r, 0);
    } else {
      NextBit(a, i - 1);
      NextBit(b, i - 1);
      NextBit(r, i - 1);
      EachBit(op, a / 2, b / 2, i - 1);
      assert r / 2 == AllBits(op, a / 2, b / 2);
    }
  }

  // Numbers with the same bits are the same.
  lemma {:induction false} SameBits(x: int, y: int, n: nat)
    requires Fits(x, n) && Fits(y, n)
    requires forall i: nat | i <= n :: BitOf(x, i) == BitOf(y, i)
    ensures x == y
    decreases n
  {
    if n == 0 {
      SignBits(0);
      assert BitOf(x, 0) == BitOf(y, 0);
    } else {
      forall i: nat | i <= n - 1 ensures BitOf(x / 2, i) == BitOf(y / 2, i) {
        NextBit(x, i);
        NextBit(y, i);
        assert BitOf(x, i + 1) == BitOf(y, i + 1);
      }
      HalfFits(x, n);
      HalfFits(y, n);
      SameBits(x / 2, y / 2, n - 1);
      NextBit(x, 0);
      NextBit(y, 0);
      assert BitOf(x, 0) == BitOf(y, 0);
    }
  }

  // The bits of ~x.
  lemma FlippedBits(x: int, i: nat)
    ensures BitOf(-1 - x, i) == !BitOf(x, i)
  {
    var p := Pow2(i);
    var q, r := x / p, x % p;
    assert x == q * p + r;
    assert -1 - x == (-1 - q) * p + (p - 1 - r);
    OneQuotient(-1 - x, p, -1 - q, p - 1 - r);
  }

  // ----- the operators -----

  ghost predicate BitsAre(op: BitOp, a: int, b: int, v: int) {
    forall i: nat :: BitOf(v, i) <==>
      match op
      case BitOr => BitOf(a, i) || BitOf(b, i)
      case BitXor => BitOf(a, i) != BitOf(b, i)
      case BitAnd => BitOf(a, i) && BitOf(b, i)
  }

  ghost predicate Tells(v: int, b: bool) {
    v == if b then 1 else 0
  }

  // v is what the operator makes of the numbers a and b.  A shift by a number of bits that
  // an int does not have is left to the machine.
  ghost predicate Computes(env: Env, op: Operator, a: Int32, b: Int32, v: int) {
    match op
    case Disjoin => Tells(v, a != 0 || b != 0)
    case Conjoin => Tells(v, a != 0 && b != 0)
    case Bit(o) => BitsAre(o, a, b, v)
    case Eq(Equal) => Tells(v, a == b)
    case Eq(NotEqual) => Tells(v, a != b)
    case Eq(Match) => Tells(v, env.matches(Putn(a), Putn(b)))
    case Eq(NotMatch) => Tells(v, !env.matches(Putn(a), Putn(b)))
    case Rel(w, eq) => Tells(v, if "<" <= w then a < b || (eq && a == b) else b < a || (eq && a == b))
    case Shift(w) =>
      0 <= b <= 31 ==> if "<" <= w then Holds(v, a * Pow2(b)) else v * Pow2(b) <= a < (v + 1) * Pow2(b)
    case Add(w) => Holds(v, if w == "+" then a + b else a - b)
    case Mul(w) =>
      if w == "*" then Holds(v, a * b)
      else if w == "/" then exists q, r :: Divides(a, b, q, r) && Holds(v, q)
      else exists q :: Divides(a, b, q, v)
  }

  // The bits leave no choice.
  lemma BitsDecide(op: BitOp, a: Int32, b: Int32, v: Int32, v': Int32)
    requires BitsAre(op, a, b, v) && BitsAre(op, a, b, v')
    ensures v == v'
  {
    Pow31();
    SameBits(v, v', 31);
  }

  lemma BitComputes(op: BitOp, a: Int32, b: Int32)
    ensures BitsAre(op, a, b, BitValue(op, a, b))
  {
    forall i: nat ensures BitOf(BitValue(op, a, b), i) == OneBit(op, BitOf(a, i), BitOf(b, i)) {
      EachBit(op, a, b, i);
    }
  }

  lemma ShiftComputes(env: Env, w: Word, a: Int32, b: Int32)
    requires IsShift([w])
    ensures Computes(env, Shift(w), a, b, ShiftValue(env, At(w, 0) == '<', a, b))
  {
    if 0 <= b <= 31 {
      var p := Pow2(b);
      WrapHolds(a * p);
      Shrinks(a, p);
    }
  }

  lemma Shrinks(a: Int32, p: int)
    requires p > 0
    ensures Wrap(a / p) == a / p && a / p * p <= a < (a / p + 1) * p
  {
    var q := a / p;
    assert a == q * p + a % p;
    assert (q + 1) * p == q * p + p;
    Grows(q, p);
    Grows(q + 1, p);
    WrapSame(q);
  }

  lemma AddComputes(env: Env, w: Word, a: Int32, b: Int32)
    requires IsAdd([w])
    ensures Computes(env, Add(w), a, b, AddValue(At(w, 0), a, b))
  {
    if w == "+" {
      WrapHolds(a + b);
    } else {
      assert w == "-";
      WrapHolds(a - b);
    }
  }

  lemma MulComputes(env: Env, w: Word, a: Int32, b: Int32)
    requires IsMul([w]) && !DividesByZero(At(w, 0), b)
    ensures Computes(env, Mul(w), a, b, MulValue(At(w, 0), a, b))
  {
    assert w == "*" || w == "/" || w == "%";
    WrapHolds(a * b);
    if w != "*" {
      var q := Quotient(a, b);
      QuotientDivides(a, b);
      WrapHolds(q);
      WrapSame(a - q * b);
      assert Divides(a, b, q, a - q * b);
    }
  }

  lemma EqComputes(env: Env, e: EqOp, a: Int32, b: Int32)
    ensures Computes(env, Eq(e), a, b, Truth(EqValue(env, e, Putn(a), Putn(b))))
  {
    GetPut(a);
    GetPut(b);
  }

  // What an operator makes of two numbers, and that only a division by zero makes nothing.
  lemma Applied(env: Env, op: Operator, a: Int32, b: Int32)
    requires Means(op)
    ensures Apply(env, op, a, b) == None <==> op.Mul? && op.w != "*" && b == 0
    ensures Apply(env, op, a, b).Some? ==> Computes(env, op, a, b, Apply(env, op, a, b).value)
  {
    match op
    case Bit(o) => BitComputes(o, a, b);
    case Eq(e) => EqComputes(env, e, a, b);
    case Shift(w) => ShiftComputes(env, w, a, b);
    case Add(w) => AddComputes(env, w, a, b);
    case Mul(w) =>
      assert w == "*" || w == "/" || w == "%";
      if !DividesByZero(At(w, 0), b) {
        MulComputes(env, w, a, b);
      }
    case Rel(w, eq) =>
    case Disjoin =>
    case Conjoin =>
  }

  // ----- trees and words -----

  // An operator over numbers, wherever it stands in a tree.
  lemma NodeComputes(env: Env, op: Operator, l: Tree, r: Tree, a: Int32, b: Int32)
    requires Means(op) && Value(env, l) == Some(Int(a)) && Value(env, r) == Some(Int(b))
    requires op.Mul? && op.w != "*" ==> b != 0
    ensures var v := Value(env, Binary(op, l, r)); v.Some? && v.value.Int? && Computes(env, op, a, b, v.value.n)
  {
    Applied(env, op, a, b);
    NodeValue(env, op, l, r, a, b);
  }

  // An operator over numbers, as the tree of a whole expression.
  function Top(op: Operator, l: Tree, r: Tree): Tree {
    if Rank(op) > 5 then Unary(Number, Binary(op, l, r)) else Binary(op, l, r)
  }

  lemma TopMeans(env: Env, op: Operator, l: Tree, r: Tree, rest: seq<Word>)
    requires Well(env, Top(op, l, r), false, rest)
    ensures Means(op)
  {
    assert Rank(op) > 5 ==> Well(env, Binary(op, l, r), false, SuffixWords(Number) + rest);
  }

  lemma TopValue(env: Env, op: Operator, l: Tree, r: Tree, a: Int32, b: Int32)
    requires Means(op) && Value(env, l) == Some(Int(a)) && Value(env, r) == Some(Int(b))
    requires Value(env, Top(op, l, r)).Some?
    ensures var v := Value(env, Top(op, l, r)).value; v.Int? && Computes(env, op, a, b, v.n)
  {
    Applied(env, op, a, b);
    NodeValue(env, op, l, r, a, b);
  }

  lemma NodeValue(env: Env, op: Operator, l: Tree, r: Tree, a: Int32, b: Int32)
    requires Value(env, l) == Some(Int(a)) && Value(env, r) == Some(Int(b))
    ensures var v := Apply(env, op, a, b);
      Value(env, Top(op, l, r)) == Value(env, Binary(op, l, r)) == if v.None? then None else Some(Int(v.value))
  {
    OverNumbers(env, op, Value(env, l), Value(env, r), a, b, Putn(a), Putn(b));
  }

  // So expr, on words whose tree is an operator over numbers, computes what it says.
  lemma TopComputes(env: Env, ws: seq<Word>, op: Operator, l: Tree, r: Tree, a: Int32, b: Int32, rest: seq<Word>)
    requires TreeOf(env, ws, false, 0, Top(op, l, r), rest)
    requires Value(env, l) == Some(Int(a)) && Value(env, r) == Some(Int(b)) && Exp0(env, ws, false, false).Ok?
    ensures Exp0(env, ws, false, false).rest == rest && Computes(env, op, a, b, Exp0(env, ws, false, false).v)
  {
    var t, v := Top(op, l, r), Exp0(env, ws, false, false);
    TopMeans(env, op, l, r, rest);
    ValueOfTree(env, ws, t, rest);
    TopValue(env, op, l, r, a, b);
  }

  lemma ValueOfTree(env: Env, ws: seq<Word>, t: Tree, rest: seq<Word>)
    requires TreeOf(env, ws, false, 0, t, rest) && Exp0(env, ws, false, false).Ok?
    ensures Value(env, t) == Some(Int(Exp0(env, ws, false, false).v)) && rest == Exp0(env, ws, false, false).rest
  {
    var t' := Evaluates(env, ws);
    OneTree(env, ws, false, t, rest, t', Exp0(env, ws, false, false).rest);
  }

  // The prefixes over a number.
  lemma PrefixComputes(env: Env, t: Tree, n: Int32)
    requires Value(env, t) == Some(Int(n))
    ensures Value(env, Unary(Not, t)) == Some(Int(if n == 0 then 1 else 0))
    ensures var v := Value(env, Unary(Complement, t));
      v.Some? && v.value.Int? && forall i: nat :: BitOf(v.value.n, i) == !BitOf(n, i)
  {
    forall i: nat ensures BitOf(-1 - n, i) == !BitOf(n, i) {
      FlippedBits(n, i);
    }
  }

  // A number written out is a word of its own, and is read as itself.
  lemma NumberWord(env: Env, n: Int32)
    ensures Ordinary(Putn(n)) && !Inquires(Putn(n)) && !One([Putn(n)], '=') && Egetn(Putn(n)) == N(n)
  {
    CarriedNumber(Int(n));
    PutFirst(n);
    if n < 0 {
      MinusFirst(n);
    }
  }

  lemma MinusFirst(n: Int32)
    requires n < 0
    ensures |Putn(n)| > 1 && Putn(n)[0] == '-' && IsDigit(Putn(n)[1])
  {
    if n == -0x8000_0000 {
      assert Putn(n)[1] == '2';
    } else {
      WrapSame(-n);
      PutDigitsFirst(-n);
    }
  }

  // The words at which an operand ends, or is missing.
  lemma OperatorsAre(w: Word)
    ensures IsAny([w]) <==>
      "<" <= w || ">" <= w ||
      w == "==" || w == "!=" || w == "=~" || w == "!~" || w == "+" || w == "-" || w == "*" || w == "/" || w == "%" ||
      w == "(" || w == ")" || w == "!" || w == "~" || w == "^" || w == "\"" || w == "|&"
  {
    if |w| == 1 {
      assert w == [w[0]];
    } else if |w| == 2 {
      assert w == [w[0], w[1]];
    }
  }

  // The words that ask about a file.
  lemma InquiriesAre(w: Word)
    requires |w| == 2
    ensures Inquires(w) <==>
      w == "-e" || w == "-r" || w == "-w" || w == "-x" || w == "-f" || w == "-d" ||
      w == "-z" || w == "-o" || w == "-p" || w == "-l" || w == "-s"
  {
    assert w == [w[0], w[1]];
  }

  // The words that are numbers in an expression: perhaps a minus, and digits.
  lemma EgetnReads(minus: Word, d: Word)
    requires Signed("", minus, d)
    ensures Egetn(minus + d) == N(Wrap(if minus == "" then Decimal(d) else 0 - Decimal(d)))
  {
    GetnReads("", minus, d);
    assert "" + minus + d == minus + d;
    assert minus + d != "" ==> (minus + d)[0] == '-' || IsDigit((minus + d)[0]);
  }

  lemma EgetnOnly(w: Word) returns (minus: Word, d: Word)
    requires Egetn(w).N?
    ensures Signed("", minus, d) && w == minus + d
  {
    var plus;
    plus, minus, d := GetnOnly(w);
    assert plus <= w;
    assert "" + minus + d == minus + d;
  }

  // A number where a pattern stands for itself.
  function Numeral(n: Int32, ng: bool): Tree {
    Leaf(Literal(Putn(n), ng))
  }

  lemma NumeralIs(env: Env, n: Int32, ng: bool, rest: seq<Word>)
    requires env.glob(Putn(n)) == Some(Putn(n))
    ensures Well(env, Numeral(n, ng), ng, rest) && Well(env, Unary(Number, Numeral(n, ng)), ng, rest)
    ensures Value(env, Numeral(n, ng)) == Some(Str(Putn(n)))
    ensures Value(env, Unary(Number, Numeral(n, ng))) == Some(Int(n))
  {
    NumberWord(env, n);
    assert [] + rest == rest;
  }

  // The tree of a number, an operator and a number.
  function Calculation(a: Int32, op: Operator, b: Int32): Tree {
    var l, r := Numeral(a, false), Numeral(b, RightNg(op, false));
    if Rank(op) < 5 then Binary(op, Unary(Number, l), Unary(Number, r)) else Top(op, l, r)
  }

  lemma NumeralWords(n: Int32, ng: bool)
    ensures Words(Numeral(n, ng)) == [Putn(n)] == Words(Unary(Number, Numeral(n, ng)))
  {
  }

  lemma OverWords(op: Operator, l: Tree, r: Tree, x: Word, y: Word)
    requires Words(l) == [x] && Words(r) == [y]
    ensures var t, ws := Binary(op, l, r), [x] + OperatorWords(op) + [y]; Words(t) == ws == Words(Unary(Number, t))
  {
    var o := OperatorWords(op);
    assert [x] + (o + [y]) == [x] + o + [y];
    var ws := [x] + o + [y];
    assert [] + (ws + []) == ws;
  }

  lemma OverWell(env: Env, op: Operator, l: Tree, r: Tree, y: Word)
    requires Means(op) && Words(r) == [y] && !One([y], '=')
    requires AtLevel(l, Rank(op) + 1) && Well(env, l, false, OperatorWords(op) + [y])
    requires AtLevel(r, RightLevel(op)) && Well(env, r, RightNg(op, false), [])
    ensures Well(env, Binary(op, l, r), false, [])
    ensures Rank(op) > 5 ==> Well(env, Unary(Number, Binary(op, l, r)), false, [])
  {
    assert OperatorWords(op) + [y] + [] == OperatorWords(op) + [y];
    assert [y] + [] == [y];
    var t := Binary(op, l, r);
    assert SuffixWords(Number) + [] == [];
  }

  lemma EndStops(t: Tree)
    ensures Stops(t, 0, [])
  {
    forall k: nat | k <= 9 ensures !Continues(k, []) {
    }
  }

  lemma CalculationWell(env: Env, a: Int32, op: Operator, b: Int32)
    requires Means(op) && env.glob(Putn(a)) == Some(Putn(a)) && env.glob(Putn(b)) == Some(Putn(b))
    ensures var ws := [Putn(a)] + OperatorWords(op) + [Putn(b)]; TreeOf(env, ws, false, 0, Calculation(a, op, b), [])
  {
    var right, x, y := RightNg(op, false), Putn(a), Putn(b);
    var l, r := Numeral(a, false), Numeral(b, right);
    NumeralIs(env, a, false, OperatorWords(op) + [y]);
    NumeralIs(env, b, right, []);
    NumberWord(env, b);
    NumeralWords(a, false);
    NumeralWords(b, right);
    if Rank(op) < 5 {
      OverWell(env, op, Unary(Number, l), Unary(Number, r), y);
      OverWords(op, Unary(Number, l), Unary(Number, r), x, y);
    } else {
      OverWell(env, op, l, r, y);
      OverWords(op, l, r, x, y);
    }
    EndStops(Calculation(a, op, b));
    var ws := [x] + OperatorWords(op) + [y];
    assert ws + [] == ws;
  }

  // v is the number n, or the word of it.
  ghost predicate IsNumber(v: Option<Val>, n: Int32, w: Word) {
    v.Some? && AsNum(v.value) == N(n) && AsStr(v.value) == w
  }

  // Over numbers, or the words of numbers, an operator is what Apply says.
  lemma OverNumbers(env: Env, op: Operator, l: Option<Val>, r: Option<Val>, a: Int32, b: Int32, x: Word, y: Word)
    requires x == Putn(a) && y == Putn(b) && IsNumber(l, a, x) && IsNumber(r, b, y)
    ensures var v := Apply(env, op, a, b); BinaryValue(env, op, l, r) == if v.None? then None else Some(Int(v.value))
  {
    assert NumOf(l) == Some(a) && NumOf(r) == Some(b);
    if op.Eq? {
      assert Apply(env, op, a, b) == Some(Truth(EqValue(env, op.e, x, y)));
    }
  }

  lemma OverTrees(env: Env, op: Operator, l: Tree, r: Tree, a: Int32, b: Int32)
    requires IsNumber(Value(env, l), a, Putn(a)) && Sound(env, l) && IsNumber(Value(env, r), b, Putn(b)) && Sound(env, r)
    ensures var v, t := Apply(env, op, a, b), Binary(op, l, r);
      (Value(env, t) == if v.None? then None else Some(Int(v.value))) &&
      (Value(env, Unary(Number, t)) == Value(env, t)) &&
      (v.Some? ==> Sound(env, t) && Sound(env, Unary(Number, t)))
  {
    OverNumbers(env, op, Value(env, l), Value(env, r), a, b, Putn(a), Putn(b));
  }

  lemma NumeralSound(env: Env, n: Int32, ng: bool)
    requires env.glob(Putn(n)) == Some(Putn(n))
    ensures IsNumber(Value(env, Numeral(n, ng)), n, Putn(n)) && Sound(env, Numeral(n, ng))
    ensures var t := Unary(Number, Numeral(n, ng)); IsNumber(Value(env, t), n, Putn(n)) && Sound(env, t)
  {
    NumeralIs(env, n, ng, []);
    NumberWord(env, n);
  }

  lemma CalculationValue(env: Env, a: Int32, op: Operator, b: Int32)
    requires env.glob(Putn(a)) == Some(Putn(a)) && env.glob(Putn(b)) == Some(Putn(b))
    ensures var v := Apply(env, op, a, b);
      Value(env, Calculation(a, op, b)) == (if v.None? then None else Some(Int(v.value))) &&
      (v.Some? ==> Sound(env, Calculation(a, op, b)))
  {
    var l, r := Numeral(a, false), Numeral(b, RightNg(op, false));
    NumeralSound(env, a, false);
    NumeralSound(env, b, RightNg(op, false));
    if Rank(op) < 5 {
      OverTrees(env, op, Unary(Number, l), Unary(Number, r), a, b);
    } else {
      OverTrees(env, op, l, r, a, b);
    }
  }

  // A number, an operator and a number: the evaluator computes just that, and fails where
  // it would divide by zero.
  lemma Calculates(env: Env, a: Int32, op: Operator, b: Int32)
    requires Means(op) && env.glob(Putn(a)) == Some(Putn(a)) && env.glob(Putn(b)) == Some(Putn(b))
    ensures var r := Exp0(env, [Putn(a)] + OperatorWords(op) + [Putn(b)], false, false);
      if op.Mul? && op.w != "*" && b == 0 then r.Err?
      else r.Ok? && r.rest == [] && Computes(env, op, a, b, r.v)
  {
    var t, ws := Calculation(a, op, b), [Putn(a)] + OperatorWords(op) + [Putn(b)];
    CalculationWell(env, a, op, b);
    CalculationValue(env, a, op, b);
    Applied(env, op, a, b);
    if Apply(env, op, a, b).Some? {
      EvaluatesSound(env, ws, t, []);
    } else if Exp0(env, ws, false, false).Ok? {
      var t' := Evaluates(env, ws);
      OneTree(env, ws, false, t, [], t', Exp0(env, ws, false, false).rest);
    }
  }

  // The error of a division by zero.
  lemma NumberTaken(env: Env, n: Int32, more: seq<Word>, ng: bool)
    requires env.glob(Putn(n)) == Some(Putn(n))
    ensures Exp6(env, [Putn(n)] + more, false, ng) == Ok(Putn(n), more)
  {
    var ws := [Putn(n)] + more;
    NumberWord(env, n);
    HeadOnly(ws);
    assert ws[0] == Putn(n) && ws[1..] == more;
  }

  lemma DividesNothing(env: Env, a: Int32, w: Word)
    requires (w == "/" || w == "%") && env.glob(Putn(a)) == Some(Putn(a)) && env.glob(Putn(0)) == Some(Putn(0))
    ensures Exp0(env, [Putn(a), w, Putn(0)], false, false) == Err(if w == "/" then Div0 else Mod0)
  {
    var ws := [Putn(a), w, Putn(0)];
    var right := [Putn(0)];
    assert ws == [Putn(a)] + [w, Putn(0)] && right == right + [] && [w, Putn(0)][1..] == right;
    NumberTaken(env, a, [w, Putn(0)], false);
    NumberTaken(env, 0, [], false);
    NumberWord(env, 0);
    assert Exp5(env, right, false, false) == Ok(Putn(0), []);
    ErrorStays(env, ws, Err(if w == "/" then Div0 else Mod0));
  }

  lemma ErrorStays(env: Env, ws: seq<Word>, r: Res<Word>)
    requires r.Err? && Exp5(env, ws, false, false) == r
    ensures Exp0(env, ws, false, false) == Err(r.e)
  {
    assert Exp4(env, ws, false, false) == r;
    assert Exp3a(env, ws, false, false) == r;
    assert Exp3(env, ws, false, false) == r;
    assert Exp2c(env, ws, false, false) == Err(r.e);
    assert Exp2b(env, ws, false, false) == Err(r.e);
    assert Exp2a(env, ws, false, false) == Err(r.e);
    assert Exp2(env, ws, false, false) == Err(r.e);
    assert Exp1(env, ws, false, false) == Err(r.e);
  }
}
