/** csh's numbers as strings: putn writes an int, getn reads one. */
module Number {
  import opened Common

  type Int32 = x: int | -0x8000_0000 <= x < 0x8000_0000

  // Arithmetic wraps around.
  function Wrap(x: int): Int32 {
    (x + 0x8000_0000) % 0x1_0000_0000 - 0x8000_0000
  }

  lemma Pow31()
    ensures Pow2(31) == 0x8000_0000
  {
    assert Pow2(8) == 0x100;
    assert Pow2(16) == 0x1_0000;
    assert Pow2(24) == 0x100_0000;
  }

  predicate IsDigit(c: char) {
    '0' <= c <= '9'
  }

  function Digit(d: nat): char
    requires d < 10
  {
    '0' + d as char
  }

  // ----- putn -----

  function PutDigits(n: nat): Word {
    (if n > 9 then PutDigits(n / 10) else "") + [Digit(n % 10)]
  }

  function Putn(n: Int32): Word {
    var m := if n < 0 then Wrap(0 - n) else n;
    var sign := if n < 0 then "-" else "";
    if m == -0x8000_0000 then sign + "2" + PutDigits(147483648)
    else sign + PutDigits(m)
  }

  // ----- getn -----

  // The value of the digits at the start of s, after a number n, and what follows them.
  function Digits(s: Word, n: Int32): (r: (Int32, Word)) {
    if s == "" || !IsDigit(s[0]) then (n, s)
    else Digits(s[1..], Wrap(Wrap(n * 10) + (s[0] as int - '0' as int)))
  }

  function Getn(s: Word): Option<Int32> {
    var s1 := if |s| > 1 && s[0] == '+' then s[1..] else s;
    var minus := s1 != "" && s1[0] == '-';
    var s2 := if minus then s1[1..] else s1;
    if minus && (s2 == "" || !IsDigit(s2[0])) then None
    else
      var r := Digits(s2, 0);
      if r.1 != "" then None else Some(if minus then Wrap(0 - r.0) else r.0)
  }

  method GetnLoop(s: Word) returns (r: Option<Int32>)
    ensures r == Getn(s)
  {
    var p, minus := 0, false;
    if |s| > 1 && s[0] == '+' {
      p := p + 1;
    }
    if p < |s| && s[p] == '-' {
      minus := true;
      p := p + 1;
      if p == |s| || !IsDigit(s[p]) {
        return None;
      }
    }
    var n: Int32 := 0;
    ghost var all := Digits(s[p..], 0);
    while p < |s| && IsDigit(s[p])
      invariant 0 <= p <= |s| && all == Digits(s[p..], n)
    {
      n := Wrap(Wrap(n * 10) + (s[p] as int - '0' as int));
      p := p + 1;
    }
    if p < |s| {
      return None;
    }
    return Some(if minus then Wrap(0 - n) else n);
  }

  // ----- the round trip -----

  lemma WrapSame(x: int)
    requires -0x8000_0000 <= x < 0x8000_0000
    ensures Wrap(x) == x
  {
  }

  lemma WrapNear(x: int) returns (k: int)
    ensures Wrap(x) == x + k * 0x1_0000_0000
  {
    k := -((x + 0x8000_0000) / 0x1_0000_0000);
  }

  lemma WrapShift(x: int, k: int)
    ensures Wrap(x + k * 0x1_0000_0000) == Wrap(x)
  {
    var i := WrapNear(x + k * 0x1_0000_0000);
    var j := WrapNear(x);
  }

  // Wrapping at every step is wrapping once.
  lemma WrapStep(x: int, d: int)
    ensures Wrap(Wrap(Wrap(x) * 10) + d) == Wrap(x * 10 + d)
  {
    var i := WrapNear(x);
    var j := WrapNear(Wrap(x) * 10);
    assert Wrap(Wrap(x) * 10) + d == x * 10 + d + (10 * i + j) * 0x1_0000_0000;
    WrapShift(x * 10 + d, 10 * i + j);
  }

  // The number whose digits are those of a and then those of n.
  function After(a: int, n: nat): int {
    if n > 9 then After(a, n / 10) * 10 + n % 10 else a * 10 + n
  }

  lemma {:induction false} AfterZero(n: nat)
    ensures After(0, n) == n
    decreases n
  {
    if n > 9 {
      AfterZero(n / 10);
    }
  }

  lemma DigitStep(a: int, d: nat, rest: Word)
    requires d < 10
    ensures Digits([Digit(d)] + rest, Wrap(a)) == Digits(rest, Wrap(a * 10 + d))
  {
    WrapStep(a, d);
    assert ([Digit(d)] + rest)[1..] == rest;
  }

  // Reading the digits of n after a number a.
  lemma {:induction false} DigitsPut(a: int, n: nat, rest: Word)
    ensures Digits(PutDigits(n) + rest, Wrap(a)) == Digits(rest, Wrap(After(a, n)))
    decreases n
  {
    var last := [Digit(n % 10)];
    if n > 9 {
      DigitsPut(a, n / 10, last + rest);
      assert PutDigits(n) + rest == PutDigits(n / 10) + (last + rest);
      DigitStep(After(a, n / 10), n % 10, rest);
    } else {
      assert PutDigits(n) + rest == last + rest;
      DigitStep(a, n, rest);
    }
  }

  lemma {:induction false} PutDigitsFirst(n: nat)
    ensures PutDigits(n) != "" && IsDigit(PutDigits(n)[0])
    decreases n
  {
    if n > 9 {
      PutDigitsFirst(n / 10);
    }
  }

  lemma ReadDigits(m: Int32)
    requires m >= 0
    ensures Digits(PutDigits(m), 0) == (m, "") && PutDigits(m) != "" && IsDigit(PutDigits(m)[0])
  {
    PutDigitsFirst(m);
    DigitsPut(0, m, "");
    AfterZero(m);
    WrapSame(m);
    assert PutDigits(m) + "" == PutDigits(m);
  }

  lemma GetMinus(s: Word, n: Int32)
    requires s != "" && IsDigit(s[0]) && Digits(s, 0) == (n, "")
    ensures Getn(s) == Some(n) && Getn("-" + s) == Some(Wrap(0 - n))
  {
    assert ("-" + s)[1..] == s;
  }

  // After a 2, the digits of n.
  lemma TwoAnd(n: nat)
    requires After(2, n) == 0x8000_0000
    ensures var s := "2" + PutDigits(n); Digits(s, 0) == (-0x8000_0000, "") && IsDigit(s[0])
  {
    var s := "2" + PutDigits(n);
    assert s[1..] == PutDigits(n) == PutDigits(n) + "";
    WrapSame(2);
    DigitsPut(2, n, "");
  }

  lemma Lowest()
    ensures After(2, 147483648) == 0x8000_0000
  {
    assert After(2, 147) == 2147;
    assert After(2, 14748) == 214748;
    assert After(2, 1474836) == 21474836;
  }

  // Every int survives being written and read, the most negative one too.
  lemma GetPut(n: Int32)
    ensures Getn(Putn(n)) == Some(n)
  {
    if n == -0x8000_0000 {
      Lowest();
      TwoAnd(147483648);
      GetMinus("2" + PutDigits(147483648), n);
      assert Putn(n) == "-" + ("2" + PutDigits(147483648));
    } else {
      var m := if n < 0 then 0 - n else n;
      WrapSame(m);
      WrapSame(n);
      ReadDigits(m);
      GetMinus(PutDigits(m), m);
      assert Putn(n) == if n < 0 then "-" + PutDigits(m) else PutDigits(m);
    }
  }

  // ----- which words are numbers -----

  predicate AllDigits(d: Word) {
    forall i | 0 <= i < |d| :: IsDigit(d[i])
  }

  // What digits mean, from the last one on.
  function Decimal(d: Word): nat
    requires AllDigits(d)
  {
    if d == "" then 0 else Decimal(d[..|d| - 1]) * 10 + (d[|d| - 1] as nat - '0' as nat)
  }

  // Digits and something after them that starts with none.
  lemma {:induction false} DigitsRead(d: Word, rest: Word)
    requires AllDigits(d) && (rest == "" || !IsDigit(rest[0]))
    ensures Digits(d + rest, 0) == (Wrap(Decimal(d)), rest)
  {
    assert "" + d == d && Decimal("") == 0;
    WrapSame(0);
    DigitsGoOn("", d, rest);
  }

  // Having read a, the loop reads b and stops before the rest.
  lemma {:induction false} DigitsGoOn(a: Word, b: Word, rest: Word)
    requires AllDigits(a) && AllDigits(b) && AllDigits(a + b) && (rest == "" || !IsDigit(rest[0]))
    ensures Digits(b + rest, Wrap(Decimal(a))) == (Wrap(Decimal(a + b)), rest)
    decreases |b|
  {
    var all := b + rest;
    if b == "" {
      assert all == rest && a + b == a;
    } else {
      var a', b' := a + [b[0]], b[1..];
      assert a' + b' == a + b && all[1..] == b' + rest && all[0] == b[0];
      assert a'[..|a'| - 1] == a;
      WrapStep(Decimal(a), b[0] as int - '0' as int);
      DigitsGoOn(a', b', rest);
    }
  }

  predicate Sign(w: Word, c: char) {
    w == "" || w == [c]
  }

  // A word of a number: perhaps a plus, perhaps a minus, and digits.  After a sign there
  // is something more.
  predicate Signed(plus: Word, minus: Word, d: Word) {
    Sign(plus, '+') && Sign(minus, '-') && AllDigits(d) && (plus + minus != "" ==> d != "")
  }

  lemma WrapMinus(x: int)
    ensures Wrap(0 - Wrap(x)) == Wrap(0 - x)
  {
    var k := WrapNear(x);
    WrapShift(0 - x, -k);
  }

  // Such a word is read as what its digits mean, with its sign and within 32 bits.
  lemma GetnReads(plus: Word, minus: Word, d: Word)
    requires Signed(plus, minus, d)
    ensures Getn(plus + minus + d) == Some(Wrap(if minus == "" then Decimal(d) else 0 - Decimal(d)))
  {
    var s := plus + minus + d;
    assert d + "" == d;
    DigitsRead(d, "");
    WrapMinus(Decimal(d));
    var s1 := minus + d;
    assert plus == "" ==> s == s1;
    assert plus == "+" ==> s[1..] == s1 && s[0] == '+';
    assert minus == "" ==> s1 == d;
    assert minus == "-" ==> s1[1..] == d && s1[0] == '-';
  }

  // No other word is read.
  lemma GetnOnly(s: Word) returns (plus: Word, minus: Word, d: Word)
    requires Getn(s).Some?
    ensures Signed(plus, minus, d) && s == plus + minus + d
  {
    plus := if |s| > 1 && s[0] == '+' then "+" else "";
    var s1 := s[|plus|..];
    minus := if s1 != "" && s1[0] == '-' then "-" else "";
    d := s1[|minus|..];
    DigitsOnly(d, 0);
    assert s == plus + s1 && s1 == minus + d;
  }

  lemma {:induction false} DigitsOnly(s: Word, n: Int32)
    requires Digits(s, n).1 == ""
    ensures AllDigits(s)
    decreases |s|
  {
    if s != "" {
      DigitsOnly(s[1..], Wrap(Wrap(n * 10) + (s[0] as int - '0' as int)));
      assert forall i | 0 < i < |s| :: s[i] == s[1..][i - 1];
    }
  }

  // ----- what putn writes -----

  // Digits without a zero in front.
  predicate Shortest(d: Word) {
    AllDigits(d) && d != "" && (d[0] == '0' ==> d == "0")
  }

  lemma {:induction false} PutDigitsShortest(n: nat)
    ensures Shortest(PutDigits(n)) && Decimal(PutDigits(n)) == n && (n > 0 ==> PutDigits(n)[0] != '0')
    decreases n
  {
    var d := PutDigits(n);
    if n > 9 {
      PutDigitsShortest(n / 10);
    }
    assert d[..|d| - 1] == if n > 9 then PutDigits(n / 10) else "";
  }

  function Size(n: int): nat {
    if n < 0 then -n else n
  }

  // The digits of n without a zero in front, after a minus if n is negative.
  lemma PutnWrites(n: Int32) returns (d: Word)
    ensures Putn(n) == (if n < 0 then "-" else "") + d && Shortest(d) && Decimal(d) == Size(n)
  {
    if n == -0x8000_0000 {
      d := "2" + PutDigits(147483648);
      Lowest();
      LowestDigits(147483648);
    } else {
      d := PutDigits(Size(n));
      WrapSame(Size(n));
      PutDigitsShortest(Size(n));
    }
  }

  lemma LowestDigits(n: nat)
    ensures var d := "2" + PutDigits(n); Shortest(d) && Decimal(d) == After(2, n)
  {
    assert [Digit(2)] == "2";
    DecimalAfter(2, n);
  }

  lemma {:induction false} DecimalAfter(a: nat, n: nat)
    requires a < 10
    ensures var d := [Digit(a)] + PutDigits(n); AllDigits(d) && Decimal(d) == After(a, n)
    decreases n
  {
    var d := [Digit(a)] + PutDigits(n);
    PutDigitsShortest(n);
    if n > 9 {
      DecimalAfter(a, n / 10);
      assert d[..|d| - 1] == [Digit(a)] + PutDigits(n / 10);
    } else {
      assert d[..|d| - 1] == [Digit(a)] && [Digit(a)][..0] == "";
    }
  }
}
