/**
 * The order csh keeps its variable and alias names in.  A name is compared by
 * its first character alone and only then by Strcmp, and the two disagree on
 * where the terminating NUL stands: in the first comparison it is the number 0,
 * in Strcmp it is below every other character.
 */
module Names {

  // A Char is a signed 16-bit value; the NUL that ends a string is not part of it.
  type Char = c: int | -32768 <= c < 32768 && c != 0 witness 1
  type Name = seq<Char>

  // What `*name` reads: the NUL when the name is empty.
  function First(s: Name): int {
    if s == [] then 0 else s[0]
  }

  function Strcmp(a: Name, b: Name): int {
    if a != [] && b != [] && a[0] == b[0] then Strcmp(a[1..], b[1..])
    else if a == [] && b == [] then 0
    else if a == [] then -1
    else if b == [] then 1
    else a[0] as int - b[0] as int
  }

  function Compare(a: Name, b: Name): int {
    var f := First(a) - First(b);
    if f != 0 then f else Strcmp(a, b)
  }

  predicate Less(a: Name, b: Name) {
    Compare(a, b) < 0
  }

  lemma {:induction false} StrcmpOrder(a: Name, b: Name)
    ensures Strcmp(a, b) == 0 <==> a == b
    ensures Strcmp(a, b) < 0 <==> Strcmp(b, a) > 0
  {
    if a != [] && b != [] && a[0] == b[0] {
      StrcmpOrder(a[1..], b[1..]);
      assert a == [a[0]] + a[1..] && b == [b[0]] + b[1..];
    }
  }

  lemma {:induction false} StrcmpTransitive(a: Name, b: Name, c: Name)
    requires Strcmp(a, b) < 0 && Strcmp(b, c) < 0
    ensures Strcmp(a, c) < 0
  {
    if a != [] && b != [] && c != [] && a[0] == b[0] && b[0] == c[0] {
      StrcmpTransitive(a[1..], b[1..], c[1..]);
    }
  }

  // The two-stage comparison is a strict total order on names.
  lemma {:induction false} CompareOrder(a: Name, b: Name)
    ensures Compare(a, b) == 0 <==> a == b
    ensures Compare(a, b) < 0 <==> Compare(b, a) > 0
  {
    StrcmpOrder(a, b);
  }

  lemma {:induction false} LessTransitive(a: Name, b: Name, c: Name)
    requires Less(a, b) && Less(b, c)
    ensures Less(a, c)
  {
    if First(a) == First(b) && First(b) == First(c) {
      StrcmpTransitive(a, b, c);
    }
  }

  // b goes on where a ends, or has the greater character where they first differ.
  predicate ComesFirst(a: Name, b: Name, k: nat) {
    k <= |a| && k < |b| && a[..k] == b[..k] && (k == |a| || a[k] < b[k])
  }

  lemma {:induction false} StrcmpSays(a: Name, b: Name) returns (k: nat)
    ensures Strcmp(a, b) < 0 ==> ComesFirst(a, b, k)
    ensures Strcmp(a, b) > 0 ==> ComesFirst(b, a, k)
  {
    if a != [] && b != [] && a[0] == b[0] {
      k := StrcmpSays(a[1..], b[1..]);
      k := k + 1;
      if Strcmp(a, b) != 0 {
        assert a[..k] == [a[0]] + a[1..][..k - 1] && b[..k] == [b[0]] + b[1..][..k - 1];
      }
    } else {
      k := 0;
    }
  }

  // Which of two different names comes first: by the first characters, the end of a name
  // counting as 0; else by the first place where they differ, the end of a name first.
  lemma {:induction false} LessSays(a: Name, b: Name)
    ensures First(a) < First(b) ==> Less(a, b)
    ensures First(a) == First(b) && Less(a, b) ==> exists k :: ComesFirst(a, b, k)
    ensures First(a) == First(b) && a != b && !Less(a, b) ==> exists k :: ComesFirst(b, a, k)
    ensures First(a) > First(b) ==> !Less(a, b)
  {
    CompareOrder(a, b);
    var k := StrcmpSays(a, b);
  }
}

/**
 * The shape of a variable tree as a value: which node hangs where and what its
 * fields hold.  N is the type of the nodes' identities.
 */
module VarTree {
  import opened Common
  import opened Names

  type Value = seq<seq<int>>

  datatype Entry = Entry(name: Name, vec: Value)

  datatype Tree<N> =
    | Leaf
    | Node(left: Tree<N>, id: N, entry: Entry, bal: int, right: Tree<N>)

  /** The path from a hole back to the header; each step holds the other subtree. */
  datatype Ctx<N> =
    | Top
    | InLeft(id: N, entry: Entry, bal: int, right: Tree<N>, up: Ctx<N>)
    | InRight(left: Tree<N>, id: N, entry: Entry, bal: int, up: Ctx<N>)

  function Max(a: int, b: int): int {
    if a < b then b else a
  }

  function Height<N>(t: Tree<N>): nat {
    match t
    case Leaf => 0
    case Node(l, _, _, _, r) => 1 + Max(Height(l), Height(r))
  }

  function InOrder<N>(t: Tree<N>): seq<Entry> {
    match t
    case Leaf => []
    case Node(l, _, e, _, r) => InOrder(l) + [e] + InOrder(r)
  }

  // Every stored balance factor is right height minus left height, in -1..1.
  predicate Avl<N>(t: Tree<N>) {
    match t
    case Leaf => true
    case Node(l, _, _, bal, r) =>
      bal == Height(r) - Height(l) && -1 <= bal <= 1 && Avl(l) && Avl(r)
  }

  predicate Sorted(s: seq<Entry>) {
    forall i, j | 0 <= i < j < |s| :: Less(s[i].name, s[j].name)
  }

  function PlugOne<N>(c: Ctx<N>, t: Tree<N>): Tree<N>
    requires !c.Top?
  {
    match c
    case InLeft(n, e, bal, r, _) => Node(t, n, e, bal, r)
    case InRight(l, n, e, bal, _) => Node(l, n, e, bal, t)
  }

  function Plug<N>(c: Ctx<N>, t: Tree<N>): Tree<N>
    decreases c
  {
    if c.Top? then t else Plug(c.up, PlugOne(c, t))
  }

  function Before<N>(c: Ctx<N>): seq<Entry> {
    match c
    case Top => []
    case InLeft(_, _, _, _, up) => Before(up)
    case InRight(l, _, e, _, up) => Before(up) + InOrder(l) + [e]
  }

  function After<N>(c: Ctx<N>): seq<Entry> {
    match c
    case Top => []
    case InLeft(_, e, _, r, up) => [e] + InOrder(r) + After(up)
    case InRight(_, _, _, _, up) => After(up)
  }

  lemma {:induction false} PlugInOrder<N>(c: Ctx<N>, t: Tree<N>)
    ensures InOrder(Plug(c, t)) == Before(c) + InOrder(t) + After(c)
    decreases c
  {
    if c.Top? {
    } else {
      PlugInOrder(c.up, PlugOne(c, t));
      assert InOrder(Plug(c, t)) == Before(c.up) + InOrder(PlugOne(c, t)) + After(c.up);
    }
  }

  // The path is balanced provided that the hole holds a tree of height h.
  predicate AvlCtx<N>(c: Ctx<N>, h: int) {
    match c
    case Top => true
    case InLeft(_, _, bal, r, up) =>
      bal == Height(r) - h && -1 <= bal <= 1 && Avl(r) && AvlCtx(up, 1 + Max(h, Height(r)))
    case InRight(l, _, _, bal, up) =>
      bal == h - Height(l) && -1 <= bal <= 1 && Avl(l) && AvlCtx(up, 1 + Max(h, Height(l)))
  }

  lemma {:induction false} AvlOne<N>(c: Ctx<N>, t: Tree<N>)
    requires !c.Top?
    ensures Avl(PlugOne(c, t)) && AvlCtx(c.up, Height(PlugOne(c, t))) <==> AvlCtx(c, Height(t)) && Avl(t)
  {
    var p := PlugOne(c, t);
    assert p.Node? && Height(p) == 1 + Max(Height(p.left), Height(p.right));
  }

  lemma {:induction false} AvlPlug<N>(c: Ctx<N>, t: Tree<N>)
    ensures Avl(Plug(c, t)) <==> AvlCtx(c, Height(t)) && Avl(t)
    decreases c
  {
    if !c.Top? {
      AvlPlug(c.up, PlugOne(c, t));
      AvlOne(c, t);
    }
  }

  // ----- rotations -----

  function RotateLeft<N>(t: Tree<N>): Tree<N>
    requires t.Node? && t.right.Node?
  {
    t.right.(left := t.(right := t.right.left))
  }

  function RotateRight<N>(t: Tree<N>): Tree<N>
    requires t.Node? && t.left.Node?
  {
    t.left.(right := t.(left := t.left.right))
  }

  function SetBals<N>(t: Tree<N>, l: int, b: int, r: int): Tree<N>
    requires t.Node? && t.left.Node? && t.right.Node?
  {
    t.(left := t.left.(bal := l), bal := b, right := t.right.(bal := r))
  }

  // The balance factors given out after a double rotation, from that of the new root.
  function LowBal(b: int): int { if b < 1 then 0 else -1 }
  function HighBal(b: int): int { if b > -1 then 0 else 1 }

  // t is a node whose right subtree has just become one higher against its left.
  predicate LeansRight<N>(t: Tree<N>) {
    t.Node? && Avl(t.left) && Avl(t.right) && -1 <= t.bal <= 1 &&
    Height(t.right) - Height(t.left) == t.bal + 1
  }

  predicate LeansLeft<N>(t: Tree<N>) {
    t.Node? && Avl(t.left) && Avl(t.right) && -1 <= t.bal <= 1 &&
    Height(t.right) - Height(t.left) == t.bal - 1
  }

  function RebalanceRight<N>(t: Tree<N>): Tree<N>
    requires LeansRight(t)
  {
    if t.bal < 1 then t.(bal := t.bal + 1)
    else if t.right.bal == 1 then
      var u := RotateLeft(t);
      u.(left := u.left.(bal := 0), bal := 0)
    else if t.right.bal == 0 then
      var u := RotateLeft(t);
      u.(left := u.left.(bal := 1), bal := -1)
    else
      var u := RotateLeft(t.(right := RotateRight(t.right)));
      SetBals(u, LowBal(u.bal), 0, HighBal(u.bal))
  }

  function RebalanceLeft<N>(t: Tree<N>): Tree<N>
    requires LeansLeft(t)
  {
    if t.bal > -1 then t.(bal := t.bal - 1)
    else if t.left.bal == -1 then
      var u := RotateRight(t);
      u.(right := u.right.(bal := 0), bal := 0)
    else if t.left.bal == 0 then
      var u := RotateRight(t);
      u.(right := u.right.(bal := -1), bal := 1)
    else
      var u := RotateRight(t.(left := RotateLeft(t.left)));
      SetBals(u, LowBal(u.bal), 0, HighBal(u.bal))
  }

  // The height the node had before the change: a deletion took one from the
  // light side, an insertion added one to the heavy side.
  function OldHeight(light: int, heavy: int, deleted: bool): int {
    if deleted then 1 + Max(light + 1, heavy) else 1 + Max(light, heavy - 1)
  }

  // The subtree's height is unchanged exactly when the rebalancing loop stops at it.
  predicate Settled(was: int, now: int, bal: int, deleted: bool) {
    if (bal == 0) != deleted then now == was
    else now == (if deleted then was - 1 else was + 1)
  }

  lemma {:induction false} RotateLeftInOrder<N>(t: Tree<N>)
    requires t.Node? && t.right.Node?
    ensures InOrder(RotateLeft(t)) == InOrder(t)
  {
    var Node(a, _, e, _, Node(b, _, f, _, c)) := t;
    assert InOrder(t) == InOrder(a) + [e] + (InOrder(b) + [f] + InOrder(c));
  }

  lemma {:induction false} RotateRightInOrder<N>(t: Tree<N>)
    requires t.Node? && t.left.Node?
    ensures InOrder(RotateRight(t)) == InOrder(t)
  {
    var Node(Node(a, _, e, _, b), _, f, _, c) := t;
    assert InOrder(RotateRight(t)) == InOrder(a) + [e] + (InOrder(b) + [f] + InOrder(c));
  }

  lemma {:induction false} RebalanceRightInOrder<N>(t: Tree<N>)
    requires LeansRight(t)
    ensures InOrder(RebalanceRight(t)) == InOrder(t)
  {
    if t.bal == 1 {
      if t.right.bal == -1 {
        RotateRightInOrder(t.right);
        RotateLeftInOrder(t.(right := RotateRight(t.right)));
      } else {
        RotateLeftInOrder(t);
      }
    }
  }

  lemma {:induction false} RebalanceLeftInOrder<N>(t: Tree<N>)
    requires LeansLeft(t)
    ensures InOrder(RebalanceLeft(t)) == InOrder(t)
  {
    if t.bal == -1 {
      if t.left.bal == 1 {
        RotateLeftInOrder(t.left);
        RotateRightInOrder(t.(left := RotateLeft(t.left)));
      } else {
        RotateRightInOrder(t);
      }
    }
  }

  lemma {:induction false} RebalanceRightCorrect<N>(t: Tree<N>, deleted: bool)
    requires LeansRight(t)
    ensures var u := RebalanceRight(t);
      u.Node? && Avl(u) &&
      Settled(OldHeight(Height(t.left), Height(t.right), deleted), Height(u), u.bal, deleted)
  {
    if t.bal == 1 {
      var Node(a, p, e, _, Node(m, q, f, b, d)) := t;
      if b == -1 {
        DoubleRotation(a, p, e, m, q, f, d);
        assert RebalanceRight(t) == AfterDouble(a, p, e, m, q, f, d);
      } else {
        assert RebalanceRight(t) == Node(Node(a, p, e, 1 - b, m), q, f, b - 1, d);
      }
    }
  }

  lemma {:induction false} RebalanceLeftCorrect<N>(t: Tree<N>, deleted: bool)
    requires LeansLeft(t)
    ensures var u := RebalanceLeft(t);
      u.Node? && Avl(u) &&
      Settled(OldHeight(Height(t.right), Height(t.left), deleted), Height(u), u.bal, deleted)
  {
    if t.bal == -1 {
      var Node(Node(a, p, e, b, m), q, f, _, d) := t;
      if b == 1 {
        DoubleRotation(a, p, e, m, q, f, d);
        assert RebalanceLeft(t) == AfterDouble(a, p, e, m, q, f, d);
      } else {
        assert RebalanceLeft(t) == Node(a, p, e, b + 1, Node(m, q, f, -1 - b, d));
      }
    }
  }

  // Both double rotations lift the middle tree m over its two neighbours.
  function AfterDouble<N>(a: Tree<N>, p: N, e: Entry, m: Tree<N>, q: N, f: Entry, d: Tree<N>): Tree<N>
    requires m.Node?
  {
    Node(Node(a, p, e, LowBal(m.bal), m.left), m.id, m.entry, 0, Node(m.right, q, f, HighBal(m.bal), d))
  }

  lemma {:induction false} DoubleRotation<N>(a: Tree<N>, p: N, e: Entry, m: Tree<N>, q: N, f: Entry, d: Tree<N>)
    requires m.Node? && Avl(a) && Avl(m) && Avl(d)
    requires Height(m) == Height(a) + 1 == Height(d) + 1
    ensures var u := AfterDouble(a, p, e, m, q, f, d);
      Avl(u) && Height(u) == Height(a) + 2
  {
    var u := AfterDouble(a, p, e, m, q, f, d);
    assert Height(u.left) == Height(u.right) == Height(a) + 1;
  }

  predicate Leans<N>(t: Tree<N>, right: bool) {
    if right then LeansRight(t) else LeansLeft(t)
  }

  // u is t put right: the same entries, balanced, and no higher or lower than
  // before the change exactly when the rebalancing loop would stop at it.
  predicate Repaired<N>(t: Tree<N>, u: Tree<N>, right: bool, deleted: bool)
    requires t.Node?
  {
    var light := Height(if right then t.left else t.right);
    var heavy := Height(if right then t.right else t.left);
    u.Node? && Avl(u) && InOrder(u) == InOrder(t) &&
    Settled(OldHeight(light, heavy, deleted), Height(u), u.bal, deleted)
  }

  // The height a hole had before the subtree in it lost or gained a node.
  function Expected<N>(t: Tree<N>, deleted: bool): int {
    if deleted then Height(t) + 1 else Height(t) - 1
  }

  // A subtree that lost or gained a node makes the node above it lean.
  lemma {:induction false} ChangeLeans<N>(c: Ctx<N>, t: Tree<N>, deleted: bool)
    requires !c.Top? && Avl(t) && AvlCtx(c, Expected(t, deleted))
    ensures Leans(PlugOne(c, t), c.InRight? != deleted)
  {
  }

  // Once that node is put right, the path above it is either balanced already or
  // waits for the same repair one step further up.
  lemma {:induction false} RepairStep<N>(c: Ctx<N>, t: Tree<N>, u: Tree<N>, deleted: bool)
    requires !c.Top? && Avl(t) && AvlCtx(c, Expected(t, deleted))
    requires Repaired(PlugOne(c, t), u, c.InRight? != deleted, deleted)
    ensures AvlCtx(c.up, if (u.bal == 0) != deleted then Height(u) else Expected(u, deleted))
  {
  }

  // ----- how high a balanced tree can be -----

  function Fib(n: nat): nat {
    if n < 2 then n else Fib(n - 1) + Fib(n - 2)
  }

  lemma {:induction false} FibMonotone(m: nat, n: nat)
    requires m <= n
    ensures Fib(m) <= Fib(n)
    decreases n - m
  {
    if m < n {
      FibMonotone(m + 1, n);
    }
  }

  // A balanced tree of height h holds at least Fib(h + 2) - 1 variables.
  lemma {:induction false} AvlIsDense<N>(t: Tree<N>)
    requires Avl(t)
    ensures Fib(Height(t) + 2) <= |InOrder(t)| + 1
  {
    match t
    case Leaf =>
    case Node(l, _, _, _, r) =>
      AvlIsDense(l);
      AvlIsDense(r);
      FibMonotone(Height(t), Height(l) + 2);
      FibMonotone(Height(t), Height(r) + 2);
      assert Height(t) + 1 == Height(l) + 2 || Height(t) + 1 == Height(r) + 2;
      assert |InOrder(t)| == |InOrder(l)| + 1 + |InOrder(r)|;
  }

  lemma {:induction false} FibDoubles(n: nat)
    ensures Pow2(n / 2) <= Fib(n + 2)
  {
    if n >= 2 {
      FibDoubles(n - 2);
      FibMonotone(n, n + 1);
      assert Pow2(n / 2) == 2 * Pow2(n / 2 - 1);
    }
  }

  // ----- the variables as a finite map -----

  function ToMap(s: seq<Entry>): map<Name, Value> {
    if s == [] then map[] else ToMap(s[1..])[s[0].name := s[0].vec]
  }

  predicate AllBelow(s: seq<Entry>, n: Name) {
    forall i | 0 <= i < |s| :: Less(s[i].name, n)
  }

  predicate AllAbove(s: seq<Entry>, n: Name) {
    forall i | 0 <= i < |s| :: Less(n, s[i].name)
  }

  lemma {:induction false} ToMapDomain(s: seq<Entry>, n: Name)
    ensures n in ToMap(s) <==> exists i :: 0 <= i < |s| && s[i].name == n
  {
    if s != [] {
      ToMapDomain(s[1..], n);
      if n in ToMap(s[1..]) {
        var i :| 0 <= i < |s[1..]| && s[1..][i].name == n;
        assert s[i + 1].name == n;
      } else if i :| 0 <= i < |s| && s[i].name == n {
        assert i == 0 || s[1..][i - 1].name == n;
      }
    }
  }

  // A sorted run of entries has no two of the same name.
  lemma {:induction false} ToMapSize(s: seq<Entry>)
    requires Sorted(s)
    ensures |ToMap(s)| == |s|
  {
    if s != [] {
      ToMapSize(s[1..]);
      ToMapDomain(s[1..], s[0].name);
      CompareOrder(s[0].name, s[0].name);
    }
  }

  lemma {:induction false} AbsentBetween(a: seq<Entry>, b: seq<Entry>, n: Name)
    requires AllBelow(a, n) && AllAbove(b, n)
    ensures n !in ToMap(a + b)
  {
    ToMapDomain(a + b, n);
    CompareOrder(n, n);
  }

  lemma {:induction false} SortedInsert(a: seq<Entry>, e: Entry, b: seq<Entry>)
    requires Sorted(a + b) && AllBelow(a, e.name) && AllAbove(b, e.name)
    ensures Sorted(a + [e] + b)
  {
    forall i, j | 0 <= i < j < |a + [e] + b|
      ensures Less((a + [e] + b)[i].name, (a + [e] + b)[j].name)
    {
      var i', j' := if i <= |a| then i else i - 1, if j <= |a| then j else j - 1;
      assert i != |a| ==> (a + b)[i'] == (a + [e] + b)[i];
      assert j != |a| ==> (a + b)[j'] == (a + [e] + b)[j];
    }
  }

  lemma {:induction false} SortedRemove(a: seq<Entry>, e: Entry, b: seq<Entry>)
    requires Sorted(a + [e] + b)
    ensures Sorted(a + b) && AllBelow(a, e.name) && AllAbove(b, e.name)
  {
    var s := a + [e] + b;
    forall i | 0 <= i < |a| ensures Less(a[i].name, e.name) {
      assert s[i] == a[i] && s[|a|] == e;
    }
    forall i | 0 <= i < |b| ensures Less(e.name, b[i].name) {
      assert s[|a| + 1 + i] == b[i] && s[|a|] == e;
    }
    forall i, j | 0 <= i < j < |a + b| ensures Less((a + b)[i].name, (a + b)[j].name) {
      var i', j' := if i < |a| then i else i + 1, if j < |a| then j else j + 1;
      assert s[i'] == (a + b)[i] && s[j'] == (a + b)[j];
    }
  }

  lemma {:induction false} ToMapInsert(a: seq<Entry>, e: Entry, b: seq<Entry>)
    requires AllBelow(a, e.name)
    ensures ToMap(a + [e] + b) == ToMap(a + b)[e.name := e.vec]
  {
    if a == [] {
      assert a + [e] + b == [e] + b && a + b == b;
      assert ([e] + b)[1..] == b;
    } else {
      ToMapInsert(a[1..], e, b);
      assert (a + [e] + b)[1..] == a[1..] + [e] + b;
      assert (a + b)[1..] == a[1..] + b;
      CompareOrder(e.name, e.name);
    }
  }

  lemma {:induction false} ToMapRemove(a: seq<Entry>, e: Entry, b: seq<Entry>)
    requires Sorted(a + [e] + b)
    ensures ToMap(a + b) == ToMap(a + [e] + b) - {e.name}
  {
    SortedRemove(a, e, b);
    ToMapInsert(a, e, b);
    AbsentBetween(a, b, e.name);
  }

  // ----- descending by comparison -----

  function LeftCtx<N>(c: Ctx<N>, t: Tree<N>): Ctx<N>
    requires t.Node?
  {
    InLeft(t.id, t.entry, t.bal, t.right, c)
  }

  function RightCtx<N>(c: Ctx<N>, t: Tree<N>): Ctx<N>
    requires t.Node?
  {
    InRight(t.left, t.id, t.entry, t.bal, c)
  }

  // The hole of path c is where name n belongs.
  predicate Brackets<N>(c: Ctx<N>, n: Name) {
    AllBelow(Before(c), n) && AllAbove(After(c), n)
  }

  lemma {:induction false} DescendLeft<N>(c: Ctx<N>, t: Tree<N>, n: Name)
    requires t.Node? && Sorted(Before(c) + InOrder(t) + After(c)) && Brackets(c, n)
    requires Compare(n, t.entry.name) < 0
    ensures Brackets(LeftCtx(c, t), n)
  {
    var s := Before(c) + InOrder(t) + After(c);
    var k := |Before(c)| + |InOrder(t.left)|;
    assert s[k] == t.entry;
    assert s[k..] == After(LeftCtx(c, t));
    forall i | 0 < i < |After(LeftCtx(c, t))| ensures Less(n, After(LeftCtx(c, t))[i].name) {
      assert After(LeftCtx(c, t))[i] == s[k + i];
      LessTransitive(n, t.entry.name, s[k + i].name);
    }
  }

  lemma {:induction false} DescendRight<N>(c: Ctx<N>, t: Tree<N>, n: Name)
    requires t.Node? && Sorted(Before(c) + InOrder(t) + After(c)) && Brackets(c, n)
    requires Compare(n, t.entry.name) > 0
    ensures Brackets(RightCtx(c, t), n)
  {
    var s := Before(c) + InOrder(t) + After(c);
    var k := |Before(c)| + |InOrder(t.left)|;
    CompareOrder(t.entry.name, n);
    assert s[k] == t.entry;
    assert s[..k + 1] == Before(RightCtx(c, t));
    forall i | 0 <= i < k ensures Less(Before(RightCtx(c, t))[i].name, n) {
      assert Before(RightCtx(c, t))[i] == s[i];
      LessTransitive(s[i].name, t.entry.name, n);
    }
  }

  // The hole's context on the side the comparison sends n to.
  function Descend<N>(c: Ctx<N>, t: Tree<N>, right: bool): Ctx<N>
    requires t.Node?
  {
    if right then RightCtx(c, t) else LeftCtx(c, t)
  }

  function Child<N>(t: Tree<N>, right: bool): Tree<N>
    requires t.Node?
  {
    if right then t.right else t.left
  }

  lemma {:induction false} DescendStep<N>(c: Ctx<N>, t: Tree<N>, n: Name)
    requires t.Node? && Sorted(InOrder(Plug(c, t))) && Brackets(c, n)
    requires Compare(n, t.entry.name) != 0
    ensures Brackets(Descend(c, t, Compare(n, t.entry.name) > 0), n)
    ensures forall right :: Plug(Descend(c, t, right), Child(t, right)) == Plug(c, t)
  {
    PlugInOrder(c, t);
    if Compare(n, t.entry.name) < 0 {
      DescendLeft(c, t, n);
    } else {
      DescendRight(c, t, n);
    }
  }

  // The entries on either side of the root of t, in the tree that t is plugged into.
  function LeftOf<N>(c: Ctx<N>, t: Tree<N>): seq<Entry>
    requires t.Node?
  {
    Before(c) + InOrder(t.left)
  }

  function RightOf<N>(c: Ctx<N>, t: Tree<N>): seq<Entry>
    requires t.Node?
  {
    InOrder(t.right) + After(c)
  }

  lemma {:induction false} PlugAround<N>(c: Ctx<N>, t: Tree<N>)
    requires t.Node?
    ensures InOrder(Plug(c, t)) == LeftOf(c, t) + [t.entry] + RightOf(c, t)
  {
    PlugInOrder(c, t);
    var a, x, e, y, b := Before(c), InOrder(t.left), t.entry, InOrder(t.right), After(c);
    assert a + (x + [e] + y) + b == (a + x) + [e] + (y + b);
  }

  // Where the search ends, the map says the same.
  lemma {:induction false} SearchMisses<N>(c: Ctx<N>, n: Name)
    requires Brackets(c, n)
    ensures n !in ToMap(InOrder(Plug(c, Leaf)))
  {
    PlugInOrder(c, Leaf);
    AbsentBetween(Before(c), After(c), n);
    assert InOrder(Plug(c, Leaf)) == Before(c) + After(c);
  }

  lemma {:induction false} SearchHits<N>(c: Ctx<N>, t: Tree<N>, n: Name)
    requires t.Node? && Sorted(InOrder(Plug(c, t))) && Compare(n, t.entry.name) == 0
    ensures var m := ToMap(InOrder(Plug(c, t)));
      t.entry.name == n && n in m && m[n] == t.entry.vec
  {
    CompareOrder(n, t.entry.name);
    PlugAround(c, t);
    SortedRemove(LeftOf(c, t), t.entry, RightOf(c, t));
    ToMapInsert(LeftOf(c, t), t.entry, RightOf(c, t));
  }

  // A path no longer than the height of a balanced tree is logarithmic in its size.
  lemma {:induction false} SearchIsShort<N>(t: Tree<N>, steps: nat)
    requires Avl(t) && Sorted(InOrder(t)) && steps <= Height(t)
    ensures Fib(steps + 2) <= |ToMap(InOrder(t))| + 1
    ensures Pow2(steps / 2) <= |ToMap(InOrder(t))| + 1
  {
    AvlIsDense(t);
    ToMapSize(InOrder(t));
    FibMonotone(steps + 2, Height(t) + 2);
    FibDoubles(steps);
  }

  // Storing under a name that is absent, and under one that is present.
  lemma {:induction false} InsertedAt<N>(c: Ctx<N>, n: N, e: Entry, tree: Tree<N>)
    requires Sorted(InOrder(Plug(c, Leaf))) && Brackets(c, e.name)
    requires InOrder(tree) == Before(c) + InOrder(Node(Leaf, n, e, 0, Leaf)) + After(c)
    ensures Sorted(InOrder(tree))
    ensures ToMap(InOrder(tree)) == ToMap(InOrder(Plug(c, Leaf)))[e.name := e.vec]
  {
    PlugInOrder(c, Leaf);
    assert Before(c) + InOrder<N>(Leaf) + After(c) == Before(c) + After(c);
    assert InOrder(Node(Leaf, n, e, 0, Leaf)) == [e];
    SortedInsert(Before(c), e, After(c));
    ToMapInsert(Before(c), e, After(c));
  }

  lemma {:induction false} ReplacedAt<N>(c: Ctx<N>, t: Tree<N>, v: Value)
    requires t.Node? && Sorted(InOrder(Plug(c, t))) && Avl(Plug(c, t))
    ensures var u := Plug(c, t.(entry := Entry(t.entry.name, v)));
      Sorted(InOrder(u)) && Avl(u) &&
      ToMap(InOrder(u)) == ToMap(InOrder(Plug(c, t)))[t.entry.name := v]
  {
    var e := Entry(t.entry.name, v);
    var t' := t.(entry := e);
    PlugAround(c, t);
    PlugAround(c, t');
    SortedRemove(LeftOf(c, t), t.entry, RightOf(c, t));
    SortedInsert(LeftOf(c, t), e, RightOf(c, t));
    ToMapInsert(LeftOf(c, t), t.entry, RightOf(c, t));
    ToMapInsert(LeftOf(c, t), e, RightOf(c, t));
    AvlPlug(c, t);
    AvlPlug(c, t');
  }

  lemma {:induction false} OnlyChildEntries<N>(c: Ctx<N>, t: Tree<N>)
    requires t.Node? && Avl(t) && AvlCtx(c, Height(t)) && (t.left.Leaf? || t.right.Leaf?)
    ensures var u := if t.right.Leaf? then t.left else t.right;
      Avl(u) && AvlCtx(c, Height(u) + 1) && Before(c) + InOrder(u) + After(c) == LeftOf(c, t) + RightOf(c, t)
  {
    assert Before(c) + InOrder(t.left) + After(c) == Before(c) + InOrder(t.left) + ([] + After(c));
    assert Before(c) + InOrder(t.right) + After(c) == (Before(c) + []) + (InOrder(t.right) + After(c));
  }

  lemma {:induction false} RemovedAt<N>(c: Ctx<N>, t: Tree<N>, tree: Tree<N>)
    requires t.Node? && Sorted(InOrder(Plug(c, t)))
    requires InOrder(tree) == LeftOf(c, t) + RightOf(c, t)
    ensures Sorted(InOrder(tree))
    ensures t.entry.name in ToMap(InOrder(Plug(c, t)))
    ensures ToMap(InOrder(tree)) == ToMap(InOrder(Plug(c, t))) - {t.entry.name}
  {
    PlugAround(c, t);
    SortedRemove(LeftOf(c, t), t.entry, RightOf(c, t));
    ToMapInsert(LeftOf(c, t), t.entry, RightOf(c, t));
    ToMapRemove(LeftOf(c, t), t.entry, RightOf(c, t));
  }

  // ----- the path from a node to its predecessor -----

  // c leaves `base` by right links only.
  predicate Spine<N(==)>(c: Ctx<N>, base: Ctx<N>) {
    c == base || (c.InRight? && Spine(c.up, base))
  }

  function SetEntry<N(==)>(c: Ctx<N>, base: Ctx<N>, e: Entry): Ctx<N>
    requires Spine(c, base) && base.InLeft?
  {
    if c == base then InLeft(base.id, e, base.bal, base.right, base.up)
    else InRight(c.left, c.id, c.entry, c.bal, SetEntry(c.up, base, e))
  }

  lemma {:induction false} SpineDown<N>(base: Ctx<N>, d: Ctx<N>, u: Tree<N>)
    requires u.Node? && Avl(u) && AvlCtx(d, Height(u)) && Spine(d, base)
    ensures Avl(u.right) && AvlCtx(RightCtx(d, u), Height(u.right)) && Spine(RightCtx(d, u), base)
    ensures Before(RightCtx(d, u)) + InOrder(u.right) == Before(d) + InOrder(u)
  {
    assert Before(d) + (InOrder(u.left) + [u.entry] + InOrder(u.right)) ==
      Before(d) + InOrder(u.left) + [u.entry] + InOrder(u.right);
  }

  lemma {:induction false} SpineEntries<N>(c: Ctx<N>, base: Ctx<N>, e: Entry, h: int)
    requires Spine(c, base) && base.InLeft?
    ensures After(c) == [base.entry] + InOrder(base.right) + After(base.up)
    ensures After(SetEntry(c, base, e)) == [e] + InOrder(base.right) + After(base.up)
    ensures Before(SetEntry(c, base, e)) == Before(c)
    ensures AvlCtx(SetEntry(c, base, e), h) <==> AvlCtx(c, h)
  {
    if c != base {
      SpineEntries(c.up, base, e, 1 + Max(h, Height(c.left)));
    }
  }

  // ----- walking from one node to the next -----

  // Going up from a right child, the entries passed stay the same run.
  lemma {:induction false} ClimbRight<N>(c: Ctx<N>, t: Tree<N>)
    requires c.InRight?
    ensures Before(c.up) + InOrder(PlugOne(c, t)) == Before(c) + InOrder(t)
  {
    assert Before(c.up) + (InOrder(c.left) + [c.entry] + InOrder(t)) ==
      Before(c.up) + InOrder(c.left) + [c.entry] + InOrder(t);
  }
}
