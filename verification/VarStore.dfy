/**
 * csh's variable store: AVL-balanced nodes with parent links, hanging off the
 * left link of a header node, changed in place by setq, unsetv1 and balance.
 */
module VarStore {
  import opened Common
  import opened Names
  import opened VarTree

  class Varent {
    var vec: Value
    var name: Name
    var left: Varent?
    var right: Varent?
    var parent: Varent?
    var bal: int

    constructor (name: Name, vec: Value, parent: Varent?)
      ensures this.name == name && this.vec == vec && this.parent == parent
      ensures left == right == null && bal == 0
    {
      this.name := name;
      this.vec := vec;
      this.left := null;
      this.right := null;
      this.parent := parent;
      this.bal := 0;
    }
  }

  // ----- tying the heap to a tree value -----

  ghost function Ids(t: Tree<Varent>): set<Varent> {
    match t
    case Leaf => {}
    case Node(l, n, _, _, r) => {n} + Ids(l) + Ids(r)
  }

  ghost function CtxIds(c: Ctx<Varent>): set<Varent> {
    match c
    case Top => {}
    case InLeft(n, _, _, r, up) => {n} + Ids(r) + CtxIds(up)
    case InRight(l, n, _, _, up) => {n} + Ids(l) + CtxIds(up)
  }

  ghost function Root(t: Tree<Varent>): Varent? {
    if t.Leaf? then null else t.id
  }

  // No node occurs twice.
  ghost predicate Distinct(t: Tree<Varent>) {
    match t
    case Leaf => true
    case Node(l, n, _, _, r) =>
      n !in Ids(l) && n !in Ids(r) && Ids(l) !! Ids(r) && Distinct(l) && Distinct(r)
  }

  ghost predicate DistinctCtx(c: Ctx<Varent>) {
    match c
    case Top => true
    case InLeft(n, _, _, r, up) =>
      n !in Ids(r) && n !in CtxIds(up) && Ids(r) !! CtxIds(up) && Distinct(r) && DistinctCtx(up)
    case InRight(l, n, _, _, up) =>
      n !in Ids(l) && n !in CtxIds(up) && Ids(l) !! CtxIds(up) && Distinct(l) && DistinctCtx(up)
  }

  ghost predicate Apart(h: Varent, c: Ctx<Varent>, t: Tree<Varent>) {
    h !in CtxIds(c) && h !in Ids(t) && CtxIds(c) !! Ids(t) && Distinct(t) && DistinctCtx(c)
  }

  // n's own fields, and its children's parent links, are as the tree says.
  ghost predicate Fits(n: Varent, e: Entry, bal: int)
    reads n
  {
    n.name == e.name && n.vec == e.vec && n.bal == bal
  }

  ghost predicate ChildOf(t: Tree<Varent>, n: Varent)
    reads Ids(t)
  {
    t.Node? ==> t.id.parent == n
  }

  ghost predicate Rep(t: Tree<Varent>)
    reads Ids(t)
  {
    match t
    case Leaf => true
    case Node(l, n, e, bal, r) =>
      Fits(n, e, bal) && n.left == Root(l) && n.right == Root(r) &&
      ChildOf(l, n) && ChildOf(r, n) && Rep(l) && Rep(r)
  }

  ghost function HoleParent(h: Varent, c: Ctx<Varent>): Varent {
    if c.Top? then h else c.id
  }

  // The link that leads into the hole; the header's tree hangs off its left link.
  ghost function HoleLink(h: Varent, c: Ctx<Varent>): Varent?
    reads h, CtxIds(c)
  {
    match c
    case Top => h.left
    case InLeft(n, _, _, _, _) => n.left
    case InRight(_, n, _, _, _) => n.right
  }

  ghost predicate RepCtx(h: Varent, c: Ctx<Varent>)
    reads h, CtxIds(c)
  {
    match c
    case Top => h.parent == null && h.right == null
    case InLeft(n, e, bal, r, up) =>
      Fits(n, e, bal) && n.right == Root(r) && ChildOf(r, n) && Rep(r) &&
      n.parent == HoleParent(h, up) && HoleLink(h, up) == n && RepCtx(h, up)
    case InRight(l, n, e, bal, up) =>
      Fits(n, e, bal) && n.left == Root(l) && ChildOf(l, n) && Rep(l) &&
      n.parent == HoleParent(h, up) && HoleLink(h, up) == n && RepCtx(h, up)
  }

  // The heap below header h holds tree t plugged into path c.
  ghost predicate Zipped(h: Varent, c: Ctx<Varent>, t: Tree<Varent>)
    reads h, CtxIds(c), Ids(t)
  {
    Apart(h, c, t) && RepCtx(h, c) && Rep(t) &&
    HoleLink(h, c) == Root(t) && ChildOf(t, HoleParent(h, c))
  }

  lemma {:induction false} ZipOut(h: Varent, c: Ctx<Varent>, t: Tree<Varent>)
    requires Zipped(h, c, t) && !c.Top?
    ensures Zipped(h, c.up, PlugOne(c, t))
    ensures CtxIds(c.up) + Ids(PlugOne(c, t)) == CtxIds(c) + Ids(t)
  {
  }

  lemma {:induction false} ZipIn(h: Varent, c: Ctx<Varent>, t: Tree<Varent>)
    requires Zipped(h, c, t) && t.Node?
    ensures Zipped(h, LeftCtx(c, t), t.left)
    ensures Zipped(h, RightCtx(c, t), t.right)
    ensures CtxIds(LeftCtx(c, t)) + Ids(t.left) == CtxIds(c) + Ids(t)
    ensures CtxIds(RightCtx(c, t)) + Ids(t.right) == CtxIds(c) + Ids(t)
  {
  }

  lemma {:induction false} ZipAll(h: Varent, c: Ctx<Varent>, t: Tree<Varent>)
    requires Zipped(h, c, t)
    ensures Zipped(h, Top, Plug(c, t))
    ensures Ids(Plug(c, t)) == CtxIds(c) + Ids(t)
    decreases c
  {
    if !c.Top? {
      ZipOut(h, c, t);
      ZipAll(h, c.up, PlugOne(c, t));
    }
  }

  // A node's parent link and the test `pp->v_right == p` find the hole it fills.
  lemma {:induction false} HoleSide(h: Varent, c: Ctx<Varent>, t: Tree<Varent>)
    requires Zipped(h, c, t) && t.Node?
    ensures t.id.parent == HoleParent(h, c)
    ensures (HoleParent(h, c).right == t.id) == c.InRight?
  {
  }

  // `pp->v_link[ff] = q`: only the link into the hole changes.
  method SetHoleLink(pp: Varent, ff: bool, q: Varent?, ghost h: Varent, ghost c: Ctx<Varent>)
    requires RepCtx(h, c) && DistinctCtx(c) && h !in CtxIds(c)
    requires pp == HoleParent(h, c) && ff == c.InRight?
    modifies pp`left, pp`right
    ensures RepCtx(h, c) && HoleLink(h, c) == q
  {
    if !c.Top? {
      assert allocated(CtxIds(c.up)) && allocated(Ids(if c.InLeft? then c.right else c.left));
    }
    if ff {
      pp.right := q;
    } else {
      pp.left := q;
    }
  }

  // ----- rotations -----

  // The rleft macro: p's right child takes p's place.  The caller stores q into
  // the link that held p.
  method RotateLeftAt(p: Varent, ghost t: Tree<Varent>) returns (q: Varent)
    requires t.Node? && t.id == p && t.right.Node? && Rep(t) && Distinct(t)
    modifies Ids(t)`left, Ids(t)`right, Ids(t)`parent
    ensures Rep(RotateLeft(t)) && q == RotateLeft(t).id
    ensures q.parent == old(p.parent)
  {
    ghost var b := t.right.left;
    assert Rep(b) && Distinct(b);
    q := p.right;
    q.parent := p.parent;
    p.right := q.left;
    if p.right != null {
      p.right.parent := p;
    }
    q.left := p;
    p.parent := q;
    assert Rep(b);
  }

  method RotateRightAt(p: Varent, ghost t: Tree<Varent>) returns (q: Varent)
    requires t.Node? && t.id == p && t.left.Node? && Rep(t) && Distinct(t)
    modifies Ids(t)`left, Ids(t)`right, Ids(t)`parent
    ensures Rep(RotateRight(t)) && q == RotateRight(t).id
    ensures q.parent == old(p.parent)
  {
    ghost var b := t.left.right;
    assert Rep(b) && Distinct(b);
    q := p.left;
    q.parent := p.parent;
    p.left := q.right;
    if p.left != null {
      p.left.parent := p;
    }
    q.right := p;
    p.parent := q;
    assert Rep(b);
  }

  lemma {:induction false} RotateLeftIds(t: Tree<Varent>)
    requires t.Node? && t.right.Node? && Distinct(t)
    ensures Ids(RotateLeft(t)) == Ids(t) && Distinct(RotateLeft(t))
  {
  }

  lemma {:induction false} RotateRightIds(t: Tree<Varent>)
    requires t.Node? && t.left.Node? && Distinct(t)
    ensures Ids(RotateRight(t)) == Ids(t) && Distinct(RotateRight(t))
  {
  }

  lemma {:induction false} RebalanceRightIds(t: Tree<Varent>)
    requires LeansRight(t) && Distinct(t)
    ensures Ids(RebalanceRight(t)) == Ids(t) && Distinct(RebalanceRight(t))
  {
    if t.bal == 1 {
      if t.right.bal == -1 {
        RotateRightIds(t.right);
        RotateLeftIds(t.(right := RotateRight(t.right)));
      } else {
        RotateLeftIds(t);
      }
    }
  }

  lemma {:induction false} RebalanceLeftIds(t: Tree<Varent>)
    requires LeansLeft(t) && Distinct(t)
    ensures Ids(RebalanceLeft(t)) == Ids(t) && Distinct(RebalanceLeft(t))
  {
    if t.bal == -1 {
      if t.left.bal == 1 {
        RotateLeftIds(t.left);
        RotateRightIds(t.(left := RotateLeft(t.left)));
      } else {
        RotateRightIds(t);
      }
    }
  }

  // The stored balance factors of a node and its left or right child are rewritten.
  method SetBalsLeft(q: Varent, l: int, b: int, ghost u: Tree<Varent>)
    requires Rep(u) && Distinct(u) && u.Node? && u.id == q && u.left.Node?
    modifies Ids(u)`bal
    ensures Rep(u.(left := u.left.(bal := l), bal := b))
    ensures u.right.Node? ==> u.right.id.bal == old(u.right.id.bal)
  {
    assert Rep(u.left.left) && Rep(u.left.right) && Rep(u.right);
    q.left.bal := l;
    q.bal := b;
  }

  method SetBalsRight(q: Varent, b: int, r: int, ghost u: Tree<Varent>)
    requires Rep(u) && Distinct(u) && u.Node? && u.id == q && u.right.Node?
    modifies Ids(u)`bal
    ensures Rep(u.(bal := b, right := u.right.(bal := r)))
    ensures u.left.Node? ==> u.left.id.bal == old(u.left.id.bal)
  {
    assert Rep(u.right.left) && Rep(u.right.right) && Rep(u.left);
    q.right.bal := r;
    q.bal := b;
  }

  method SetBalsBoth(q: Varent, ghost u: Tree<Varent>)
    requires Rep(u) && Distinct(u) && u.Node? && u.id == q && u.left.Node? && u.right.Node?
    modifies Ids(u)`bal
    ensures Rep(SetBals(u, LowBal(u.bal), 0, HighBal(u.bal)))
  {
    var b := q.bal;
    SetBalsLeft(q, if b < 1 then 0 else -1, b, u);
    ghost var v := u.(left := u.left.(bal := LowBal(b)));
    SetBalsRight(q, 0, if b > -1 then 0 else 1, v);
  }

  // `rright(p->v_right)`: the rotated child is stored back into p's right link.
  method RotateRightChild(p: Varent, ghost t: Tree<Varent>)
    requires t.Node? && t.id == p && t.right.Node? && t.right.left.Node? && Rep(t) && Distinct(t)
    modifies Ids(t)`left, Ids(t)`right, Ids(t)`parent, Ids(t)`bal
    ensures Rep(t.(right := RotateRight(t.right)))
    ensures p.parent == old(p.parent)
  {
    RotateRightIds(t.right);
    assert Rep(t.left) && allocated(Ids(t.left));
    var r := RotateRightAt(p.right, t.right);
    p.right := r;
  }

  method RotateLeftChild(p: Varent, ghost t: Tree<Varent>)
    requires t.Node? && t.id == p && t.left.Node? && t.left.right.Node? && Rep(t) && Distinct(t)
    modifies Ids(t)`left, Ids(t)`right, Ids(t)`parent, Ids(t)`bal
    ensures Rep(t.(left := RotateLeft(t.left)))
    ensures p.parent == old(p.parent)
  {
    RotateLeftIds(t.left);
    assert Rep(t.right) && allocated(Ids(t.right));
    var l := RotateLeftAt(p.left, t.left);
    p.left := l;
  }

  method DoubleRotateLeftAt(p: Varent, ghost t: Tree<Varent>) returns (q: Varent)
    requires t.Node? && t.id == p && t.right.Node? && t.right.left.Node? && Rep(t) && Distinct(t)
    modifies Ids(t)`left, Ids(t)`right, Ids(t)`parent, Ids(t)`bal
    ensures var u := RotateLeft(t.(right := RotateRight(t.right)));
      Rep(SetBals(u, LowBal(u.bal), 0, HighBal(u.bal))) && q == u.id
    ensures q.parent == old(p.parent)
  {
    RotateRightIds(t.right);
    ghost var u := t.(right := RotateRight(t.right));
    RotateLeftIds(u);
    RotateRightChild(p, t);
    q := RotateLeftAt(p, u);
    SetBalsBoth(q, RotateLeft(u));
  }

  method DoubleRotateRightAt(p: Varent, ghost t: Tree<Varent>) returns (q: Varent)
    requires t.Node? && t.id == p && t.left.Node? && t.left.right.Node? && Rep(t) && Distinct(t)
    modifies Ids(t)`left, Ids(t)`right, Ids(t)`parent, Ids(t)`bal
    ensures var u := RotateRight(t.(left := RotateLeft(t.left)));
      Rep(SetBals(u, LowBal(u.bal), 0, HighBal(u.bal))) && q == u.id
    ensures q.parent == old(p.parent)
  {
    RotateLeftIds(t.left);
    ghost var u := t.(left := RotateLeft(t.left));
    RotateRightIds(u);
    RotateLeftChild(p, t);
    q := RotateRightAt(p, u);
    SetBalsBoth(q, RotateRight(u));
  }

  // One arm of the switch in balance: the subtree at p leans to the right.
  method RebalanceRightAt(p: Varent, ghost t: Tree<Varent>) returns (q: Varent)
    requires LeansRight(t) && t.id == p && Rep(t) && Distinct(t)
    modifies Ids(t)`left, Ids(t)`right, Ids(t)`parent, Ids(t)`bal
    ensures Rep(RebalanceRight(t)) && q == RebalanceRight(t).id
    ensures q.parent == old(p.parent)
  {
    if p.bal < 1 {
      assert Rep(t.left) && Rep(t.right);
      p.bal := if p.bal == -1 then 0 else 1;
      return p;
    }
    var b := p.right.bal;
    if b == -1 {
      q := DoubleRotateLeftAt(p, t);
    } else {
      RotateLeftIds(t);
      q := RotateLeftAt(p, t);
      SetBalsLeft(q, if b == 1 then 0 else 1, if b == 1 then 0 else -1, RotateLeft(t));
    }
  }

  method RebalanceLeftAt(p: Varent, ghost t: Tree<Varent>) returns (q: Varent)
    requires LeansLeft(t) && t.id == p && Rep(t) && Distinct(t)
    modifies Ids(t)`left, Ids(t)`right, Ids(t)`parent, Ids(t)`bal
    ensures Rep(RebalanceLeft(t)) && q == RebalanceLeft(t).id
    ensures q.parent == old(p.parent)
  {
    if p.bal > -1 {
      assert Rep(t.left) && Rep(t.right);
      p.bal := if p.bal == 1 then 0 else -1;
      return p;
    }
    var b := p.left.bal;
    if b == 1 {
      q := DoubleRotateRightAt(p, t);
    } else {
      RotateRightIds(t);
      q := RotateRightAt(p, t);
      SetBalsRight(q, if b == -1 then 0 else 1, if b == -1 then 0 else -1, RotateRight(t));
    }
  }

  // The switch in balance, at node p with subtree t.
  method RebalanceAt(p: Varent, right: bool, ghost d: bool, ghost t: Tree<Varent>)
    returns (q: Varent, ghost u: Tree<Varent>)
    requires Leans(t, right) && t.id == p && Rep(t) && Distinct(t)
    modifies Ids(t)`left, Ids(t)`right, Ids(t)`parent, Ids(t)`bal
    ensures Repaired(t, u, right, d)
    ensures Rep(u) && q == u.id && q.parent == old(p.parent)
    ensures Ids(u) == Ids(t) && Distinct(u)
  {
    if right {
      RebalanceRightIds(t);
      RebalanceRightCorrect(t, d);
      RebalanceRightInOrder(t);
      q := RebalanceRightAt(p, t);
      u := RebalanceRight(t);
    } else {
      RebalanceLeftIds(t);
      RebalanceLeftCorrect(t, d);
      RebalanceLeftInOrder(t);
      q := RebalanceLeftAt(p, t);
      u := RebalanceLeft(t);
    }
  }

  // ----- balance -----

  // Puts q, the root of u, where p hung; the parent link of q is right already.
  method Hang(pp: Varent, ff: bool, p: Varent?, q: Varent?, ghost h: Varent, ghost c: Ctx<Varent>, ghost u: Tree<Varent>)
    requires RepCtx(h, c) && HoleLink(h, c) == p && pp == HoleParent(h, c) && ff == c.InRight?
    requires Apart(h, c, u) && Rep(u) && q == Root(u) && ChildOf(u, pp)
    modifies pp`left, pp`right
    ensures Zipped(h, c, u)
  {
    assert allocated(Ids(u));
    if q != p {
      SetHoleLink(pp, ff, q, h, c);
    }
  }

  // One turn of the loop in balance, at node p with subtree t.
  method BalanceStep(p: Varent, right: bool, ghost d: bool, ghost h: Varent, ghost c: Ctx<Varent>, ghost t: Tree<Varent>)
    returns (q: Varent, pp: Varent, ff: bool, ghost u: Tree<Varent>)
    requires Zipped(h, c, t) && Leans(t, right) && t.id == p
    modifies h`left, h`right, h`parent, h`bal
    modifies CtxIds(c)`left, CtxIds(c)`right, CtxIds(c)`parent, CtxIds(c)`bal
    modifies Ids(t)`left, Ids(t)`right, Ids(t)`parent, Ids(t)`bal
    ensures Repaired(t, u, right, d)
    ensures Zipped(h, c, u) && q == u.id && Ids(u) == Ids(t)
    ensures pp == HoleParent(h, c) && ff == c.InRight?
  {
    HoleSide(h, c, t);
    pp := p.parent;
    ff := pp.right == p;
    assert allocated(CtxIds(c));
    q, u := RebalanceAt(p, right, d, t);
    Hang(pp, ff, p, q, h, c, u);
  }

  // Rebalances from p upwards: the subtree t in the hole of path c lost (d) or
  // gained (!d) one level, and everything above it still counts on its old height.
  method Balance(p0: Varent, f0: bool, d: bool, ghost h: Varent, ghost c0: Ctx<Varent>, ghost t0: Tree<Varent>)
    returns (ghost tree: Tree<Varent>)
    requires Zipped(h, c0, t0) && p0 == HoleParent(h, c0) && f0 == c0.InRight?
    requires Avl(t0) && AvlCtx(c0, Expected(t0, d))
    modifies h`left, h`right, h`parent, h`bal
    modifies CtxIds(c0)`left, CtxIds(c0)`right, CtxIds(c0)`parent, CtxIds(c0)`bal
    modifies Ids(t0)`left, Ids(t0)`right, Ids(t0)`parent, Ids(t0)`bal
    ensures Zipped(h, Top, tree) && Ids(tree) == CtxIds(c0) + Ids(t0)
    ensures Avl(tree) && InOrder(tree) == Before(c0) + InOrder(t0) + After(c0)
  {
    ghost var c, t := c0, t0;
    var p, f, done := p0, f0, false;
    PlugInOrder(c, t);
    while !done && p.parent != null
      invariant Zipped(h, c, t) && CtxIds(c) + Ids(t) == CtxIds(c0) + Ids(t0)
      invariant !done ==> p == HoleParent(h, c) && f == c.InRight?
      invariant Avl(t) && AvlCtx(c, if done then Height(t) else Expected(t, d))
      invariant InOrder(Plug(c, t)) == InOrder(Plug(c0, t0))
      decreases c, !done
    {
      ChangeLeans(c, t, d);
      ZipOut(h, c, t);
      var q, pp, ff, u := BalanceStep(p, f != d, d, h, c.up, PlugOne(c, t));
      RepairStep(c, t, u, d);
      PlugInOrder(c.up, u);
      PlugInOrder(c.up, PlugOne(c, t));
      done := (q.bal == 0) != d;
      p, f := pp, ff;
      c, t := c.up, u;
    }
    AvlPlug(c, t);
    ZipAll(h, c, t);
    tree := Plug(c, t);
  }

  // ----- finding a node's place, and taking a node out -----

  lemma {:induction false} Locate(h: Varent, c: Ctx<Varent>, t: Tree<Varent>, n: Varent)
    returns (d: Ctx<Varent>, u: Tree<Varent>)
    requires Zipped(h, c, t) && n in Ids(t)
    ensures Zipped(h, d, u) && u.Node? && u.id == n
    ensures Plug(d, u) == Plug(c, t) && CtxIds(d) + Ids(u) == CtxIds(c) + Ids(t)
    decreases t
  {
    if t.id == n {
      d, u := c, t;
    } else {
      ZipIn(h, c, t);
      if n in Ids(t.left) {
        d, u := Locate(h, LeftCtx(c, t), t.left, n);
      } else {
        d, u := Locate(h, RightCtx(c, t), t.right, n);
      }
    }
  }

  lemma {:induction false} SpineIds(c: Ctx<Varent>, base: Ctx<Varent>, e: Entry)
    requires Spine(c, base) && base.InLeft?
    ensures CtxIds(SetEntry(c, base, e)) == CtxIds(c) >= CtxIds(base)
    ensures DistinctCtx(SetEntry(c, base, e)) == DistinctCtx(c)
  {
    if c != base {
      SpineIds(c.up, base, e);
    }
  }

  lemma {:induction false} SpineBase(c: Ctx<Varent>, base: Ctx<Varent>)
    requires Spine(c, base) && base.InLeft? && DistinctCtx(c)
    ensures base.id in CtxIds(c) && DistinctCtx(base)
    ensures c != base ==> base.id in CtxIds(c.up)
  {
    if c != base {
      SpineBase(c.up, base);
    }
  }

  // RepCtx, but for the name, value and balance factor of the node at the top of a spine.
  ghost predicate RepBut(h: Varent, c: Ctx<Varent>, base: Ctx<Varent>)
    requires Spine(c, base) && base.InLeft? && DistinctCtx(c)
    reads h, CtxIds(c) - {base.id}, base.id`left, base.id`right, base.id`parent
  {
    SpineBase(c, base);
    if c == base then
      var n, r, up := base.id, base.right, base.up;
      n.right == Root(r) && ChildOf(r, n) && Rep(r) &&
      n.parent == HoleParent(h, up) && HoleLink(h, up) == n && RepCtx(h, up)
    else
      var n, l, up := c.id, c.left, c.up;
      Fits(n, c.entry, c.bal) && n.left == Root(l) && ChildOf(l, n) && Rep(l) &&
      n.parent == HoleParent(h, up) && (if up.InLeft? then up.id.left else up.id.right) == n && RepBut(h, up, base)
  }

  lemma {:induction false} RepWithout(h: Varent, c: Ctx<Varent>, base: Ctx<Varent>)
    requires Spine(c, base) && base.InLeft? && DistinctCtx(c) && RepCtx(h, c)
    ensures RepBut(h, c, base)
  {
    if c != base {
      RepWithout(h, c.up, base);
    }
  }

  lemma {:induction false} RepWith(h: Varent, c: Ctx<Varent>, base: Ctx<Varent>, e: Entry)
    requires Spine(c, base) && base.InLeft? && DistinctCtx(c) && RepBut(h, c, base)
    requires Fits(base.id, e, base.bal)
    ensures RepCtx(h, SetEntry(c, base, e))
    ensures HoleLink(h, SetEntry(c, base, e)) == HoleLink(h, c)
    ensures HoleParent(h, SetEntry(c, base, e)) == HoleParent(h, c)
  {
    if c != base {
      RepWith(h, c.up, base, e);
    }
  }

  // The last node of t's left subtree, along right links.
  method FindPredecessor(p: Varent, ghost h: Varent, ghost c: Ctx<Varent>, ghost t: Tree<Varent>)
    returns (q: Varent, ghost d: Ctx<Varent>, ghost u: Tree<Varent>)
    requires Zipped(h, c, t) && t.Node? && t.id == p && t.left.Node?
    requires Avl(t) && AvlCtx(c, Height(t))
    ensures Zipped(h, d, u) && u.Node? && u.id == q && u.right.Leaf?
    ensures Spine(d, LeftCtx(c, t)) && Before(d) + InOrder(u) == LeftOf(c, t)
    ensures Avl(u) && AvlCtx(d, Height(u))
    ensures CtxIds(d) + Ids(u) == CtxIds(c) + Ids(t)
  {
    ZipIn(h, c, t);
    d, u := LeftCtx(c, t), t.left;
    q := p.left;
    while q.right != null
      invariant Zipped(h, d, u) && u.Node? && q == u.id && Spine(d, LeftCtx(c, t))
      invariant CtxIds(d) + Ids(u) == CtxIds(c) + Ids(t)
      invariant Avl(u) && AvlCtx(d, Height(u))
      invariant Before(d) + InOrder(u) == LeftOf(c, t)
      decreases u
    {
      ZipIn(h, d, u);
      SpineDown(LeftCtx(c, t), d, u);
      d, u := RightCtx(d, u), u.right;
      q := q.right;
    }
  }

  // p, at the top of spine d, takes over the name and value of q.
  method CopyInto(p: Varent, q: Varent, ghost h: Varent, ghost d: Ctx<Varent>, ghost base: Ctx<Varent>, ghost u: Tree<Varent>)
    requires Zipped(h, d, u) && u.Node? && u.id == q
    requires Spine(d, base) && base.InLeft? && base.id == p
    modifies p`name, p`vec
    ensures Zipped(h, SetEntry(d, base, u.entry), u)
    ensures CtxIds(SetEntry(d, base, u.entry)) == CtxIds(d)
  {
    SpineIds(d, base, u.entry);
    SpineBase(d, base);
    RepWithout(h, d, base);
    SpineBal(h, d, base);
    CopyEntry(p, q, h, d, base, u);
    RepWith(h, d, base, u.entry);
  }

  method CopyEntry(p: Varent, q: Varent, ghost h: Varent, ghost d: Ctx<Varent>, ghost base: Ctx<Varent>, ghost u: Tree<Varent>)
    requires Spine(d, base) && base.InLeft? && base.id == p && Apart(h, d, u) && RepBut(h, d, base)
    requires Rep(u) && u.Node? && u.id == q && p in CtxIds(d)
    modifies p`name, p`vec
    ensures RepBut(h, d, base) && Rep(u) && p.name == u.entry.name && p.vec == u.entry.vec
  {
    assert allocated(CtxIds(d)) && allocated(Ids(u));
    assert Fits(q, u.entry, u.bal);
    p.name := q.name;
    p.vec := q.vec;
  }

  lemma {:induction false} SpineBal(h: Varent, d: Ctx<Varent>, base: Ctx<Varent>)
    requires Spine(d, base) && base.InLeft? && RepCtx(h, d)
    ensures base.id.bal == base.bal
  {
    if d != base {
      SpineBal(h, d.up, base);
    }
  }

  // Removing u's entry below a spine, once it has been copied to the top of it,
  // removes the entry that stood there.
  lemma {:induction false} CopiedEntries(c: Ctx<Varent>, t: Tree<Varent>, d: Ctx<Varent>, u: Tree<Varent>)
    requires t.Node? && u.Node? && u.right.Leaf? && Spine(d, LeftCtx(c, t))
    requires Before(d) + InOrder(u) == LeftOf(c, t) && AvlCtx(d, Height(u))
    ensures var d' := SetEntry(d, LeftCtx(c, t), u.entry);
      AvlCtx(d', Height(u)) && Before(d') + InOrder(u.left) + After(d') == LeftOf(c, t) + RightOf(c, t)
  {
    SpineEntries(d, LeftCtx(c, t), u.entry, Height(u));
    var d' := SetEntry(d, LeftCtx(c, t), u.entry);
    assert After(d') == [u.entry] + InOrder(t.right) + After(c);
    assert InOrder(u) == InOrder(u.left) + [u.entry];
  }

  method SetParent(c: Varent, pp: Varent, ghost u: Tree<Varent>)
    requires u.Node? && u.id == c && Rep(u) && Distinct(u)
    modifies c`parent
    ensures Rep(u) && ChildOf(u, pp)
  {
    assert allocated(Ids(u.left)) && allocated(Ids(u.right));
    c.parent := pp;
  }

  // Moves c, p's only child or null, into where p is.
  method Replace(p: Varent, c: Varent?, ghost h: Varent, ghost cx: Ctx<Varent>, ghost t: Tree<Varent>, ghost u: Tree<Varent>)
    returns (pp: Varent, f: bool)
    requires Zipped(h, cx, t) && t.Node? && t.id == p
    requires u == t.left || u == t.right
    requires c == Root(u)
    modifies h, CtxIds(cx), Ids(t)
    ensures Zipped(h, cx, u) && pp == HoleParent(h, cx) && f == cx.InRight?
  {
    HoleSide(h, cx, t);
    assert Rep(u) && Distinct(u) && allocated(CtxIds(cx)) && allocated(Ids(u));
    pp := p.parent;
    f := pp.right == p;
    SetHoleLink(pp, f, c, h, cx);
    assert Rep(u);
    if c != null {
      SetParent(c, pp, u);
    }
  }

  method StoreValue(c: Varent, v: Value, ghost h: Varent, ghost cx: Ctx<Varent>, ghost t: Tree<Varent>)
    requires Zipped(h, cx, t) && t.Node? && t.id == c
    modifies c`vec
    ensures Zipped(h, cx, t.(entry := Entry(t.entry.name, v)))
  {
    assert allocated(CtxIds(cx)) && allocated(Ids(t.left)) && allocated(Ids(t.right));
    c.vec := v;
  }

  // The new node c, whose fields are set already, goes into the hole of path cx.
  method HangNew(c: Varent, p: Varent, f: bool, ghost h: Varent, ghost cx: Ctx<Varent>)
    requires Zipped(h, cx, Leaf) && p == HoleParent(h, cx) && f == cx.InRight?
    requires c !in CtxIds(cx) && c != h
    requires c.parent == p && c.left == c.right == null
    modifies p`left, p`right
    ensures Zipped(h, cx, Node(Leaf, c, Entry(c.name, c.vec), c.bal, Leaf))
  {
    SetHoleLink(p, f, c, h, cx);
  }

  // ----- putting a node in and taking one out -----

  // A new node for `name` goes into the empty hole of path cx, below p.
  method InsertAt(name: Name, vec: Value, p: Varent, f: bool, ghost h: Varent, ghost cx: Ctx<Varent>)
    returns (c: Varent, ghost tree: Tree<Varent>)
    requires Zipped(h, cx, Leaf) && AvlCtx(cx, 0)
    requires p == HoleParent(h, cx) && f == cx.InRight?
    modifies h, CtxIds(cx)
    ensures Zipped(h, Top, tree) && Avl(tree) && Ids(tree) == CtxIds(cx) + {c}
    ensures fresh(c) && c.name == name
    ensures InOrder(tree) == Before(cx) + InOrder(Node(Leaf, c, Entry(name, vec), 0, Leaf)) + After(cx)
  {
    assert allocated(CtxIds(cx));
    c := new Varent(name, vec, p);
    HangNew(c, p, f, h, cx);
    tree := Balance(p, f, false, h, cx, Node(Leaf, c, Entry(name, vec), 0, Leaf));
  }

  // Copies p's predecessor into p and returns it: it is the node to take out.
  method CopyPredecessor(p: Varent, ghost h: Varent, ghost cx0: Ctx<Varent>, ghost t0: Tree<Varent>)
    returns (q: Varent, ghost cx: Ctx<Varent>, ghost t: Tree<Varent>)
    requires Zipped(h, cx0, t0) && t0.Node? && t0.id == p && t0.left.Node?
    requires Avl(t0) && AvlCtx(cx0, Height(t0))
    modifies p`name, p`vec
    ensures Zipped(h, cx, t) && t.Node? && t.id == q && t.right.Leaf?
    ensures CtxIds(cx) + Ids(t) == CtxIds(cx0) + Ids(t0)
    ensures Avl(t) && AvlCtx(cx, Height(t))
    ensures Before(cx) + InOrder(t.left) + After(cx) == LeftOf(cx0, t0) + RightOf(cx0, t0)
  {
    q, cx, t := FindPredecessor(p, h, cx0, t0);
    CopiedEntries(cx0, t0, cx, t);
    CopyInto(p, q, h, cx, LeftCtx(cx0, t0), t);
    cx := SetEntry(cx, LeftCtx(cx0, t0), t.entry);
  }

  // The node to take out for p, and its only child: p itself, unless it has two
  // children, in which case its predecessor is copied into it and taken out.
  method ToUnlink(p: Varent, ghost h: Varent, ghost cx0: Ctx<Varent>, ghost t0: Tree<Varent>)
    returns (q: Varent, c: Varent?, ghost cx: Ctx<Varent>, ghost t: Tree<Varent>, ghost u: Tree<Varent>)
    requires Zipped(h, cx0, t0) && t0.Node? && t0.id == p && Avl(t0) && AvlCtx(cx0, Height(t0))
    modifies p`name, p`vec
    ensures Zipped(h, cx, t) && t.Node? && t.id == q && CtxIds(cx) + Ids(t) == CtxIds(cx0) + Ids(t0)
    ensures u == t.right || u == t.left
    ensures c == Root(u) && Avl(u) && AvlCtx(cx, Height(u) + 1)
    ensures Before(cx) + InOrder(u) + After(cx) == LeftOf(cx0, t0) + RightOf(cx0, t0)
  {
    ChildLinks(h, cx0, t0);
    q, cx, t := p, cx0, t0;
    if p.right == null {
      c, u := p.left, t0.left;
    } else if p.left == null {
      c, u := p.right, t0.right;
    } else {
      q, cx, t := CopyPredecessor(p, h, cx0, t0);
      ChildLinks(h, cx, t);
      c, u := q.left, t.left;
    }
    OneChild(cx, t, u);
  }

  lemma ChildLinks(h: Varent, c: Ctx<Varent>, t: Tree<Varent>)
    requires Zipped(h, c, t) && t.Node?
    ensures t.id.left == Root(t.left) && t.id.right == Root(t.right)
    ensures t.id.left == null <==> t.left.Leaf?
    ensures t.id.right == null <==> t.right.Leaf?
  {
  }

  // What is left of a node that has one child at most.
  lemma {:induction false} OneChild(c: Ctx<Varent>, t: Tree<Varent>, u: Tree<Varent>)
    requires t.Node? && Avl(t) && AvlCtx(c, Height(t))
    requires (t.right.Leaf? && u == t.left) || (t.left.Leaf? && u == t.right)
    ensures Avl(u) && AvlCtx(c, Height(u) + 1)
    ensures Before(c) + InOrder(u) + After(c) == LeftOf(c, t) + RightOf(c, t)
  {
    OnlyChildEntries(c, t);
  }

  // Takes node p out, leaving the entries on either side of its own.
  method RemoveAt(p: Varent, ghost h: Varent, ghost cx0: Ctx<Varent>, ghost t0: Tree<Varent>)
    returns (ghost tree: Tree<Varent>)
    requires Zipped(h, cx0, t0) && t0.Node? && t0.id == p && Avl(t0) && AvlCtx(cx0, Height(t0))
    modifies h, CtxIds(cx0), Ids(t0)
    ensures Zipped(h, Top, tree) && Avl(tree) && Ids(tree) < CtxIds(cx0) + Ids(t0)
    ensures InOrder(tree) == LeftOf(cx0, t0) + RightOf(cx0, t0)
  {
    var q, c, cx, t, u := ToUnlink(p, h, cx0, t0);
    assert q in Ids(t) && q !in CtxIds(cx) + Ids(u) && Ids(u) <= Ids(t);
    var pp, f := Replace(q, c, h, cx, t, u);
    tree := Balance(pp, f, true, h, cx, u);
  }

  // ----- finding a node by pattern, and listing them all -----

  ghost predicate NoneMatches(pat: Name -> bool, s: seq<Entry>) {
    forall i | 0 <= i < |s| :: !pat(s[i].name)
  }

  lemma {:induction false} PassOver(pat: Name -> bool, passed: seq<Entry>, u: Tree<Varent>)
    requires u.Node? && NoneMatches(pat, passed) && NoneMatches(pat, InOrder(u.left)) && !pat(u.entry.name)
    ensures NoneMatches(pat, passed + InOrder(u.left) + [u.entry])
    ensures passed + InOrder(u) == passed + InOrder(u.left) + [u.entry] + InOrder(u.right)
    ensures |InOrder(u.left)| < |InOrder(u)|
  {
  }

  // Some node of t whose name matches the pattern, or null if there is none.
  method Madrof(pat: Name -> bool, v: Varent?, ghost t: Tree<Varent>) returns (r: Varent?)
    requires Rep(t) && v == Root(t)
    ensures r != null ==> r in Ids(t) && pat(r.name)
    ensures r == null ==> NoneMatches(pat, InOrder(t))
    decreases |InOrder(t)|
  {
    assert allocated(Ids(t));
    var vp := v;
    ghost var u, passed := t, [];
    while vp != null
      invariant allocated(Ids(u)) && Rep(u) && vp == Root(u) && Ids(u) <= Ids(t)
      invariant InOrder(t) == passed + InOrder(u) && NoneMatches(pat, passed)
      decreases u
    {
      assert allocated(Ids(u.right)) && |InOrder(u.left)| < |InOrder(u)|;
      if vp.left != null {
        r := Madrof(pat, vp.left, u.left);
        if r != null {
          return;
        }
      }
      if pat(vp.name) {
        return vp;
      }
      PassOver(pat, passed, u);
      passed := passed + InOrder(u.left) + [u.entry];
      vp, u := vp.right, u.right;
    }
    r := null;
  }

  // `while (p->v_left) p = p->v_left`, from a node.
  method Leftmost(p: Varent, ghost h: Varent, ghost c0: Ctx<Varent>, ghost t0: Tree<Varent>)
    returns (q: Varent, ghost c: Ctx<Varent>, ghost t: Tree<Varent>)
    requires Zipped(h, c0, t0) && t0.Node? && t0.id == p
    ensures Zipped(h, c, t) && t.Node? && t.id == q && Plug(c, t) == Plug(c0, t0)
    ensures LeftOf(c, t) == Before(c0)
  {
    q, c, t := p, c0, t0;
    while q.left != null
      invariant Zipped(h, c, t) && t.Node? && t.id == q && Plug(c, t) == Plug(c0, t0)
      invariant Before(c) == Before(c0)
      decreases t
    {
      ZipIn(h, c, t);
      c, t := LeftCtx(c, t), t.left;
      q := q.left;
    }
  }

  // Climbs until it comes up from a left child; the header ends the climb.
  method Climb(p: Varent, ghost h: Varent, ghost c0: Ctx<Varent>, ghost t0: Tree<Varent>)
    returns (q: Varent, ghost c: Ctx<Varent>, ghost t: Tree<Varent>)
    requires Zipped(h, c0, t0) && t0.Node? && t0.id == p
    ensures Plug(c, t) == Plug(c0, t0) && Zipped(h, c, t)
    ensures q == h ==> c.Top? && InOrder(t) == Before(c0) + InOrder(t0)
    ensures q != h ==> t.Node? && t.id == q && LeftOf(c, t) == Before(c0) + InOrder(t0)
  {
    q, c, t := p, c0, t0;
    HoleSide(h, c, t);
    while q.parent.right == q
      invariant Zipped(h, c, t) && t.Node? && t.id == q && Plug(c, t) == Plug(c0, t0)
      invariant Before(c) + InOrder(t) == Before(c0) + InOrder(t0)
      invariant q.parent == HoleParent(h, c) && (q.parent.right == q) == c.InRight?
      decreases c
    {
      ZipOut(h, c, t);
      ClimbRight(c, t);
      q := q.parent;
      c, t := c.up, PlugOne(c, t);
      HoleSide(h, c, t);
    }
    q := q.parent;
    if !c.Top? {
      ZipOut(h, c, t);
      c, t := c.up, PlugOne(c, t);
    }
  }

  // plist: every variable once, in order, by child and parent links alone.
  method Plist(h: Varent, ghost t0: Tree<Varent>) returns (out: seq<Entry>)
    requires Zipped(h, Top, t0)
    ensures out == InOrder(t0)
  {
    out := [];
    ghost var c, t := Top, t0;
    var p := h;
    if p.left != null {
      p, c, t := Leftmost(p.left, h, c, t);
    }
    while p.parent != null
      invariant Zipped(h, c, t) && Plug(c, t) == t0
      invariant p == h ==> out == InOrder(t0) && h.parent == null
      invariant p != h ==> t.Node? && t.id == p && out == LeftOf(c, t)
      decreases |InOrder(t0)| - |out|
    {
      PlugAround(c, t);
      HoleSide(h, c, t);
      out := out + [Entry(p.name, p.vec)];
      if p.right != null {
        ZipIn(h, c, t);
        p, c, t := Leftmost(p.right, h, RightCtx(c, t), t.right);
      } else {
        assert Before(c) + InOrder(t) == out;
        p, c, t := Climb(p, h, c, t);
      }
      assert h.parent == null;
    }
  }

  // ----- what unset takes away -----

  predicate Matches(pats: seq<Name -> bool>, n: Name) {
    exists i | 0 <= i < |pats| :: pats[i](n)
  }

  function Without(m: map<Name, Value>, pats: seq<Name -> bool>): map<Name, Value> {
    map n | n in m && !Matches(pats, n) :: m[n]
  }

  // `now` is m without some of the names that match.
  predicate Purged(m: map<Name, Value>, now: map<Name, Value>, pat: Name -> bool) {
    (forall n | n in now :: n in m && now[n] == m[n]) &&
    (forall n | n in m && !pat(n) :: n in now)
  }

  lemma PurgeOne(m: map<Name, Value>, now: map<Name, Value>, pat: Name -> bool, n: Name)
    requires Purged(m, now, pat) && pat(n)
    ensures Purged(m, now - {n}, pat)
  {
  }

  lemma PurgedAll(m: map<Name, Value>, s: seq<Entry>, pat: Name -> bool)
    requires Purged(m, ToMap(s), pat) && NoneMatches(pat, s)
    ensures ToMap(s) == Without(m, [pat])
  {
    forall n ensures n in ToMap(s) <==> n in Without(m, [pat]) {
      ToMapDomain(s, n);
      assert Matches([pat], n) <==> [pat][0](n);
    }
  }

  lemma WithoutMore(m: map<Name, Value>, pats: seq<Name -> bool>, pat: Name -> bool)
    ensures Without(Without(m, pats), [pat]) == Without(m, pats + [pat])
  {
    forall n ensures Matches(pats + [pat], n) <==> Matches(pats, n) || Matches([pat], n) {
      assert (pats + [pat])[|pats|] == pat && [pat][0] == pat;
      assert forall i | 0 <= i < |pats| :: (pats + [pat])[i] == pats[i];
    }
  }

  // ----- the store -----

  // trim strips the quote bit, the top bit of each 16-bit character.
  function Trim(vec: Value): (v: Value)
    ensures Trimmed(v, vec)
  {
    seq(|vec|, i requires 0 <= i < |vec| => seq(|vec[i]|, j requires 0 <= j < |vec[i]| => vec[i][j] % 32768))
  }

  // v has the words of vec, each character without its top bit.
  predicate Trimmed(v: Value, vec: Value) {
    |v| == |vec| && forall i | 0 <= i < |v| :: TrimmedWord(v[i], vec[i])
  }

  predicate TrimmedWord(v: seq<int>, w: seq<int>) {
    |v| == |w| && forall j | 0 <= j < |v| :: 0 <= v[j] < 32768 && (v[j] - w[j]) % 32768 == 0
  }

  class Store {
    const header: Varent
    ghost var tree: Tree<Varent>
    ghost var nodes: set<Varent>

    ghost predicate Valid()
      reads this, header, nodes
    {
      nodes == Ids(tree) && Zipped(header, Top, tree) && Avl(tree) && Sorted(InOrder(tree))
    }

    ghost function Vars(): map<Name, Value>
      reads this
    {
      ToMap(InOrder(tree))
    }

    constructor ()
      ensures Valid() && Vars() == map[] && fresh(header) && nodes == {}
    {
      header := new Varent([], [], null);
      tree, nodes := Leaf, {};
    }

    // The heap below the header has become t.
    ghost method Adopt(t: Tree<Varent>)
      requires Zipped(header, Top, t) && Avl(t) && Sorted(InOrder(t)) && allocated(Ids(t))
      modifies this`tree, this`nodes
      ensures Valid() && tree == t
    {
      tree, nodes := t, Ids(t);
    }

    // Finds a variable.  `steps` counts the turns of the search loop.
    method AdrOf1(name: Name) returns (v: Varent?, ghost steps: nat)
      requires Valid()
      ensures v == null <==> name !in Vars()
      ensures v != null ==> v in nodes && v.name == name && v.vec == Vars()[name]
      ensures Fib(steps + 2) <= |Vars()| + 1
      ensures Pow2(steps / 2) <= |Vars()| + 1
    {
      ghost var c, t;
      v, steps, c, t := Seek(name);
      if v == null {
        SearchMisses(c, name);
      } else {
        SearchHits(c, t, name);
      }
      SearchIsShort(tree, steps);
    }

    // The loop: it ends at the name, or at the hole where it would be.
    method Seek(name: Name) returns (v: Varent?, ghost steps: nat, ghost c: Ctx<Varent>, ghost t: Tree<Varent>)
      requires Valid()
      ensures Plug(c, t) == tree && v == Root(t) && Brackets(c, name) && steps <= Height(tree)
      ensures v != null ==> v in nodes && Compare(name, v.name) == 0 && v.name == t.entry.name && v.vec == t.entry.vec
    {
      c, t := Top, tree;
      v := header.left;
      steps := 0;
      while v != null && Compare(name, v.name) != 0
        invariant Zipped(header, c, t) && Plug(c, t) == tree && v == Root(t)
        invariant Brackets(c, name) && steps + Height(t) <= Height(tree)
        invariant Ids(t) <= Ids(tree)
        decreases t
      {
        ZipIn(header, c, t);
        DescendStep(c, t, name);
        ghost var right := Compare(name, v.name) > 0;
        if Compare(name, v.name) < 0 {
          v := v.left;
        } else {
          v := v.right;
        }
        c, t := Descend(c, t, right), Child(t, right);
        steps := steps + 1;
      }
    }

    // `trim(c->vec = vec)`
    method SetVec(c: Varent, vec: Value)
      requires Valid() && c in nodes
      modifies c`vec, this`tree, this`nodes
      ensures Valid() && nodes == old(nodes)
      ensures Vars() == old(Vars())[c.name := Trim(vec)]
    {
      ghost var cx, t := Locate(header, Top, tree, c);
      ReplacedAt(cx, t, Trim(vec));
      ghost var u := t.(entry := Entry(t.entry.name, Trim(vec)));
      StoreValue(c, Trim(vec), header, cx, t);
      ZipAll(header, cx, u);
      Adopt(Plug(cx, u));
    }

    // Follows the comparisons down to `name`, or to the hole where it belongs.
    method Search(name: Name)
      returns (c: Varent?, p: Varent, f: bool, ghost cx: Ctx<Varent>, ghost t: Tree<Varent>)
      requires Valid()
      ensures Zipped(header, cx, t) && Plug(cx, t) == tree && c == Root(t) && CtxIds(cx) + Ids(t) == Ids(tree)
      ensures p == HoleParent(header, cx) && f == cx.InRight? && Brackets(cx, name)
      ensures c != null ==> c.name == name
    {
      cx, t := Top, tree;
      p, f := header, false;
      c := p.left;
      while c != null && Compare(name, c.name) != 0
        invariant Zipped(header, cx, t) && Plug(cx, t) == tree && c == Root(t)
        invariant p == HoleParent(header, cx) && f == cx.InRight? && Brackets(cx, name)
        invariant CtxIds(cx) + Ids(t) == Ids(tree)
        decreases t
      {
        ZipIn(header, cx, t);
        DescendStep(cx, t, name);
        f := Compare(name, c.name) > 0;
        p := c;
        c := if f then c.right else c.left;
        cx, t := Descend(cx, t, f), Child(t, f);
      }
      if c != null {
        CompareOrder(name, c.name);
      }
    }

    method InsertNode(name: Name, vec: Value, p: Varent, f: bool, ghost cx: Ctx<Varent>)
      requires Zipped(header, cx, Leaf) && Plug(cx, Leaf) == tree && CtxIds(cx) == Ids(tree) == nodes
      requires Avl(tree) && Sorted(InOrder(tree))
      requires p == HoleParent(header, cx) && f == cx.InRight? && Brackets(cx, name)
      modifies this, header, nodes
      ensures Valid() && fresh(nodes - old(nodes))
      ensures Vars() == old(Vars())[name := vec]
    {
      AvlPlug(cx, Leaf);
      var c, tree' := InsertAt(name, vec, p, f, header, cx);
      InsertedAt(cx, c, Entry(name, vec), tree');
      Adopt(tree');
    }

    // Stores the trimmed value under name, in a new node if there is none.
    method Setq(name: Name, vec: Value)
      requires Valid()
      modifies this, header, nodes
      ensures Valid() && fresh(nodes - old(nodes))
      ensures Vars() == old(Vars())[name := Trim(vec)]
      ensures name in Vars() && Trimmed(Vars()[name], vec)
      ensures forall n | n != name :: (n in Vars() <==> n in old(Vars())) && (n in Vars() ==> Vars()[n] == old(Vars()[n]))
    {
      var c, p, f, cx, t := Search(name);
      if c == null {
        InsertNode(name, Trim(vec), p, f, cx);
      } else {
        SetVec(c, vec);
      }
    }

    // Takes node p out of the tree.
    method UnsetV1(p: Varent)
      requires Valid() && p in nodes
      modifies this, header, nodes
      ensures Valid() && nodes < old(nodes)
      ensures old(p.name) in old(Vars()) && Vars() == old(Vars()) - {old(p.name)}
    {
      ghost var cx, t := Locate(header, Top, tree, p);
      AvlPlug(cx, t);
      ghost var tree' := RemoveAt(p, header, cx, t);
      RemovedAt(cx, t, tree');
      Adopt(tree');
    }
  
    method UnsetV(name: Name) returns (found: bool)
      requires Valid()
      modifies this, header, nodes
      ensures Valid() && nodes <= old(nodes)
      ensures found == (name in old(Vars())) && Vars() == old(Vars()) - {name}
    {
      var v, _ := AdrOf1(name);
      found := v != null;
      if found {
        UnsetV1(v);
      }
    }

    // The inner loop of unset1: every name that matches goes, no other.
    method UnsetMatching(pat: Name -> bool)
      requires Valid()
      modifies this, header, nodes
      ensures Valid() && nodes <= old(nodes)
      ensures Vars() == Without(old(Vars()), [pat])
    {
      ghost var m := Vars();
      var vp := Madrof(pat, header.left, tree);
      while vp != null
        invariant Valid() && nodes <= old(nodes)
        invariant Purged(m, Vars(), pat)
        invariant vp != null ==> vp in nodes && pat(vp.name)
        invariant vp == null ==> NoneMatches(pat, InOrder(tree))
        decreases nodes
      {
        PurgeOne(m, Vars(), pat, vp.name);
        UnsetV1(vp);
        vp := Madrof(pat, header.left, tree);
      }
      PurgedAll(m, InOrder(tree), pat);
    }

    method Unset1(pats: seq<Name -> bool>)
      requires Valid()
      modifies this, header, nodes
      ensures Valid() && nodes <= old(nodes)
      ensures Vars() == Without(old(Vars()), pats)
    {
      for i := 0 to |pats|
        invariant Valid() && nodes <= old(nodes)
        invariant Vars() == Without(old(Vars()), pats[..i])
      {
        WithoutMore(old(Vars()), pats[..i], pats[i]);
        assert pats[..i + 1] == pats[..i] + [pats[i]];
        UnsetMatching(pats[i]);
      }
      assert pats[..|pats|] == pats;
    }

    method Execute(op: Op)
      requires Valid()
      modifies this, header, nodes
      ensures Valid() && fresh(nodes - old(nodes))
      ensures Vars() == Apply(old(Vars()), op)
    {
      match op
      case Set(n, v) => Setq(n, v);
      case Unset(pats) => Unset1(pats);
      case Forget(n) => var _ := UnsetV(n);
    }

    // Any run of the three commands keeps the tree valid and does to the map what
    // the commands say.
    method Run(ops: seq<Op>)
      requires Valid()
      modifies this, header, nodes
      ensures Valid() && fresh(nodes - old(nodes))
      ensures Vars() == Replay(old(Vars()), ops)
      ensures forall k: nat, n {:trigger LastTouch(ops, k, n)} | LastTouch(ops, k, n) :: Decided(Vars(), ops[k], n)
    {
      for i := 0 to |ops|
        invariant Valid() && fresh(nodes - old(nodes))
        invariant Vars() == Replay(old(Vars()), ops[..i])
      {
        assert ops[..i + 1][..i] == ops[..i];
        Execute(ops[i]);
      }
      assert ops[..|ops|] == ops;
      forall k: nat, n | LastTouch(ops, k, n) ensures Decided(Vars(), ops[k], n) {
        LastDecides(old(Vars()), ops, k, n);
      }
    }
  }

  datatype Op = Set(name: Name, vec: Value) | Unset(pats: seq<Name -> bool>) | Forget(name: Name)

  function Apply(m: map<Name, Value>, op: Op): map<Name, Value> {
    match op
    case Set(n, v) => m[n := Trim(v)]
    case Unset(pats) => Without(m, pats)
    case Forget(n) => m - {n}
  }

  function Replay(m: map<Name, Value>, ops: seq<Op>): map<Name, Value> {
    if ops == [] then m else Apply(Replay(m, ops[..|ops| - 1]), ops[|ops| - 1])
  }

  // The command is about the name.
  predicate Touches(op: Op, n: Name) {
    match op
    case Set(m, _) => m == n
    case Unset(pats) => Matches(pats, n)
    case Forget(m) => m == n
  }

  // The k-th command is the last about it.
  predicate LastTouch(ops: seq<Op>, k: nat, n: Name) {
    k < |ops| && Touches(ops[k], n) && forall j | k < j < |ops| :: !Touches(ops[j], n)
  }

  // What a command that is the last about a name leaves of it.
  predicate Decided(m: map<Name, Value>, op: Op, n: Name) {
    if op.Set? then n in m && Trimmed(m[n], op.vec) else n !in m
  }

  // The last command about a name decides on it.
  lemma {:induction false} LastDecides(m: map<Name, Value>, ops: seq<Op>, k: nat, n: Name)
    requires LastTouch(ops, k, n)
    ensures Decided(Replay(m, ops), ops[k], n)
  {
    var front, last := ops[..|ops| - 1], ops[|ops| - 1];
    if k < |ops| - 1 {
      assert !Touches(last, n);
      assert LastTouch(front, k, n) by {
        assert forall j | 0 <= j < |front| :: front[j] == ops[j];
      }
      LastDecides(m, front, k, n);
    }
  }

  // A name no command is about is as it was.
  lemma {:induction false} Untouched(m: map<Name, Value>, ops: seq<Op>, n: Name)
    requires forall j | 0 <= j < |ops| :: !Touches(ops[j], n)
    ensures n in Replay(m, ops) <==> n in m
    ensures n in m ==> Replay(m, ops)[n] == m[n]
  {
    if ops != [] {
      var front := ops[..|ops| - 1];
      assert !Touches(ops[|ops| - 1], n);
      assert forall j | 0 <= j < |front| :: front[j] == ops[j];
      Untouched(m, front, n);
    }
  }
}
