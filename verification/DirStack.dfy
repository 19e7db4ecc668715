/**
 * csh's directory stack: a circular doubly linked list with a dummy head, whose
 * nodes are counted by the jobs started in them.
 */
module DirStack {
  import opened Ring

  type Path = seq<int>

  class Directory {
    var next: Directory?
    var prev: Directory?
    var count: nat
    var name: Path

    constructor (name: Path)
      ensures this.name == name && count == 0 && next == prev == null
    {
      this.name := name;
      this.count := 0;
      this.next := null;
      this.prev := null;
    }
  }

  // r is a ring of nodes, read along the prev links.
  ghost predicate Linked(r: seq<Directory>)
    reads r
  {
    NoDup(r) &&
    forall i | 0 <= i < |r| :: r[i].prev == r[Nxt(i, |r|)] && r[Nxt(i, |r|)].next == r[i]
  }

  lemma LinkedRotate(r: seq<Directory>, k: nat)
    requires Linked(r) && k <= |r|
    ensures Linked(Rotate(r, k))
  {
    RotateNoDup(r, k);
    var q := Rotate(r, k);
    forall i | 0 <= i < |q| ensures q[i].prev == q[Nxt(i, |q|)] && q[Nxt(i, |q|)].next == q[i] {
      RotatePlace(r, k, i);
    }
  }

  // A null next link tells that a node is out of the ring.
  lemma LinkedNext(r: seq<Directory>, d: Directory)
    requires Linked(r) && d in r
    ensures d.next != null
  {
    var k :| 0 <= k < |r| && r[k] == d;
    var i := if k > 0 then k - 1 else |r| - 1;
    assert r[Nxt(i, |r|)].next == r[i];
  }

  // Takes d out of the ring.
  method Unlink(d: Directory, ghost r: seq<Directory>)
    requires Linked(r) && |r| >= 2 && r[0] == d
    modifies r`next, r`prev
    ensures Linked(r[1..])
  {
    ghost var n := |r|;
    assert r[n - 1].prev == r[Nxt(n - 1, n)] == d && d.prev == r[1] && d.next == r[n - 1];
    d.prev.next := d.next;
    d.next.prev := d.prev;
    ghost var q := r[1..];
    forall i | 0 <= i < |q| ensures q[i].prev == q[Nxt(i, |q|)] && q[Nxt(i, |q|)].next == q[i] {
      assert q[i] == r[i + 1];
      assert i + 1 < n - 1 ==> Nxt(i + 1, n) == i + 2;
    }
  }

  method UnlinkAt(d: Directory, ghost r: seq<Directory>, ghost pos: nat)
    requires Linked(r) && |r| >= 2 && pos < |r| && r[pos] == d
    modifies r`next, r`prev
    ensures Linked(Minus(r, pos)) && d !in Minus(r, pos)
  {
    ghost var q := Rotate(r, pos);
    LinkedRotate(r, pos);
    RotateNoDup(r, pos);
    Unlink(d, q);
    LinkedRotate(q[1..], |r| - 1 - pos);
    RotateMinus(r, pos);
  }

  lemma FirstOut(r: seq<Directory>, k: nat)
    requires NoDup(r) && |r| >= 2 && k < |r| - 1
    ensures var q := Rotate(r[1..], k);
      |q| == |r| - 1 && q[0] == r[k + 1] && forall x :: x in q <==> x in r && x != r[0]
  {
    var t := r[1..];
    RotateNoDup(t, k);
    assert r == [r[0]] + t && r[0] !in t;
  }

  method UnlinkFirst(d: Directory, ghost r: seq<Directory>, ghost k: nat, ghost q: seq<Directory>)
    requires Linked(r) && |r| >= 2 && r[0] == d && k < |r| - 1 && q == Rotate(r[1..], k)
    modifies r`next, r`prev
    ensures Linked(q) && |q| == |r| - 1 && q[0] == r[k + 1]
    ensures forall x :: x in q <==> x in r && x != d
  {
    FirstOut(r, k);
    Unlink(d, r);
    LinkedRotate(r[1..], k);
  }

  // Puts d where c is.
  method Substitute(d: Directory, c: Directory, ghost r: seq<Directory>, ghost q: seq<Directory>)
    requires Linked(r) && |r| >= 2 && r[0] == c && d !in r && q == [d] + r[1..]
    modifies r`next, r`prev, d`next, d`prev
    ensures Linked(q) && forall x :: x in q <==> x == d || (x in r && x != c)
  {
    assert r == [c] + r[1..];
    ghost var n := |r|;
    assert r[n - 1].prev == r[Nxt(n - 1, n)] == c && c.next == r[n - 1] && c.prev == r[1];
    d.next := c.next;
    d.prev := c.prev;
    d.prev.next := d;
    d.next.prev := d;
    assert forall i | 0 < i < n :: q[i] == r[i];
    forall i | 0 <= i < n ensures q[i].prev == q[Nxt(i, n)] && q[Nxt(i, n)].next == q[i] {
      assert 0 < i < n - 1 ==> Nxt(i, n) == i + 1 && r[i].prev == r[i + 1];
    }
  }

  // Puts d into the ring, before its first node in the order of the prev links.
  method Link(d: Directory, c: Directory, ghost r: seq<Directory>)
    requires Linked(r) && |r| >= 2 && r[0] == c && d !in r
    modifies r`next, r`prev, d`next, d`prev
    ensures Linked([d] + r)
  {
    ghost var n := |r|;
    assert r[n - 1].prev == r[Nxt(n - 1, n)] == c && c.next == r[n - 1];
    d.prev := c;
    d.next := c.next;
    c.next := d;
    d.next.prev := d;
    ghost var q := [d] + r;
    forall i | 0 <= i < |q| ensures q[i].prev == q[Nxt(i, |q|)] && q[Nxt(i, |q|)].next == q[i] {
      if i > 0 {
        assert q[i] == r[i - 1];
        assert i - 1 < n - 1 ==> Nxt(i - 1, n) == i && q[i + 1] == r[i];
      }
    }
  }

  class Dirs {
    const dhead: Directory
    var dcwd: Directory
    ghost var ring: seq<Directory>            // from dcwd along prev, the dummy head included
    ghost var detached: set<Directory>        // out of the ring, still counted by a job
    ghost var freed: set<Directory>
    ghost var made: set<Directory>            // every node there ever was

    ghost predicate Valid()
      reads this, ring, detached
    {
      Linked(ring) && |ring| >= 2 && ring[0] == dcwd && dcwd != dhead && dhead in ring &&
      (forall d | d in detached :: d !in ring && d.next == null && d.prev == null && d.count > 0) &&
      (forall d | d in freed :: d !in ring && d !in detached)
    }

    // Every node is in the ring, kept for a job, or freed.
    ghost predicate Complete()
      reads this
    {
      forall d | d in made :: d in ring || d in detached || d in freed
    }

    // The stack as the user sees it, the working directory first.
    ghost function Stack(): seq<Directory>
      reads this
    {
      Others(ring, dhead)
    }

    // dinit: one entry.
    constructor (name: Path)
      ensures Valid() && Stack() == [dcwd] && dcwd.name == name && detached == freed == {}
      ensures Complete() && forall d | d in ring :: d in made
      ensures fresh(ring)
    {
      var h := new Directory([]);
      var d := new Directory(name);
      h.next, h.prev := d, d;
      d.next, d.prev := h, h;
      dhead, dcwd := h, d;
      ring, detached, freed, made := [d, h], {}, {}, {d, h};
      PairOthers(d, h);
    }

    // The n-th entry below the working directory; null stands for the error exit.
    method Dfind(n: nat) returns (r: Directory?, ghost pos: nat)
      requires Valid() && n > 0
      ensures Valid()
      ensures r != null <==> n < |Stack()|
      ensures r != null ==> r == Stack()[n] && 0 < pos < |ring| && ring[pos] == r != dhead
      ensures r != null ==> |Others(ring[..pos], dhead)| == n
    {
      var dp, i := dcwd, n;
      pos := 0;
      while i != 0
        invariant pos < |ring| && dp == ring[pos] != dhead && i <= n
        invariant |Others(ring[..pos], dhead)| == n - i && (i < n ==> pos > 0)
      {
        OthersStep(ring, pos, dhead);
        assert pos + 1 == |ring| ==> ring[..pos + 1] == ring;
        pos := Nxt(pos, |ring|);
        dp := dp.prev;
        if dp == dhead {
          assert pos + 1 == |ring| ==> ring[..pos + 1] == ring;
          OthersStep(ring, pos, dhead);
          pos := Nxt(pos, |ring|);
          dp := dp.prev;
        }
        if dp == dcwd {
          assert pos == 0;
          return null, 0;
        }
        i := i - 1;
      }
      OthersStep(ring, pos, dhead);
      r := dp;
    }
  
    // dfree: the node is let go, or kept for the jobs that still count it.
    method Dfree(d: Directory)
      requires d !in ring && d !in detached && d !in freed
      modifies d`next, d`prev, this`detached, this`freed
      ensures d.count > 0 ==> d.next == d.prev == null
      ensures Released(d, old(detached), old(freed))
    {
      if d.count != 0 {
        d.next, d.prev := null, null;
        detached := detached + {d};
      } else {
        freed := freed + {d};
      }
    }

    ghost predicate Released(d: Directory, kept: set<Directory>, gone: set<Directory>)
      reads this, d
    {
      if d.count > 0 then detached == kept + {d} && freed == gone
      else detached == kept && freed == gone + {d}
    }

    // A job lets go of d: it is counted down, and freed if that was the last job to hold
    // it and it is out of the ring.
    method CountDown(d: Directory)
      requires Valid() && (d in ring || d in detached) && d.count > 0
      modifies d, this`detached, this`freed
      ensures Valid() && d.count == old(d.count) - 1
      ensures if old(d.count) == 1 && d in old(detached)
        then detached == old(detached) - {d} && freed == old(freed) + {d}
        else detached == old(detached) && freed == old(freed)
    {
      if d in ring {
        LinkedNext(ring, d);
      }
      d.count := d.count - 1;
      if d.count == 0 && d.next == null {
        detached := detached - {d};
        Dfree(d);
      }
    }

    // Takes out the entry at ring position pos, which is not the working directory.
    method Drop(d: Directory, ghost pos: nat)
      requires Valid() && 0 < pos < |ring| && ring[pos] == d != dhead
      modifies this`dcwd, this`ring, this`detached, this`freed, ring`next, ring`prev
      ensures Valid() && dcwd == old(dcwd) && ring == Minus(old(ring), pos)
      ensures Released(d, old(detached), old(freed))
    {
      UnlinkAt(d, ring, pos);
      ring := Minus(ring, pos);
      Dfree(d);
    }
  
    // The ring has become q, and the working directory its first entry.
    method Move(d: Directory, ghost q: seq<Directory>)
      modifies this`dcwd, this`ring
      ensures dcwd == d && ring == q
    {
      dcwd := d;
      ring := q;
    }

    // The ring has become q without c, which is let go.
    method Resettle(c: Directory, d: Directory, ghost q: seq<Directory>)
      requires Linked(q) && |q| >= 2 && q[0] == d != dhead && dhead in q
      requires c !in q && c !in detached && c !in freed
      requires forall x | x in detached :: x !in q && x.next == null && x.prev == null && x.count > 0
      requires forall x | x in freed :: x !in q && x !in detached
      modifies this`dcwd, this`ring, this`detached, this`freed, c`next, c`prev
      ensures Valid() && dcwd == d && ring == q && Released(c, old(detached), old(freed))
    {
      Move(d, q);
      Dfree(c);
    }

    // Takes out the working directory and moves to d, at ring position pos.
    method Leave(d: Directory, ghost pos: nat)
      requires Valid() && 0 < pos < |ring| && ring[pos] == d != dhead
      modifies this`dcwd, this`ring, this`detached, this`freed, ring`next, ring`prev
      ensures Valid() && dcwd == d && ring == Rotate(old(ring)[1..], pos - 1)
      ensures Released(old(dcwd), old(detached), old(freed))
    {
      var c := dcwd;
      ghost var q := Rotate(ring[1..], pos - 1);
      UnlinkFirst(c, ring, pos - 1, q);
      Resettle(c, d, q);
    }

    // cd: without a number the new directory replaces the working directory; with
    // one, the working directory is dropped for the n-th entry.  `chdir` says
    // whether the system call succeeds; a failure changes nothing.
    method Cd(n: int, path: Path, chdir: bool) returns (ok: bool)
      requires Valid()
      modifies this, ring`next, ring`prev
      ensures Valid() && made == old(made) + (if ok && n <= 0 then {dcwd} else {})
      ensures ok <==> chdir && n < |old(Stack())|
      ensures !ok ==> ring == old(ring) && detached == old(detached) && freed == old(freed)
      ensures ok ==> Released(old(dcwd), old(detached), old(freed))
      ensures ok && n > 0 ==> Stack() == Rotate(old(Stack())[1..], n - 1)
      ensures ok && n <= 0 ==> fresh(dcwd) && dcwd.name == path && dcwd.count == 0 && Stack() == [dcwd] + old(Stack())[1..]
    {
      ok := false;
      assert |Stack()| > 0 by { OthersStep(ring, 0, dhead); }
      if n > 0 {
        var d, pos := Dfind(n);
        if d != null && chdir {
          ok := true;
          CdNumbered(ring, pos, dhead);
          Leave(d, pos);
        }
      } else if chdir {
        ok := true;
        CdNew(path);
      }
    }

    // A directory that is not in the stack: a new node takes the place of the first.
    method CdNew(path: Path)
      requires Valid()
      modifies this, ring`next, ring`prev
      ensures Valid() && made == old(made) + {dcwd} && Released(old(dcwd), old(detached), old(freed))
      ensures fresh(dcwd) && dcwd.name == path && dcwd.count == 0 && |old(Stack())| > 0
      ensures Stack() == [dcwd] + old(Stack())[1..]
    {
      OthersStep(ring, 0, dhead);
      var d := new Directory(path);
      made := made + {d};
      Replace(d);
    }

    // A new node before the first.
    method PushNew(path: Path)
      requires Valid()
      modifies this, ring`next, ring`prev
      ensures Valid() && made == old(made) + {dcwd} && detached == old(detached) && freed == old(freed)
      ensures fresh(dcwd) && dcwd.name == path && dcwd.count == 0 && Stack() == [dcwd] + old(Stack())
    {
      var d := new Directory(path);
      made := made + {d};
      Prepend(d);
    }

    // A new node takes the place of the working directory.
    method Replace(d: Directory)
      requires Valid() && d !in ring && d !in detached && d !in freed
      modifies this`dcwd, this`ring, this`detached, this`freed, ring`next, ring`prev, d`next, d`prev
      ensures Valid() && dcwd == d && Stack() == [d] + old(Stack())[1..]
      ensures Released(old(dcwd), old(detached), old(freed))
    {
      var c := dcwd;
      ghost var q := [d] + ring[1..];
      ReplacedHead(ring, d, dhead);
      Substitute(d, c, ring, q);
      Resettle(c, d, q);
    }
  
    // The entry after the working directory, past the dummy head; itself if it is alone.
    method Second() returns (d: Directory, ghost pos: nat)
      requires Valid()
      ensures Valid() && pos < |ring| && ring[pos] == d != dhead
      ensures if |Stack()| == 1 then pos == 0 else pos > 0 && |Others(ring[..pos], dhead)| == 1
      ensures d == dcwd <==> pos == 0
    {
      d, pos := dcwd.prev, 1;
      OthersStep(ring, 0, dhead);
      OthersStep(ring, 1, dhead);
      assert |ring| == 2 ==> ring[..2] == ring;
      assert ring[..1] == [dcwd] && ring[..0] == [];
      if d == dhead {
        d, pos := dhead.prev, Nxt(1, |ring|);
        OthersStep(ring, pos, dhead);
      }
    }

    // Moves the second entry, at ring position pos, before the working directory.
    method Swap(d: Directory, ghost pos: nat)
      requires Valid() && 0 < pos < |ring| && ring[pos] == d != dhead
      modifies this`dcwd, this`ring, this`detached, this`freed, ring`next, ring`prev
      ensures Valid() && dcwd == d && ring == [d] + Minus(old(ring), pos)
      ensures detached == old(detached) && freed == old(freed)
    {
      ghost var r := Minus(ring, pos);
      MinusMembers(ring, pos);
      assert r[0] == dcwd;
      UnlinkAt(d, ring, pos);
      Link(d, dcwd, r);
      Move(d, [d] + r);
    }

    // pushd: swaps the first two entries, brings the n-th to the top, or prepends a
    // new one.  `word` is false when there is no argument.
    method Pushd(word: bool, n: int, path: Path, chdir: bool) returns (ok: bool)
      requires Valid()
      modifies this, ring`next, ring`prev
      ensures made == old(made) + (if ok && word && n <= 0 then {dcwd} else {})
      ensures Valid() && detached == old(detached) && freed == old(freed)
      ensures ok <==> chdir && (if word then n < |old(Stack())| else |old(Stack())| > 1)
      ensures !ok ==> ring == old(ring)
      ensures ok && !word ==> var s := old(Stack()); Stack() == [s[1], s[0]] + s[2..]
      ensures ok && word && n > 0 ==> Stack() == Rotate(old(Stack()), n)
      ensures ok && word && n <= 0 ==> fresh(dcwd) && dcwd.name == path && dcwd.count == 0 && Stack() == [dcwd] + old(Stack())
    {
      ok := false;
      assert |Stack()| > 0 by { OthersStep(ring, 0, dhead); }
      if !word {
        var d, pos := Second();
        if d != dcwd && chdir {
          ok := true;
          SwappedStack(ring, pos, dhead);
          Swap(d, pos);
        }
      } else if n > 0 {
        var d, pos := Dfind(n);
        if d != null && chdir {
          ok := true;
          Bring(d, pos);
        }
      } else if chdir {
        ok := true;
        PushNew(path);
      }
    }

    method Bring(d: Directory, ghost pos: nat)
      requires Valid() && pos < |ring| && ring[pos] == d != dhead
      modifies this`dcwd, this`ring
      ensures Valid() && detached == old(detached) && freed == old(freed)
      ensures var m := |Others(old(ring)[..pos], dhead)|;
        m <= |old(Stack())| && Stack() == Rotate(old(Stack()), m)
    {
      LinkedRotate(ring, pos);
      RotateNoDup(ring, pos);
      OthersRotate(ring, pos, dhead);
      Move(d, Rotate(ring, pos));
    }

    method Prepend(d: Directory)
      requires Valid() && d !in ring && d !in detached && d !in freed
      modifies this`dcwd, this`ring, this`detached, this`freed, ring`next, ring`prev, d`next, d`prev
      ensures Valid() && detached == old(detached) && freed == old(freed)
      ensures dcwd == d && Stack() == [d] + old(Stack())
    {
      OthersConcat([d], ring, dhead);
      Link(d, dcwd, ring);
      Move(d, [d] + ring);
    }

    // popd: drops the working directory for the next entry, or the n-th entry.
    method Popd(word: bool, n: int, chdir: bool) returns (ok: bool)
      requires Valid()
      modifies this`dcwd, this`ring, this`detached, this`freed, ring`next, ring`prev
      ensures Valid()
      ensures ok <==> |old(Stack())| > 1 && (if word then 0 < n < |old(Stack())| else chdir)
      ensures !ok ==> ring == old(ring) && detached == old(detached) && freed == old(freed)
      ensures ok ==> Stack() == Minus(old(Stack()), if word then n else 0)
      ensures ok ==> Released(old(Stack())[if word then n else 0], old(detached), old(freed))
    {
      ok := false;
      assert |Stack()| > 0 && Stack()[0] == dcwd by { OthersStep(ring, 0, dhead); }
      if !word {
        var p, pos := Second();
        if p != dcwd && chdir {
          ok := true;
          CdNumbered(ring, pos, dhead);
          Leave(p, pos);
        }
      } else if n > 0 {
        var d, pos := Dfind(n);
        if d != null {
          ok := true;
          OthersMinus(ring, pos, dhead);
          Drop(d, pos);
        }
      }
    }
  }

  lemma PairOthers(d: Directory, h: Directory)
    requires d != h
    ensures Others([d, h], h) == [d]
  {
    OthersConcat([d], [h], h);
    assert [d, h] == [d] + [h];
  }

  lemma MinusMembers(r: seq<Directory>, pos: nat)
    requires NoDup(r) && pos < |r|
    ensures forall x :: x in Minus(r, pos) <==> x in r && x != r[pos]
  {
    assert r == r[..pos] + [r[pos]] + r[pos + 1..];
  }

  lemma SwappedStack(ring: seq<Directory>, pos: nat, h: Directory)
    requires 0 < pos < |ring| && ring[pos] != h && |Others(ring[..pos], h)| == 1
    ensures var s := Others(ring, h);
      |s| > 1 && Others([ring[pos]] + Minus(ring, pos), h) == [s[1], s[0]] + s[2..]
  {
    OthersStep(ring, pos, h);
    OthersMinus(ring, pos, h);
    OthersConcat([ring[pos]], Minus(ring, pos), h);
    var s := Others(ring, h);
    assert Minus(s, 1) == [s[0]] + s[2..];
  }

  lemma ReplacedHead(ring: seq<Directory>, d: Directory, h: Directory)
    requires ring != [] && ring[0] != h && d != h
    ensures |Others(ring, h)| > 0 && Others([d] + ring[1..], h) == [d] + Others(ring, h)[1..]
  {
  }

  // What cd +n makes of the stack.
  lemma CdNumbered(ring: seq<Directory>, pos: nat, h: Directory)
    requires 0 < pos < |ring| && ring[0] != h && ring[pos] != h
    ensures var n := |Others(ring[..pos], h)|;
      1 <= n <= |Others(ring, h)| && Others(Rotate(ring[1..], pos - 1), h) == Rotate(Others(ring, h)[1..], n - 1)
  {
    OthersRotate(ring[1..], pos - 1, h);
    assert ring[1..][..pos - 1] == ring[..pos][1..];
  }
}
