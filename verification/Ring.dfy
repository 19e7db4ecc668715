/** Circular sequences: what every ring of linked nodes in the shell is a picture of. */
module Ring {

  function Nxt(i: nat, n: nat): nat
    requires i < n
  {
    if i + 1 < n then i + 1 else 0
  }

  predicate NoDup<T(==)>(s: seq<T>) {
    forall i, j | 0 <= i < j < |s| :: s[i] != s[j]
  }

  // The same ring, read from another place.
  function Rotate<T>(s: seq<T>, k: nat): seq<T>
    requires k <= |s|
  {
    s[k..] + s[..k]
  }

  lemma RotateNoDup<T>(s: seq<T>, k: nat)
    requires k <= |s| && NoDup(s)
    ensures NoDup(Rotate(s, k))
    ensures forall x :: x in Rotate(s, k) <==> x in s
  {
    assert s == s[..k] + s[k..];
  }

  // Where the i-th element of a rotated ring and its successor stand in the ring.
  function Place(i: nat, k: nat, n: nat): nat
    requires i < n && k <= n
  {
    if i + k < n then i + k else i + k - n
  }

  lemma RotatePlace<T>(s: seq<T>, k: nat, i: nat)
    requires k <= |s| && i < |s|
    ensures Rotate(s, k)[i] == s[Place(i, k, |s|)]
    ensures Rotate(s, k)[Nxt(i, |s|)] == s[Nxt(Place(i, k, |s|), |s|)]
  {
  }

  // The elements other than h, in order.
  function Others<T(==)>(s: seq<T>, h: T): seq<T> {
    if s == [] then [] else (if s[0] == h then [] else [s[0]]) + Others(s[1..], h)
  }

  lemma {:induction false} OthersConcat<T>(a: seq<T>, b: seq<T>, h: T)
    ensures Others(a + b, h) == Others(a, h) + Others(b, h)
  {
    if a == [] {
      assert a + b == b;
    } else {
      OthersConcat(a[1..], b, h);
      assert (a + b)[1..] == a[1..] + b;
      var x := if a[0] == h then [] else [a[0]];
      assert x + (Others(a[1..], h) + Others(b, h)) == x + Others(a[1..], h) + Others(b, h);
    }
  }

  lemma {:induction false} OthersMembers<T>(s: seq<T>, h: T)
    ensures forall x | x in Others(s, h) :: x in s && x != h
    ensures forall x | x in s && x != h :: x in Others(s, h)
  {
    if s != [] {
      OthersMembers(s[1..], h);
    }
  }

  // Rotating the ring rotates what is left of it without h.
  lemma OthersRotate<T>(s: seq<T>, k: nat, h: T)
    requires k <= |s|
    ensures var m := |Others(s[..k], h)|;
      m <= |Others(s, h)| && Others(Rotate(s, k), h) == Rotate(Others(s, h), m)
  {
    OthersConcat(s[..k], s[k..], h);
    OthersConcat(s[k..], s[..k], h);
    assert s[..k] + s[k..] == s;
  }

  // Stepping on by one element counts it unless it is h.
  lemma OthersStep<T>(s: seq<T>, p: nat, h: T)
    requires p < |s|
    ensures Others(s[..p + 1], h) == Others(s[..p], h) + (if s[p] == h then [] else [s[p]])
    ensures Others(s[..p], h) <= Others(s, h)
    ensures s[p] != h ==> |Others(s[..p], h)| < |Others(s, h)| && Others(s, h)[|Others(s[..p], h)|] == s[p]
  {
    assert s[..p + 1] == s[..p] + [s[p]];
    OthersConcat(s[..p], [s[p]], h);
    assert s == s[..p + 1] + s[p + 1..];
    OthersConcat(s[..p + 1], s[p + 1..], h);
  }

  function Minus<T>(s: seq<T>, p: nat): seq<T>
    requires p < |s|
  {
    s[..p] + s[p + 1..]
  }

  // Taking one element out of the ring takes it out of the rest.
  lemma OthersMinus<T>(s: seq<T>, p: nat, h: T)
    requires p < |s| && s[p] != h
    ensures var m := |Others(s[..p], h)|;
      m < |Others(s, h)| && Others(Minus(s, p), h) == Minus(Others(s, h), m)
  {
    var a, b := Others(s[..p], h), Others(s[p + 1..], h);
    OthersStep(s, p, h);
    OthersConcat(s[..p], s[p + 1..], h);
    OthersConcat(s[..p + 1], s[p + 1..], h);
    assert s == s[..p + 1] + s[p + 1..];
    assert Others(s, h) == a + [s[p]] + b;
  }

  lemma RotateMinus<T>(s: seq<T>, p: nat)
    requires p < |s|
    ensures Rotate(Rotate(s, p)[1..], |s| - 1 - p) == Minus(s, p)
  {
    assert Rotate(s, p)[1..] == s[p + 1..] + s[..p];
  }
}
