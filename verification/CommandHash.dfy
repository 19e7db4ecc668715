/**
 * csh's hashed command search: a table of bits that tells which directories of the path
 * may hold a command, and the search that skips the others.
 */
module CommandHash {
  import opened Common

  const HSHSIZ := 8192
  const HSHMUL := 243

  // ----- the file system -----

  datatype Entry = Entry(name: Word, ino: nat)

  // `runs` says whether a name in a directory can be executed ("" is the working
  // directory), `opens` whether the directory can be listed, `entries` the listing.
  datatype World = World(runs: (Word, Word) -> bool, opens: Word -> bool, entries: Word -> seq<Entry>)

  // An entry dohash takes into account.
  predicate Counts(e: Entry) {
    e.ino != 0 && e.name != "." && e.name != ".."
  }

  predicate Absolute(dir: Word) {
    dir != "" && dir[0] == '/'
  }

  ghost predicate Lists(w: World, dir: Word, name: Word) {
    exists k :: 0 <= k < |w.entries(dir)| && Counts(w.entries(dir)[k]) && w.entries(dir)[k].name == name
  }

  // What can be executed in a directory is in its listing.
  ghost predicate Consistent(w: World) {
    forall dir, name | Absolute(dir) && w.runs(dir, name) :: Lists(w, dir, name)
  }

  // ----- hashing -----

  function Hash(a: nat, b: nat): (h: nat)
    ensures h < HSHSIZ
  {
    (a * HSHMUL + b) % HSHSIZ
  }

  function HashOn(h: nat, cp: Word): nat
    decreases cp
  {
    if cp == "" then h else HashOn(Hash(h, cp[0] as nat), cp[1..])
  }

  function HashOf(cp: Word): nat {
    HashOn(0, cp)
  }

  // A name as a number in base 243.
  function Digits(cp: Word): nat {
    if cp == "" then 0 else Digits(cp[..|cp| - 1]) * 243 + cp[|cp| - 1] as nat
  }

  lemma HashStep(x: nat, b: nat)
    ensures Hash(x % 8192, b) == (x * 243 + b) % 8192
  {
    var q := x / 8192;
    assert x * 243 + b == x % 8192 * 243 + b + q * 243 * 8192;
  }

  lemma {:induction false} HashGoesOn(a: Word, b: Word)
    ensures HashOn(Digits(a) % 8192, b) == Digits(a + b) % 8192
    decreases |b|
  {
    if b == "" {
      assert a + b == a;
    } else {
      var a' := a + [b[0]];
      assert a'[..|a'| - 1] == a && a' + b[1..] == a + b;
      HashStep(Digits(a), b[0] as nat);
      HashGoesOn(a', b[1..]);
    }
  }

  // Its hash is that number modulo 8192.
  lemma HashIs(cp: Word)
    ensures HashOf(cp) == Digits(cp) % 8192
  {
    assert "" + cp == cp && Digits("") == 0;
    HashGoesOn("", cp);
  }

  method Hashname(cp: Word) returns (h: nat)
    ensures h == HashOf(cp)
  {
    h := 0;
    for i := 0 to |cp|
      invariant HashOn(0, cp) == HashOn(h, cp[i..])
    {
      h := Hash(h, cp[i] as nat);
    }
  }

  // ----- the table -----

  function Mask(b: nat): bv8 {
    (1 as bv8) << (b % 8)
  }

  predicate Bit(h: seq<bv8>, b: nat)
    requires b < HSHSIZ && |h| == HSHSIZ / 8
  {
    h[b / 8] & Mask(b) != 0
  }

  lemma MaskBits(x: bv8, i: nat, j: nat)
    requires i < 8 && j < 8
    ensures (x | ((1 as bv8) << i)) & ((1 as bv8) << j) != 0 <==> i == j || x & ((1 as bv8) << j) != 0
  {
    assert (1 as bv8) << 0 == 1 && (1 as bv8) << 1 == 2 && (1 as bv8) << 2 == 4 && (1 as bv8) << 3 == 8;
    assert (1 as bv8) << 4 == 16 && (1 as bv8) << 5 == 32 && (1 as bv8) << 6 == 64 && (1 as bv8) << 7 == 128;
  }

  // Directory i of the path has an entry that falls on bit b.
  ghost predicate Falls(w: World, path: seq<Word>, i: nat, k: nat, b: nat)
    requires i < |path|
  {
    k < |w.entries(path[i])| && Counts(w.entries(path[i])[k]) && Hash(HashOf(w.entries(path[i])[k].name), i) == b
  }

  ghost predicate FallsBefore(w: World, path: seq<Word>, i: nat, n: nat, b: nat)
    requires i < |path|
  {
    exists k :: 0 <= k < n && Falls(w, path, i, k, b)
  }

  // Bit b belongs to the directories before n: one that was listed has an entry there.
  ghost predicate Reached(w: World, path: seq<Word>, n: nat, b: nat)
    requires n <= |path|
  {
    exists i, k :: 0 <= i < n && Absolute(path[i]) && w.opens(path[i]) && Falls(w, path, i, k, b)
  }

  // The bits that are set are those the listing of the path gives.
  ghost predicate Built(h: seq<bv8>, w: World, path: seq<Word>) {
    |h| == HSHSIZ / 8 && forall b | 0 <= b < HSHSIZ :: Bit(h, b) <==> Reached(w, path, |path|, b)
  }

  // The directory is searched: it is not absolute, or its bit is set.
  predicate Searched(h: seq<bv8>, path: seq<Word>, name: Word, i: nat)
    requires |h| == HSHSIZ / 8 && i < |path|
  {
    !Absolute(path[i]) || Bit(h, Hash(HashOf(name), i))
  }

  // Whether the search finds the command at place i.
  predicate RunsAt(w: World, dir: Word, name: Word) {
    if dir == "" || dir == "." then w.runs("", name) else w.runs(dir, name)
  }

  // The place a search without the table gives: the first directory, counted from 1, or 0.
  function Plain(w: World, path: seq<Word>, name: Word, i: nat): (r: nat)
    requires i <= |path|
    ensures r == 0 ==> forall j | i <= j < |path| :: !RunsAt(w, path[j], name)
    ensures r > 0 ==> i < r <= |path| && RunsAt(w, path[r - 1], name)
    ensures r > 0 ==> forall j | i <= j < r - 1 :: !RunsAt(w, path[j], name)
    decreases |path| - i
  {
    if i == |path| then 0 else if RunsAt(w, path[i], name) then i + 1 else Plain(w, path, name, i + 1)
  }

  // The search finds the command at place j, with the table or, for `all`, without it.
  predicate Found(w: World, h: seq<bv8>, all: bool, v: seq<Word>, name: Word, j: nat)
    requires |h| == HSHSIZ / 8 && j < |v|
  {
    RunsAt(w, v[j], name) && (all || Searched(h, v, name, j))
  }

  // r is the first place where it does, counted from 1, or 0.
  predicate FoundFirst(w: World, h: seq<bv8>, all: bool, v: seq<Word>, name: Word, r: nat)
    requires |h| == HSHSIZ / 8
  {
    r <= |v| && (r > 0 ==> Found(w, h, all, v, name, r - 1)) &&
    forall j | 0 <= j < (if r == 0 then |v| else r - 1) :: !Found(w, h, all, v, name, j)
  }

  // The vector that is searched.
  function Vector(path: Option<seq<Word>>, name: Word): (v: seq<Word>)
    ensures v != []
  {
    if path == None || path.value == [] || '/' in name then [""] else path.value
  }

  class Table {
    const xhash: array<bv8>
    var havhash: bool

    constructor ()
      ensures fresh(xhash) && xhash.Length == HSHSIZ / 8 && !havhash
    {
      xhash := new bv8[HSHSIZ / 8](_ => 0);
      havhash := false;
    }

    method Bis(b: nat)
      requires xhash.Length == HSHSIZ / 8 && b < HSHSIZ
      modifies xhash
      ensures forall c | 0 <= c < HSHSIZ :: Bit(xhash[..], c) <==> c == b || old(Bit(xhash[..], c))
    {
      xhash[b / 8] := xhash[b / 8] | Mask(b);
      forall c | 0 <= c < HSHSIZ ensures Bit(xhash[..], c) <==> c == b || old(Bit(xhash[..], c)) {
        if c / 8 == b / 8 {
          MaskBits(old(xhash[b / 8]), b % 8, c % 8);
        }
      }
    }

    // The bits of one directory.
    method HashDir(w: World, path: seq<Word>, i: nat)
      requires xhash.Length == HSHSIZ / 8 && i < |path|
      modifies xhash
      ensures forall c | 0 <= c < HSHSIZ :: Bit(xhash[..], c) <==> old(Bit(xhash[..], c)) || FallsBefore(w, path, i, |w.entries(path[i])|, c)
    {
      var entries := w.entries(path[i]);
      for k := 0 to |entries|
        invariant forall c | 0 <= c < HSHSIZ :: Bit(xhash[..], c) <==> old(Bit(xhash[..], c)) || FallsBefore(w, path, i, k, c)
      {
        var e := entries[k];
        assert forall c :: FallsBefore(w, path, i, k + 1, c) <==> FallsBefore(w, path, i, k, c) || Falls(w, path, i, k, c);
        if e.ino != 0 && e.name != "." && e.name != ".." {
          var h := Hashname(e.name);
          Bis(Hash(h, i));
        }
      }
    }

    // dohash: the table for the current path and the present listings.
    method Dohash(w: World, path: Option<seq<Word>>)
      requires xhash.Length == HSHSIZ / 8
      modifies this`havhash, xhash
      ensures havhash && Built(xhash[..], w, if path == None then [] else path.value)
    {
      havhash := true;
      for cnt := 0 to xhash.Length
        invariant havhash && forall j | 0 <= j < cnt :: xhash[j] == 0
      {
        xhash[cnt] := 0;
      }
      if path == None {
        return;
      }
      var pv := path.value;
      for i := 0 to |pv|
        invariant havhash && forall c | 0 <= c < HSHSIZ :: Bit(xhash[..], c) <==> Reached(w, pv, i, c)
      {
        if Absolute(pv[i]) && w.opens(pv[i]) {
          HashDir(w, pv, i);
        }
      }
    }

    // iscommand: the place in the path where the command is found, counted from 1, or 0.
    method Iscommand(w: World, path: Option<seq<Word>>, name: Word) returns (r: nat)
      requires xhash.Length == HSHSIZ / 8
      ensures FoundFirst(w, xhash[..], !havhash || '/' in name, Vector(path, name), name, r)
    {
      var slash := '/' in name;
      var v := Vector(path, name);
      var hashval := 0;
      if havhash {
        hashval := Hashname(name);
      }
      ghost var all := !havhash || slash;
      for i := 0 to |v|
        invariant forall j | 0 <= j < i :: !Found(w, xhash[..], all, v, name, j)
      {
        var skip := false;
        if !slash && Absolute(v[i]) && havhash {
          skip := !Bit(xhash[..], Hash(hashval, i));
        }
        assert !skip <==> all || Searched(xhash[..], v, name, i);
        if !skip && RunsAt(w, v[i], name) {
          return i + 1;
        }
      }
      r := 0;
    }
  }

  // ----- the table and the search -----

  // The directory a place of the path stands for: "" and "." are the working directory.
  function Directory(dir: Word): Word {
    if dir == "." then "" else dir
  }

  // What a search comes to.  A name with a slash, or any name without a path, is looked for
  // as it is.  Any other is found in the first directory of the path where it can be
  // executed, but for those starting with a slash whose bit in the table is clear.
  lemma SearchMeans(w: World, h: seq<bv8>, havhash: bool, path: Option<seq<Word>>, name: Word, r: nat)
    requires |h| == HSHSIZ / 8 && FoundFirst(w, h, !havhash || '/' in name, Vector(path, name), name, r)
    ensures path == None || path.value == [] || '/' in name ==> r == if w.runs("", name) then 1 else 0
    ensures path.Some? && path.value != [] && '/' !in name ==>
      var v := path.value;
      r <= |v| && (r > 0 ==> w.runs(Directory(v[r - 1]), name)) &&
      (r > 0 && havhash && "/" <= v[r - 1] ==> Bit(h, Hash(HashOf(name), r - 1))) &&
      forall j | 0 <= j < (if r == 0 then |v| else r - 1) && w.runs(Directory(v[j]), name) ::
        havhash && "/" <= v[j] && !Bit(h, Hash(HashOf(name), j))
  {
    var all, v := !havhash || '/' in name, Vector(path, name);
    forall j | 0 <= j < |v|
      ensures Found(w, h, all, v, name, j) <==>
        w.runs(Directory(v[j]), name) && (all || !("/" <= v[j]) || Bit(h, Hash(HashOf(name), j)))
    {
    }
    if path == None || path.value == [] || '/' in name {
      assert v == [""] && (Found(w, h, all, v, name, 0) <==> w.runs("", name));
    }
  }

  // An entry of a directory that was listed has its bit set.
  lemma ListedIsSet(h: seq<bv8>, w: World, path: seq<Word>, i: nat, name: Word)
    requires Built(h, w, path) && i < |path| && Absolute(path[i]) && w.opens(path[i]) && Lists(w, path[i], name)
    ensures Bit(h, Hash(HashOf(name), i))
  {
    var k :| 0 <= k < |w.entries(path[i])| && Counts(w.entries(path[i])[k]) && w.entries(path[i])[k].name == name;
    assert Falls(w, path, i, k, Hash(HashOf(name), i));
  }

  // Where the search ends if it looks into the directory where the command is first, and
  // if it does not.
  lemma FirstPlace(w: World, h: seq<bv8>, all: bool, v: seq<Word>, name: Word, r: nat)
    requires |h| == HSHSIZ / 8 && FoundFirst(w, h, all, v, name, r)
    ensures var p := Plain(w, v, name, 0);
      r == p <==> p == 0 || all || Searched(h, v, name, p - 1)
  {
    var p := Plain(w, v, name, 0);
    if p > 0 {
      assert Found(w, h, all, v, name, p - 1) <==> all || Searched(h, v, name, p - 1);
    }
    if r > 0 {
      assert RunsAt(w, v[r - 1], name);
    }
  }

  // With a table just built, the search gives what it would give without the table if and
  // only if the directory where the command is first is not an absolute one that could not
  // be listed, or another entry happens to fall on its bit.
  lemma HashedIsPlain(h: seq<bv8>, w: World, path: seq<Word>, name: Word, r: nat)
    requires Built(h, w, path) && Consistent(w) && FoundFirst(w, h, false, path, name, r)
    ensures var p := Plain(w, path, name, 0);
      r == p <==> p == 0 || !Absolute(path[p - 1]) || w.opens(path[p - 1]) || Reached(w, path, |path|, Hash(HashOf(name), p - 1))
  {
    var p := Plain(w, path, name, 0);
    FirstPlace(w, h, false, path, name, r);
    if p > 0 && Absolute(path[p - 1]) {
      AbsoluteRuns(w, path[p - 1], name);
      var b := Hash(HashOf(name), p - 1);
      assert Bit(h, b) <==> Reached(w, path, |path|, b);
      if w.opens(path[p - 1]) {
        ListedIsSet(h, w, path, p - 1, name);
      }
    }
  }

  lemma AbsoluteRuns(w: World, dir: Word, name: Word)
    requires Consistent(w) && Absolute(dir) && RunsAt(w, dir, name)
    ensures Lists(w, dir, name)
  {
  }

  // So if every absolute directory of the path can be listed, no command is missed.
  lemma ListedPathMissesNothing(h: seq<bv8>, w: World, path: seq<Word>, name: Word, r: nat)
    requires Built(h, w, path) && Consistent(w) && FoundFirst(w, h, false, path, name, r)
    requires forall i | 0 <= i < |path| :: Absolute(path[i]) ==> w.opens(path[i])
    ensures r == Plain(w, path, name, 0)
  {
    HashedIsPlain(h, w, path, name, r);
  }

  // Without the table, or for a name with a slash, it is the plain search.
  lemma UnhashedIsPlain(h: seq<bv8>, w: World, v: seq<Word>, name: Word, r: nat)
    requires |h| == HSHSIZ / 8 && FoundFirst(w, h, true, v, name, r)
    ensures r == Plain(w, v, name, 0)
  {
    FirstPlace(w, h, true, v, name, r);
  }

  // A directory that can be searched but not listed: its commands are missed.
  lemma Unlisted(h: seq<bv8>)
    requires Built(h, World((d, n) => d == "/x" && n == "a", d => false, d => [Entry("a", 1)]), ["/x"])
    ensures var w := World((d, n) => d == "/x" && n == "a", d => false, d => [Entry("a", 1)]);
      Consistent(w) && Plain(w, ["/x"], "a", 0) == 1 && FoundFirst(w, h, false, ["/x"], "a", 0)
  {
    var w := World((d, n) => d == "/x" && n == "a", d => false, d => [Entry("a", 1)]);
    forall dir, name | Absolute(dir) && w.runs(dir, name) ensures Lists(w, dir, name) {
      assert w.entries(dir)[0].name == name && Counts(w.entries(dir)[0]);
    }
    assert !Reached(w, ["/x"], 1, Hash(HashOf("a"), 0));
  }
}
