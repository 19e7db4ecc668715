/**
 * csh's rewindable input.  A script that can be sought is read through one window; any
 * other input is kept in blocks.  Both look like a sequence of characters with a cursor,
 * so that a loop can read its body again.
 */
module InputBuffer {
  import opened Common

  const BUFSIZ := 1024

  // ----- a sequence with a cursor -----

  // What a reader does.  `chunk` is how much a read would deliver if one is made, at most;
  // nothing stands for an error or the end.  Seek goes to the k-th position told.  Free
  // drops what has been read, and with it the told positions, unless loops are going on.
  datatype Op =
    | Getc(chunk: nat)
    | Tell
    | Seek(k: nat)
    | Free(loops: bool)

  // The answers a sequence with a cursor gives: the character at the cursor, which moves
  // on, or -1 at the end or when a read delivers nothing.
  ghost predicate Answers(s: seq<Byte>, cursor: nat, told: seq<nat>, ops: seq<Op>, out: seq<int>)
    decreases |ops|
  {
    if ops == [] then out == []
    else
      match ops[0]
      case Getc(chunk) =>
        out != [] &&
        if out[0] == -1 then (chunk == 0 || cursor >= |s|) && Answers(s, cursor, told, ops[1..], out[1..])
        else cursor < |s| && out[0] == s[cursor] && Answers(s, cursor + 1, told, ops[1..], out[1..])
      case Tell => Answers(s, cursor, told + [cursor], ops[1..], out)
      case Seek(k) => Answers(s, if k < |told| then told[k] else cursor, told, ops[1..], out)
      case Free(loops) => Answers(s, cursor, if loops then told else [], ops[1..], out)
  }

  // What a run has done so far leads to the answers if the rest does.
  ghost predicate Follows(s: seq<Byte>, start: nat, ops: seq<Op>, i: nat, cursor: nat, told: seq<nat>, out: seq<int>) {
    i <= |ops| &&
    forall more | Answers(s, cursor, told, ops[i..], more) :: Answers(s, start, [], ops, out + more)
  }

  lemma FollowsStep(s: seq<Byte>, start: nat, ops: seq<Op>, i: nat, cursor: nat, told: seq<nat>, out: seq<int>,
    cursor': nat, told': seq<nat>, answer: seq<int>)
    requires i < |ops| && Follows(s, start, ops, i, cursor, told, out)
    requires Step(s, ops[i], cursor, told, cursor', told', answer)
    ensures Follows(s, start, ops, i + 1, cursor', told', out + answer)
  {
    forall more | Answers(s, cursor', told', ops[i + 1..], more) ensures Answers(s, start, [], ops, out + answer + more) {
      assert ops[i..][1..] == ops[i + 1..];
      var all := answer + more;
      assert answer != [] ==> all[1..] == more;
      assert answer == [] ==> all == more;
      assert Answers(s, cursor, told, ops[i..], all);
      assert out + all == out + answer + more;
    }
  }

  // One step of the sequence with a cursor.
  ghost predicate Step(s: seq<Byte>, op: Op, cursor: nat, told: seq<nat>, cursor': nat, told': seq<nat>, answer: seq<int>) {
    match op
    case Getc(chunk) =>
      told' == told && |answer| == 1 &&
      if answer[0] == -1 then (chunk == 0 || cursor >= |s|) && cursor' == cursor
      else cursor < |s| && answer[0] == s[cursor] && cursor' == cursor + 1
    case Tell => cursor' == cursor && told' == told + [cursor] && answer == []
    case Seek(k) => cursor' == (if k < |told| then told[k] else cursor) && told' == told && answer == []
    case Free(loops) => cursor' == cursor && told' == (if loops then told else []) && answer == []
  }

  // When no read fails there is one way to answer, so both schemes answer alike.
  lemma {:induction false} OneAnswer(s: seq<Byte>, cursor: nat, told: seq<nat>, ops: seq<Op>, out: seq<int>, out': seq<int>)
    requires Answers(s, cursor, told, ops, out) && Answers(s, cursor, told, ops, out')
    requires forall i | 0 <= i < |ops| :: ops[i].Getc? ==> ops[i].chunk > 0
    ensures out == out'
    decreases |ops|
  {
    if ops != [] {
      var rest := ops[1..];
      assert forall i | 0 <= i < |rest| :: rest[i] == ops[i + 1];
      match ops[0]
      case Getc(chunk) =>
        OneAnswer(s, if out[0] == -1 then cursor else cursor + 1, told, rest, out[1..], out'[1..]);
        assert out == [out[0]] + out[1..] && out' == [out'[0]] + out'[1..];
      case Tell => OneAnswer(s, cursor, told + [cursor], rest, out, out');
      case Seek(k) => OneAnswer(s, if k < |told| then told[k] else cursor, told, rest, out, out');
      case Free(loops) => OneAnswer(s, cursor, if loops then told else [], rest, out, out');
    }
  }

  // How much a read of at most `want` characters delivers at `off`.
  function Delivered(size: nat, off: nat, want: nat, chunk: nat): (n: nat)
    ensures n <= want && (n > 0 ==> off + n <= size)
    ensures n == 0 <==> want == 0 || chunk == 0 || off >= size
  {
    var left := if off < size then size - off else 0;
    var n := if chunk < want then chunk else want;
    if n < left then n else left
  }

  // The system call: characters of s from `off` on, into a at `at`.
  method ReadInto(s: seq<Byte>, off: nat, a: array<Byte>, at: nat, want: nat, chunk: nat) returns (n: nat)
    requires at + want <= a.Length
    modifies a
    ensures n == Delivered(|s|, off, want, chunk)
    ensures n > 0 ==> off + n <= |s|
    ensures forall j | at <= j < at + n :: a[j] == s[off + (j - at)]
    ensures forall i | 0 <= i < a.Length && !(at <= i < at + n) :: a[i] == old(a[i])
  {
    n := Delivered(|s|, off, want, chunk);
    for i := 0 to n
      invariant forall j | at <= j < at + i :: a[j] == s[off + (j - at)]
      invariant forall j | 0 <= j < a.Length && !(at <= j < at + i) :: a[j] == old(a[j])
    {
      a[at + i] := s[off + i];
    }
  }

  // ----- a file that can be sought -----

  class Window {
    const file: seq<Byte>
    const fbuf: array<Byte>
    var offset: nat               // of the file descriptor
    var fseekp: nat
    var fbobp: nat
    var feobp: nat

    ghost predicate Valid()
      reads this, fbuf
    {
      fbuf.Length == BUFSIZ && fbobp <= feobp <= fbobp + BUFSIZ && offset == feobp &&
      (fbobp < feobp ==> feobp <= |file|) &&
      forall j | 0 <= j < feobp - fbobp :: fbuf[j] == file[fbobp + j]
    }

    // settell: the window is empty, at the place the file descriptor is at.
    constructor (file: seq<Byte>, offset: nat)
      ensures Valid() && this.file == file && fseekp == offset && fresh(fbuf)
    {
      this.file := file;
      this.offset := offset;
      fbuf := new Byte[BUFSIZ](_ => 0);
      fseekp, fbobp, feobp := offset, offset, offset;
    }

    method Bgetc(chunk: nat) returns (c: int)
      requires Valid()
      modifies this`offset, this`fseekp, this`fbobp, this`feobp, fbuf
      ensures Valid()
      ensures c == -1 <==> !old(fbobp <= fseekp < feobp) && (chunk == 0 || old(fseekp) >= |file|)
      ensures if c == -1 then fseekp == old(fseekp)
        else old(fseekp) < |file| && c == file[old(fseekp)] && fseekp == old(fseekp) + 1
    {
      if fseekp < fbobp || fseekp > feobp {
        fbobp, feobp := fseekp, fseekp;
        offset := fseekp;
      }
      if fseekp == feobp {
        fbobp := feobp;
        var n := ReadInto(file, offset, fbuf, 0, BUFSIZ, chunk);
        offset := offset + n;
        if n == 0 {
          return -1;
        }
        feobp := feobp + n;
      }
      c := fbuf[fseekp - fbobp];
      fseekp := fseekp + 1;
    }

    // Any run gives the answers of a sequence with a cursor.
    method Run(ops: seq<Op>) returns (out: seq<int>)
      requires Valid()
      modifies this, fbuf
      ensures Valid() && Answers(file, old(fseekp), [], ops, out)
    {
      var told: seq<nat> := [];
      out := [];
      ghost var start := fseekp;
      assert ops[0..] == ops && forall more: seq<int> :: [] + more == more;
      for i := 0 to |ops|
        invariant Valid() && Follows(file, start, ops, i, fseekp, told, out)
      {
        ghost var cursor, was := fseekp, told;
        var answer: seq<int> := [];
        match ops[i] {
          case Getc(chunk) =>
            var c := Bgetc(chunk);
            answer := [c];
          case Tell => told := told + [fseekp];
          case Seek(k) =>
            if k < |told| {
              fseekp := told[k];
            }
          case Free(loops) =>
            if !loops {
              told := [];
            }
        }
        FollowsStep(file, start, ops, i, cursor, was, out, fseekp, told, answer);
        out := out + answer;
      }
      assert ops[|ops|..] == [] && out + [] == out;
      assert Answers(file, fseekp, told, ops[|ops|..], []);
    }
  }

  // ----- any other input, kept in blocks -----

  // Position i is at offset i % BUFSIZ of block i / BUFSIZ.
  lemma Placed(i: nat)
    ensures i == i / BUFSIZ * BUFSIZ + i % BUFSIZ && 0 <= i % BUFSIZ < BUFSIZ && i / BUFSIZ >= 0
  {
  }

  ghost predicate Blocked(fbuf: seq<array<Byte>>) {
    (forall b | 0 <= b < |fbuf| :: fbuf[b].Length == BUFSIZ) &&
    forall b, b' | 0 <= b < b' < |fbuf| :: fbuf[b] != fbuf[b']
  }

  // The first n characters in the blocks are those of s from base on.
  ghost predicate Kept(fbuf: seq<array<Byte>>, n: nat, s: seq<Byte>, base: nat)
    requires Blocked(fbuf)
    reads fbuf
  {
    n <= |fbuf| * BUFSIZ && base + n <= |s| &&
    forall b, o | 0 <= b < |fbuf| && 0 <= o < BUFSIZ && b * BUFSIZ + o < n :: fbuf[b][o] == s[base + (b * BUFSIZ + o)]
  }

  class Blocks {
    const stream: seq<Byte>
    var fbuf: seq<array<Byte>>
    var fseekp: nat
    var feobp: nat
    var taken: nat                // characters the system has handed out
    ghost var base: nat           // characters dropped

    ghost predicate Valid()
      reads this, fbuf
    {
      Blocked(fbuf) && Kept(fbuf, feobp, stream, base) && fseekp <= feobp && taken == base + feobp
    }

    // The place in the whole input.
    ghost function Cursor(): nat
      reads this
    {
      base + fseekp
    }

    constructor (stream: seq<Byte>)
      ensures Valid() && this.stream == stream && Cursor() == 0 && fbuf == []
    {
      this.stream := stream;
      fbuf := [];
      fseekp, feobp, taken, base := 0, 0, 0, 0;
    }

    // One more block.
    method Grow()
      requires Valid()
      modifies this`fbuf
      ensures Valid() && |fbuf| == |old(fbuf)| + 1 && fbuf[..|old(fbuf)|] == old(fbuf)
      ensures forall b | 0 <= b < |fbuf| :: fbuf[b] in old(fbuf) || fresh(fbuf[b])
    {
      var block := new Byte[BUFSIZ](_ => 0);
      fbuf := fbuf + [block];
    }

    // A read into the block where the input ends.
    method Fill(chunk: nat) returns (n: nat)
      requires Valid() && feobp / BUFSIZ < |fbuf|
      modifies this`feobp, this`taken, fbuf
      ensures Valid() && feobp == old(feobp) + n
      ensures n == 0 <==> chunk == 0 || base + old(feobp) >= |stream|
    {
      var buf, off := feobp / BUFSIZ, feobp % BUFSIZ;
      Placed(feobp);
      n := ReadInto(stream, taken, fbuf[buf], off, BUFSIZ - off, chunk);
      feobp, taken := feobp + n, taken + n;
    }

    // Without completion on a terminal.
    method Bgetc(chunk: nat, intty: bool, filec: bool) returns (c: int)
      requires Valid() && !(intty && filec)
      modifies this, fbuf
      ensures Valid() && base == old(base) && feobp >= old(feobp)
      ensures forall b | 0 <= b < |fbuf| :: fbuf[b] in old(fbuf) || fresh(fbuf[b])
      ensures c == -1 <==> old(fseekp == feobp) && (chunk == 0 || old(Cursor()) >= |stream|)
      ensures if c == -1 then fseekp == old(fseekp)
        else old(Cursor()) < |stream| && c == stream[old(Cursor())] && fseekp == old(fseekp) + 1
    {
      var buf;
      while true
        invariant Valid() && base == old(base) && feobp >= old(feobp) && fseekp == old(fseekp)
        invariant feobp > old(feobp) ==> fseekp < feobp && chunk > 0
        invariant forall b | 0 <= b < |fbuf| :: fbuf[b] in old(fbuf) || fresh(fbuf[b])
        decreases fseekp >= feobp, |fbuf| <= fseekp / BUFSIZ
      {
        buf := fseekp / BUFSIZ;
        Placed(fseekp);
        Placed(feobp);
        if buf >= |fbuf| {
          Grow();
          if !intty {
            continue;
          }
        }
        if fseekp >= feobp {
          buf := feobp / BUFSIZ;
          var n := Fill(chunk);
          if n == 0 {
            return -1;
          }
          if filec && !intty {
            continue;
          }
        }
        break;
      }
      c := Fetch(buf);
    }

    // The character at the cursor, which is in block buf.
    method Fetch(buf: nat) returns (c: Byte)
      requires Valid() && fseekp < feobp && buf == fseekp / BUFSIZ
      modifies this`fseekp
      ensures Valid() && fseekp == old(fseekp) + 1
      ensures old(Cursor()) < |stream| && c == stream[old(Cursor())]
    {
      Placed(fseekp);
      c := fbuf[buf][fseekp % BUFSIZ];
      fseekp := fseekp + 1;
    }

    // Drops the blocks before the one read last, unless loops are going on.
    method Bfree(loops: bool)
      requires Valid()
      modifies this`fbuf, this`fseekp, this`feobp, this`base
      ensures Valid() && Cursor() == old(Cursor())
      ensures forall b | 0 <= b < |fbuf| :: fbuf[b] in old(fbuf)
      ensures loops ==> base == old(base) && feobp == old(feobp)
      ensures !loops ==> fseekp <= BUFSIZ
    {
      if loops {
        return;
      }
      var sb := if fseekp == 0 then 0 else (fseekp - 1) / BUFSIZ;
      if sb > 0 {
        Placed(fseekp - 1);
        Rebased(fbuf, feobp, stream, base, sb);
        fbuf := fbuf[sb..];
        fseekp := fseekp - BUFSIZ * sb;
        feobp := feobp - BUFSIZ * sb;
        base := base + BUFSIZ * sb;
      }
    }

    // Any run gives the answers of a sequence with a cursor.
    method Run(ops: seq<Op>, intty: bool, filec: bool) returns (out: seq<int>)
      requires Valid() && !(intty && filec)
      modifies this, fbuf
      ensures Valid() && Answers(stream, old(Cursor()), [], ops, out)
    {
      var told: seq<nat> := [];
      ghost var places: seq<nat> := [];
      out := [];
      ghost var start := Cursor();
      assert ops[0..] == ops && forall more: seq<int> :: [] + more == more;
      for i := 0 to |ops|
        invariant Valid() && Follows(stream, start, ops, i, Cursor(), places, out)
        invariant forall b | 0 <= b < |fbuf| :: fbuf[b] in old(fbuf) || fresh(fbuf[b])
        invariant ToldPlaces(told, places)
      {
        ghost var cursor, was := Cursor(), places;
        var answer: seq<int> := [];
        match ops[i] {
          case Getc(chunk) =>
            var c := Bgetc(chunk, intty, filec);
            answer := [c];
          case Tell =>
            told := told + [fseekp];
            places := places + [Cursor()];
          case Seek(k) =>
            if k < |told| {
              fseekp := told[k];
            }
          case Free(loops) =>
            Bfree(loops);
            if !loops {
              told, places := [], [];
            }
        }
        FollowsStep(stream, start, ops, i, cursor, was, out, Cursor(), places, answer);
        out := out + answer;
      }
      assert ops[|ops|..] == [] && out + [] == out;
      assert Answers(stream, Cursor(), places, ops[|ops|..], []);
    }

    // The told positions, and the places in the input they are.
    ghost predicate ToldPlaces(told: seq<nat>, places: seq<nat>)
      reads this
    {
      |told| == |places| && forall k | 0 <= k < |told| :: told[k] <= feobp && places[k] == base + told[k]
    }
  }

  // Without the first sb blocks the rest is what it was.
  lemma Rebased(fbuf: seq<array<Byte>>, n: nat, s: seq<Byte>, base: nat, sb: nat)
    requires Blocked(fbuf) && Kept(fbuf, n, s, base) && sb <= |fbuf| && BUFSIZ * sb <= n
    ensures Blocked(fbuf[sb..]) && Kept(fbuf[sb..], n - BUFSIZ * sb, s, base + BUFSIZ * sb)
  {
    var rest := fbuf[sb..];
    forall b, o | 0 <= b < |rest| && 0 <= o < BUFSIZ && b * BUFSIZ + o < n - BUFSIZ * sb
      ensures rest[b][o] == s[base + BUFSIZ * sb + (b * BUFSIZ + o)]
    {
      assert rest[b] == fbuf[sb + b];
      assert (sb + b) * BUFSIZ + o == BUFSIZ * sb + (b * BUFSIZ + o);
    }
  }
}
