/**
 * What dd's conversions do to a whole input, said without buffers or chunks.
 */
module DdSpec {
  import opened Common

  const NL: Byte := 10
  const SP: Byte := 32

  // ctab: the translation table in force, if any.
  datatype Table = NoTable | Table(at: Byte -> Byte)

  function Tr(t: Table, b: Byte): Byte {
    if t.NoTable? then b else t.at(b)
  }

  function Translate(t: Table, s: seq<Byte>): (r: seq<Byte>)
    ensures |r| == |s|
  {
    seq(|s|, i requires 0 <= i < |s| => Tr(t, s[i]))
  }

  lemma {:induction false} TranslateConcat(t: Table, a: seq<Byte>, b: seq<Byte>)
    ensures Translate(t, a + b) == Translate(t, a) + Translate(t, b)
  {
  }

  function Fill(b: Byte, n: nat): (r: seq<Byte>)
    ensures |r| == n
  {
    seq(n, _ => b)
  }

  function Cut(s: seq<Byte>, n: nat): seq<Byte> {
    if |s| <= n then s else s[..n]
  }

  // The length of the first line, without its newline; |s| if there is no newline.
  function LineEnd(s: seq<Byte>): (k: nat)
    ensures k <= |s| && (k < |s| ==> s[k] == NL)
    ensures NL !in s[..k]
  {
    if s == [] || s[0] == NL then 0
    else
      var k := 1 + LineEnd(s[1..]);
      assert s[..k] == [s[0]] + s[1..][..k - 1];
      k
  }

  // What is left after the first newline.
  function SkipLine(s: seq<Byte>): seq<Byte> {
    var k := LineEnd(s);
    if k < |s| then s[k + 1..] else []
  }

  // ----- block -----

  // One record: a line cut to cbsz bytes, translated, and padded with blanks.
  function Record(t: Table, cbsz: nat, line: seq<Byte>): (r: seq<Byte>)
    ensures |r| == cbsz
  {
    var cut := Cut(line, cbsz);
    Translate(t, cut) + Fill(Tr(t, SP), cbsz - |cut|)
  }

  // A short unterminated line at the end of the input is padded but not translated.
  function Tail(t: Table, cbsz: nat, s: seq<Byte>): seq<Byte> {
    if |s| < cbsz then s + Fill(Tr(t, SP), cbsz - |s|) else Record(t, cbsz, s)
  }

  function Blocked(t: Table, cbsz: nat, s: seq<Byte>): seq<Byte>
    decreases |s|
  {
    var k := LineEnd(s);
    if s == [] then []
    else if k < |s| then Record(t, cbsz, s[..k]) + Blocked(t, cbsz, s[k + 1..])
    else Tail(t, cbsz, s)
  }

  // The same with the last line treated like every other.
  function IdealBlocked(t: Table, cbsz: nat, s: seq<Byte>): seq<Byte>
    decreases |s|
  {
    var k := LineEnd(s);
    if s == [] then []
    else if k < |s| then Record(t, cbsz, s[..k]) + IdealBlocked(t, cbsz, s[k + 1..])
    else Record(t, cbsz, s)
  }

  // What follows the last newline.
  function LastLine(s: seq<Byte>): seq<Byte>
    decreases |s|
  {
    var k := LineEnd(s);
    if k < |s| then LastLine(s[k + 1..]) else s
  }

  // The output is the record form of every line, the last one included, exactly
  // when the last line is complete, is long enough to be cut, or is made of
  // bytes the table maps to themselves.
  lemma {:induction false} BlockedIsIdeal(t: Table, cbsz: nat, s: seq<Byte>)
    ensures Blocked(t, cbsz, s) == IdealBlocked(t, cbsz, s) <==>
      |LastLine(s)| >= cbsz || Translate(t, LastLine(s)) == LastLine(s)
    decreases |s|
  {
    var k := LineEnd(s);
    if k < |s| {
      BlockedIsIdeal(t, cbsz, s[k + 1..]);
      var r, a, b := Record(t, cbsz, s[..k]), Blocked(t, cbsz, s[k + 1..]), IdealBlocked(t, cbsz, s[k + 1..]);
      assert (r + a)[|r|..] == a && (r + b)[|r|..] == b;
    } else if |s| < cbsz {
      var pad := Fill(Tr(t, SP), cbsz - |s|);
      assert (s + pad)[..|s|] == s && (Translate(t, s) + pad)[..|s|] == Translate(t, s);
      assert s == [] ==> Translate(t, s) == s;
    }
  }

  // So it is without a table, and when the input ends in a newline or is empty.
  lemma {:induction false} CompleteIsIdeal(t: Table, cbsz: nat, s: seq<Byte>)
    requires t.NoTable? || s == [] || s[|s| - 1] == NL
    ensures Blocked(t, cbsz, s) == IdealBlocked(t, cbsz, s)
  {
    BlockedIsIdeal(t, cbsz, s);
    if t.NoTable? {
      assert Translate(t, LastLine(s)) == LastLine(s);
    } else {
      LastLineEmpty(s);
    }
  }

  lemma {:induction false} LastLineEmpty(s: seq<Byte>)
    requires s == [] || s[|s| - 1] == NL
    ensures LastLine(s) == []
    decreases |s|
  {
    var k := LineEnd(s);
    if k < |s| {
      LastLineEmpty(s[k + 1..]);
    }
  }

  // One letter without a newline, and a table that changes it: it comes out unchanged.
  lemma LastLineKept()
    ensures var t := Table(b => if b == 97 then 65 else b);
      Blocked(t, 2, [97]) == [97, 32] && IdealBlocked(t, 2, [97]) == [65, 32]
  {
    var t := Table(b => if b == 97 then 65 else b);
    var s: seq<Byte> := [97];
    assert LineEnd(s) == 1 && Cut(s, 2) == s && Fill(Tr(t, SP), 1) == [SP] && Translate(t, s) == [65];
  }

  // ----- unblock -----

  function Strip(s: seq<Byte>): seq<Byte> {
    if s != [] && s[|s| - 1] == SP then Strip(s[..|s| - 1]) else s
  }

  function Unblocked(cbsz: nat, s: seq<Byte>): seq<Byte>
    requires cbsz > 0
    decreases |s|
  {
    if s == [] then []
    else if |s| < cbsz then Strip(s) + [NL]
    else Strip(s[..cbsz]) + [NL] + Unblocked(cbsz, s[cbsz..])
  }

  // A letter and a newline make a record of two, and come back.
  lemma OneLine()
    ensures Blocked(NoTable, 2, [97, 10]) == [97, 32] && Unblocked(2, [97, 32]) == [97, 10]
  {
    var s: seq<Byte>, r: seq<Byte> := [97, 10], [97, 32];
    assert LineEnd(s) == 1 && s[..1] == [97] && s[2..] == [];
    assert Record(NoTable, 2, s[..1]) == r;
    assert r[..1] == [97] && Strip(r[..1]) == [97] && r[..2] == r && r[2..] == [];
    assert Strip(r) == [97];
  }

  // ----- the round trip -----

  // Every line is terminated, fits in a record and has no trailing blank.
  predicate Tidy(cbsz: nat, s: seq<Byte>)
    decreases |s|
  {
    var k := LineEnd(s);
    s == [] || (k < |s| && k <= cbsz && (k == 0 || s[k - 1] != SP) && Tidy(cbsz, s[k + 1..]))
  }

  lemma {:induction false} StripPadded(s: seq<Byte>, n: nat)
    ensures Strip(s + Fill(SP, n)) == Strip(s)
  {
    if n == 0 {
      assert s + Fill(SP, n) == s;
    } else {
      var p := s + Fill(SP, n);
      assert p[..|p| - 1] == s + Fill(SP, n - 1);
      StripPadded(s, n - 1);
    }
  }

  lemma {:induction false} StripIsPrefix(s: seq<Byte>)
    ensures Strip(s) <= s
    ensures Strip(s) == s <==> s == [] || s[|s| - 1] != SP
  {
    if s != [] && s[|s| - 1] == SP {
      StripIsPrefix(s[..|s| - 1]);
    }
  }

  // The record of a line unblocks to the line itself exactly when it fits and is
  // not blank at the end.
  lemma {:induction false} RecordRoundTrip(cbsz: nat, line: seq<Byte>)
    requires NL !in line
    ensures var r := Strip(Record(NoTable, cbsz, line));
      NL !in r && (r == line <==> |line| <= cbsz && (line == [] || line[|line| - 1] != SP))
  {
    var cut := Cut(line, cbsz);
    assert Translate(NoTable, cut) == cut;
    StripPadded(cut, cbsz - |cut|);
    StripIsPrefix(cut);
  }

  lemma {:induction false} LineEndUnique(a: seq<Byte>, b: seq<Byte>, k: nat)
    requires NL !in a && k == LineEnd(b)
    ensures k < |b| && a + [NL] <= b ==> a == b[..k]
    ensures k == |b| ==> !(a + [NL] <= b)
  {
    if a + [NL] <= b {
      assert b[|a|] == NL;
      assert forall i | 0 <= i < |a| :: a[i] == b[i];
    }
  }

  // A record unblocks on its own, whatever records follow it.
  lemma {:induction false} UnblockRecord(cbsz: nat, rec: seq<Byte>, b: seq<Byte>)
    requires |rec| == cbsz > 0
    ensures Unblocked(cbsz, rec + b) == Strip(rec) + [NL] + Unblocked(cbsz, b)
  {
    assert (rec + b)[..cbsz] == rec && (rec + b)[cbsz..] == b;
  }

  // The first line of a text, with its newline, blocked and unblocked.
  lemma {:induction false} FirstLine(cbsz: nat, s: seq<Byte>, u: seq<Byte>)
    requires cbsz > 0 && LineEnd(s) < |s|
    ensures var k := LineEnd(s);
      Strip(Record(NoTable, cbsz, s[..k])) + [NL] + u == s <==>
      k <= cbsz && (k == 0 || s[k - 1] != SP) && u == s[k + 1..]
  {
    var k := LineEnd(s);
    var line, rest := s[..k], s[k + 1..];
    var r := Strip(Record(NoTable, cbsz, line));
    RecordRoundTrip(cbsz, line);
    LineEndUnique(r, s, k);
    assert s == line + [NL] + rest;
    assert r == line ==> (r + [NL] + u)[k + 1..] == u;
  }

  // A text that is one line without a newline does not come back.
  lemma {:induction false} LoneLine(cbsz: nat, s: seq<Byte>)
    requires cbsz > 0 && LineEnd(s) == |s| > 0
    ensures Unblocked(cbsz, Blocked(NoTable, cbsz, s)) != s
  {
    var rec := Record(NoTable, cbsz, s);
    RecordRoundTrip(cbsz, s);
    LineEndUnique(Strip(rec), s, |s|);
    UnblockRecord(cbsz, rec, []);
    assert Translate(NoTable, s) == s && s[..|s|] == s && rec + [] == rec;
    assert Blocked(NoTable, cbsz, s) == rec;
  }

  // Unblocking what block wrote gives the text back if and only if it is tidy.
  lemma {:induction false} BlockUnblock(cbsz: nat, s: seq<Byte>)
    requires cbsz > 0
    ensures Unblocked(cbsz, Blocked(NoTable, cbsz, s)) == s <==> Tidy(cbsz, s)
    decreases |s|
  {
    if s == [] {
      return;
    }
    var k := LineEnd(s);
    if k < |s| {
      var rest := Blocked(NoTable, cbsz, s[k + 1..]);
      BlockUnblock(cbsz, s[k + 1..]);
      UnblockRecord(cbsz, Record(NoTable, cbsz, s[..k]), rest);
      FirstLine(cbsz, s, Unblocked(cbsz, rest));
    } else {
      LoneLine(cbsz, s);
    }
  }

  // ----- cutting the input anywhere -----

  lemma {:induction false} LineEndIs(s: seq<Byte>, k: nat)
    requires k <= |s| && NL !in s[..k] && (k < |s| ==> s[k] == NL)
    ensures LineEnd(s) == k
  {
    var e := LineEnd(s);
    assert forall i | 0 <= i < e :: s[i] != NL;
    assert forall i | 0 <= i < k :: s[i] != NL;
  }

  // Of a line whose newline has arrived, the rest of the input says no more.
  lemma {:induction false} BlockedLine(t: Table, cbsz: nat, line: seq<Byte>, rest: seq<Byte>)
    requires NL !in line
    ensures Blocked(t, cbsz, line + [NL] + rest) == Record(t, cbsz, line) + Blocked(t, cbsz, rest)
  {
    var s := line + [NL] + rest;
    assert s[..|line|] == line && s[|line| + 1..] == rest;
    LineEndIs(s, |line|);
  }

  lemma {:induction false} SkipLineAt(line: seq<Byte>, rest: seq<Byte>)
    requires NL !in line
    ensures SkipLine(line + [NL] + rest) == rest
  {
    var s := line + [NL] + rest;
    assert s[..|line|] == line && s[|line| + 1..] == rest;
    LineEndIs(s, |line|);
  }

  lemma {:induction false} SkipLineOn(line: seq<Byte>, rest: seq<Byte>)
    requires NL !in line
    ensures SkipLine(line + rest) == SkipLine(rest)
  {
    LineEndConcat(line, rest);
    var k := LineEnd(rest);
    assert k < |rest| ==> (line + rest)[|line| + k + 1..] == rest[k + 1..];
  }

  lemma {:induction false} LineEndConcat(line: seq<Byte>, rest: seq<Byte>)
    requires NL !in line
    ensures LineEnd(line + rest) == |line| + LineEnd(rest)
  {
    var k := LineEnd(rest);
    assert (line + rest)[..|line| + k] == line + rest[..k];
    LineEndIs(line + rest, |line| + k);
  }

  lemma {:induction false} RecordOfLong(t: Table, full: seq<Byte>, line: seq<Byte>)
    requires full <= line
    ensures Record(t, |full|, line) == Record(t, |full|, full)
  {
    assert Cut(line, |full|) == full;
  }

  lemma {:induction false} BlockedLongTail(t: Table, cbsz: nat, full: seq<Byte>, rest: seq<Byte>)
    requires |full| == cbsz > 0 && NL !in full && NL !in rest
    ensures Blocked(t, cbsz, full + rest) == Record(t, cbsz, full)
  {
    RecordOfLong(t, full, full + rest);
    LineEndIs(full + rest, |full + rest|);
  }

  // Of a line that has filled a record, only its end is still of interest.
  lemma {:induction false} BlockedLong(t: Table, cbsz: nat, full: seq<Byte>, rest: seq<Byte>)
    requires |full| == cbsz > 0 && NL !in full
    ensures Blocked(t, cbsz, full + rest) == Record(t, cbsz, full) + Blocked(t, cbsz, SkipLine(rest))
  {
    var k := LineEnd(rest);
    if k < |rest| {
      var line := full + rest[..k];
      RecordOfLong(t, full, line);
      assert full + rest == line + [NL] + rest[k + 1..];
      BlockedLine(t, cbsz, line, rest[k + 1..]);
    } else {
      assert NL !in rest by { assert rest[..k] == rest; }
      BlockedLongTail(t, cbsz, full, rest);
      assert Blocked(t, cbsz, []) == [];
    }
  }

  // Tossing s up to and including its first newline, which is at i.
  lemma {:induction false} TossTo(s: seq<Byte>, i: nat, rest: seq<Byte>)
    requires i <= |s| && NL !in s[..i] && (i < |s| ==> s[i] == NL)
    ensures i < |s| ==> SkipLine(s + rest) == s[i + 1..] + rest
    ensures i == |s| ==> SkipLine(s + rest) == SkipLine(rest)
  {
    assert i == |s| ==> s[..i] == s;
    if i < |s| {
      TossFound(s[..i], s[i + 1..], rest);
      assert s == s[..i] + [NL] + s[i + 1..];
    } else {
      SkipLineOn(s, rest);
    }
  }

  lemma {:induction false} TossFound(line: seq<Byte>, more: seq<Byte>, rest: seq<Byte>)
    requires NL !in line
    ensures SkipLine(line + [NL] + more + rest) == more + rest
  {
    SkipLineAt(line, more + rest);
    assert line + [NL] + more + rest == line + [NL] + (more + rest);
  }

  // One line is taken from the front of r: either its newline is in r, at j, or it
  // fills a record and r ends before its newline, in which case trunc is set.
  predicate LineTaken(cbsz: nat, r: seq<Byte>, line: seq<Byte>, j: nat, trunc: bool, left: seq<Byte>) {
    |line| <= j <= |r| && r[..|line|] == line && NL !in r[..j] &&
    (|line| < cbsz ==> j == |line| && !trunc) && |line| <= cbsz &&
    (trunc ==> j == |r| && left == []) &&
    (!trunc ==> j < |r| && r[j] == NL && left == r[j + 1..])
  }

  // The input that is looked at next.
  function Next(trunc: bool, s: seq<Byte>): seq<Byte> {
    if trunc then SkipLine(s) else s
  }

  lemma {:induction false} LineTakenNext(cbsz: nat, r: seq<Byte>, line: seq<Byte>, j: nat,
                                         trunc: bool, left: seq<Byte>, rest: seq<Byte>)
    requires |line| == cbsz && LineTaken(cbsz, r, line, j, trunc, left)
    ensures SkipLine(r[cbsz..] + rest) == Next(trunc, left + rest)
  {
    var more := r[cbsz..];
    assert NL !in more[..j - cbsz] by { assert more[..j - cbsz] == r[..j][cbsz..]; }
    TossTo(more, j - cbsz, rest);
    assert trunc ==> left + rest == rest;
    assert !trunc ==> more[j - cbsz + 1..] == left;
  }

  // A line taken from the input at hand owes its record; the rest owes the rest.
  lemma {:induction false} LineTakenOwes(t: Table, cbsz: nat, r: seq<Byte>, line: seq<Byte>, j: nat,
                                         trunc: bool, left: seq<Byte>, rest: seq<Byte>)
    requires cbsz > 0 && LineTaken(cbsz, r, line, j, trunc, left)
    ensures Blocked(t, cbsz, r + rest) == Record(t, cbsz, line) + Blocked(t, cbsz, Next(trunc, left + rest))
  {
    assert NL !in line by { assert line == r[..j][..|line|]; }
    if |line| < cbsz {
      assert r + rest == line + [NL] + (left + rest);
      BlockedLine(t, cbsz, line, left + rest);
    } else {
      LineTakenNext(cbsz, r, line, j, trunc, left, rest);
      assert r + rest == line + (r[cbsz..] + rest);
      BlockedLong(t, cbsz, line, r[cbsz..] + rest);
    }
  }

  // Everything written in the end: what is out, what is buffered, and what the input
  // at hand and the input to come will add.
  function BlockTotal(t: Table, cbsz: nat, written: seq<Byte>, buffered: seq<Byte>,
                      trunc: bool, data: seq<Byte>, rest: seq<Byte>): seq<Byte> {
    written + buffered + Blocked(t, cbsz, Next(trunc, data + rest))
  }

  // A turn that took a line and put its record out owes what was owed before.
  lemma {:induction false} TurnOwes(t: Table, cbsz: nat, w: seq<Byte>, buf: seq<Byte>, r: seq<Byte>,
    w': seq<Byte>, buf': seq<Byte>, line: seq<Byte>, j: nat, trunc: bool, left: seq<Byte>, rest: seq<Byte>)
    requires cbsz > 0 && LineTaken(cbsz, r, line, j, trunc, left)
    requires w' + buf' == w + (buf + Record(t, cbsz, line))
    ensures BlockTotal(t, cbsz, w', buf', trunc, left, rest) == BlockTotal(t, cbsz, w, buf, false, r, rest)
  {
    LineTakenOwes(t, cbsz, r, line, j, trunc, left, rest);
    Regroup(w, buf, Record(t, cbsz, line), Blocked(t, cbsz, Next(trunc, left + rest)));
  }

  lemma {:induction false} TurnStops(t: Table, cbsz: nat, w: seq<Byte>, buf: seq<Byte>, r: seq<Byte>,
    line: seq<Byte>, j: nat, trunc: bool, left: seq<Byte>, rest: seq<Byte>)
    requires cbsz > 0 && LineTaken(cbsz, r, line, j, trunc, left)
    ensures w + (buf + Record(t, cbsz, line)) <= BlockTotal(t, cbsz, w, buf, false, r, rest)
  {
    LineTakenOwes(t, cbsz, r, line, j, trunc, left, rest);
    Regroup(w, buf, Record(t, cbsz, line), Blocked(t, cbsz, Next(trunc, left + rest)));
  }

  // What a short line without its newline owes when nothing follows.
  lemma {:induction false} BlockLeft(t: Table, cbsz: nat, written: seq<Byte>, buffered: seq<Byte>,
                                     trunc: bool, data: seq<Byte>)
    requires |data| < cbsz && NL !in data && (trunc ==> data == [])
    ensures BlockTotal(t, cbsz, written, buffered, trunc, data, []) ==
      written + (buffered + if data == [] then [] else data + Fill(Tr(t, SP), cbsz - |data|))
  {
    assert data + [] == data;
    LineEndIs(data, |data|);
    var pad := Fill(Tr(t, SP), cbsz - |data|);
    assert written + buffered + (data + pad) == written + (buffered + (data + pad));
    assert written + buffered + [] == written + (buffered + []);
  }

  lemma {:induction false} Regroup(w: seq<Byte>, buf: seq<Byte>, rec: seq<Byte>, more: seq<Byte>)
    ensures w + buf + (rec + more) == w + (buf + rec) + more
    ensures w + (buf + rec) <= w + buf + (rec + more)
  {
    assert w + buf + (rec + more) == w + (buf + rec) + more;
  }

  // The same for unblock.
  function UnblockTotal(cbsz: nat, written: seq<Byte>, buffered: seq<Byte>,
                        data: seq<Byte>, rest: seq<Byte>): seq<Byte>
    requires cbsz > 0
  {
    written + buffered + Unblocked(cbsz, data + rest)
  }

  lemma {:induction false} UnblockTaken(cbsz: nat, data: seq<Byte>, rest: seq<Byte>)
    requires 0 < cbsz <= |data|
    ensures Unblocked(cbsz, data + rest) ==
      Strip(data[..cbsz]) + [NL] + Unblocked(cbsz, data[cbsz..] + rest)
  {
    assert (data + rest)[..cbsz] == data[..cbsz];
    assert (data + rest)[cbsz..] == data[cbsz..] + rest;
  }

  lemma {:induction false} UnblockLeft(cbsz: nat, written: seq<Byte>, buffered: seq<Byte>, data: seq<Byte>)
    requires |data| < cbsz
    ensures UnblockTotal(cbsz, written, buffered, data, []) ==
      written + (buffered + if data == [] then [] else Strip(data) + [NL])
  {
    assert data + [] == data;
    assert written + buffered + (Strip(data) + [NL]) == written + (buffered + (Strip(data) + [NL]));
    assert written + buffered + [] == written + (buffered + []);
  }

  // A record taken and its line put out: what is owed stays.
  lemma {:induction false} UnblockOwes(cbsz: nat, w: seq<Byte>, buf: seq<Byte>, data: seq<Byte>, w': seq<Byte>,
    buf': seq<Byte>, rest: seq<Byte>)
    requires 0 < cbsz <= |data| && w' + buf' == w + (buf + (Strip(data[..cbsz]) + [NL]))
    ensures UnblockTotal(cbsz, w', buf', data[cbsz..], rest) == UnblockTotal(cbsz, w, buf, data, rest)
  {
    UnblockTaken(cbsz, data, rest);
    Regroup(w, buf, Strip(data[..cbsz]) + [NL], Unblocked(cbsz, data[cbsz..] + rest));
  }

  lemma {:induction false} UnblockStops(cbsz: nat, w: seq<Byte>, buf: seq<Byte>, data: seq<Byte>, rest: seq<Byte>)
    requires 0 < cbsz <= |data|
    ensures w + (buf + (Strip(data[..cbsz]) + [NL])) <= UnblockTotal(cbsz, w, buf, data, rest)
  {
    UnblockTaken(cbsz, data, rest);
    Regroup(w, buf, Strip(data[..cbsz]) + [NL], Unblocked(cbsz, data[cbsz..] + rest));
  }

  // A chunk is translated when it is read.
  lemma {:induction false} UnblockRead(t: Table, cbsz: nat, w: seq<Byte>, buf: seq<Byte>, data: seq<Byte>,
    chunk: seq<Byte>, rest: seq<Byte>)
    requires cbsz > 0
    ensures UnblockTotal(cbsz, w, buf, data, Translate(t, chunk + rest))
         == UnblockTotal(cbsz, w, buf, data + Translate(t, chunk), Translate(t, rest))
  {
    TranslateConcat(t, chunk, rest);
    assert data + (Translate(t, chunk) + Translate(t, rest)) == data + Translate(t, chunk) + Translate(t, rest);
  }

  lemma {:induction false} DefaultRead(t: Table, w: seq<Byte>, buf: seq<Byte>, chunk: seq<Byte>, rest: seq<Byte>)
    ensures w + buf + Translate(t, chunk) + Translate(t, rest) == w + buf + Translate(t, chunk + rest)
    ensures w + buf + Translate(t, chunk) <= w + buf + Translate(t, chunk + rest)
  {
    TranslateConcat(t, chunk, rest);
  }
}
