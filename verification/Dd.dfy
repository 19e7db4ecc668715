/**
 * dd's copying machine: the input and output buffers, the conversions that move
 * bytes between them, and the reads and writes that may come in any sizes.
 */
module Dd {
  import opened Common
  import opened DdSpec

  datatype Mode = Default | Block | Unblock

  // What a read returns; the end of the file is the end of the list of events.
  datatype Event = Data(bytes: seq<Byte>) | Failed

  const EINTR := -1

  // A call of write: how much was asked for, and what it returned (more than was asked
  // for stands for all of it).
  datatype Call = Call(asked: nat, got: int)

  method Memmove(dst: array<Byte>, d: nat, src: array<Byte>, s: nat, n: nat)
    requires d + n <= dst.Length && s + n <= src.Length
    modifies dst
    ensures dst[d..d + n] == old(src[s..s + n])
    ensures dst[..d] == old(dst[..d])
    ensures forall i | 0 <= i < dst.Length && !(d <= i < d + n) :: dst[i] == old(dst[i])
  {
    forall i | 0 <= i < n {
      dst[d + i] := src[s + i];
    }
  }

  // A slice can be taken in two steps.
  lemma TwoSlices(w: seq<Byte>, s: seq<Byte>, a: nat, b: nat, c: nat)
    requires a <= b <= c <= |s|
    ensures w + s[a..b] + s[b..c] == w + s[a..c] && w + s[a..b] <= w + s[a..c] && w <= w + s[a..c]
  {
    assert s[a..c] == s[a..b] + s[b..c];
  }

  // The parts of a buffer that holds one sequence after another.
  lemma Behind(s: seq<Byte>, a: seq<Byte>, b: seq<Byte>)
    requires s == a + b
    ensures s[..|a|] == a && s[|a|..] == b
  {
  }

  lemma PrefixTrans(a: seq<Byte>, b: seq<Byte>, c: seq<Byte>)
    requires a <= b <= c
    ensures a <= c
  {
  }

  method Memset(dst: array<Byte>, d: nat, v: Byte, n: nat)
    requires d + n <= dst.Length
    modifies dst
    ensures dst[d..d + n] == Fill(v, n)
    ensures dst[..d] == old(dst[..d])
    ensures forall i | 0 <= i < dst.Length && !(d <= i < d + n) :: dst[i] == old(dst[i])
  {
    forall i | 0 <= i < n {
      dst[d + i] := v;
    }
  }

  function Max(a: int, b: nat): nat { if a < b then b else a }
  function Min(a: nat, b: nat): nat { if a < b then a else b }

  class Copier {
    const mode: Mode
    const table: Table
    const cbsz: nat
    const ibs: nat
    const obs: nat
    const noerror: bool
    const tape: bool
    const limit: nat                 // cpy_cnt; 0 is no limit

    const inDb: array<Byte>
    const outDb: array<Byte>
    var inDbp: nat                   // pointers into the buffers, as offsets
    var inDbcnt: nat
    var inDbrcnt: nat
    var outDbp: nat
    var outDbcnt: nat
    var intrunc: bool
    var inBlocks: nat                // st.in_full + st.in_part

    const fates: seq<int>            // what the writes return, as far as they are not full
    var writes: seq<int>             // those to come
    ghost var calls: seq<Call>       // the calls of write so far
    var written: seq<Byte>           // what has reached the output, st.bytes of them

    ghost predicate Shape()
    {
      ibs > 0 && obs > 0 &&
      (mode.Default? ==> inDb == outDb && inDb.Length == obs + ibs - 1) &&
      (!mode.Default? ==>
        cbsz > 0 && inDb != outDb &&
        inDb.Length == Max(ibs, cbsz) + cbsz && outDb.Length == obs + cbsz)
    }

    // The output buffer between two conversions: less than a block, at its start.
    ghost predicate OutReady()
      reads this
    {
      outDbp == outDbcnt < obs
    }

    ghost predicate Valid()
      reads this, inDb
    {
      Shape() && OutReady() && inDbp == inDbcnt && inDbcnt <= inDb.Length &&
      (mode.Default? ==> inDbcnt == outDbcnt) &&
      (mode.Block? ==> inDbcnt < cbsz && NL !in inDb[..inDbcnt] && (intrunc ==> inDbcnt == 0)) &&
      (mode.Unblock? ==> inDbcnt < cbsz)
    }

    ghost function OutBuf(): seq<Byte>
      reads this, outDb
      requires outDbcnt <= outDb.Length
    {
      outDb[..outDbcnt]
    }

    // ----- writing -----

    // A write that dd goes on after: it wrote something or was interrupted, and on a tape
    // it wrote everything.
    predicate Good(c: Call) {
      (c.got > 0 || c.got == EINTR) && (tape ==> c.got >= c.asked)
    }

    ghost predicate AllGood()
      reads this`calls
    {
      forall i | 0 <= i < |calls| :: Good(calls[i])
    }

    // The calls so far returned what was laid down for them.
    ghost predicate Traced()
      reads this`calls, this`writes
    {
      writes == (if |calls| <= |fates| then fates[|calls|..] else []) &&
      forall i | 0 <= i < |calls| ::
        0 < calls[i].asked <= outDb.Length && calls[i].got == if i < |fates| then fates[i] else calls[i].asked
    }

    // ok tells whether all of them were good.
    ghost predicate Fared(ok: bool)
      reads this`calls, this`writes
    {
      Traced() && ok == AllGood()
    }

    // No write fails; on a tape none is short.
    predicate Writable() {
      forall i | 0 <= i < |fates| :: if tape then fates[i] >= outDb.Length else fates[i] > 0 || fates[i] == EINTR
    }

    lemma WritableIsGood()
      requires Traced() && Writable()
      ensures AllGood()
    {
    }

    // The system call.
    method Write(p: nat, cnt: nat) returns (nw: int)
      requires 0 < cnt && p + cnt <= outDb.Length && Fared(true)
      modifies this`writes, this`calls, this`written
      ensures nw <= cnt && Fared((nw > 0 || nw == EINTR) && (tape ==> nw == cnt))
      ensures written == old(written) + outDb[..][p..p + Max(nw, 0)] && (nw < cnt ==> |writes| < |old(writes)|)
      ensures |writes| <= |old(writes)|
    {
      nw := cnt;
      if writes != [] {
        nw := if writes[0] > cnt then cnt else writes[0];
        calls := calls + [Call(cnt, writes[0])];
        writes := writes[1..];
      } else {
        calls := calls + [Call(cnt, cnt)];
      }
      written := written + outDb[p..p + Max(nw, 0)];
      assert outDb[..][p..p + Max(nw, 0)] == outDb[p..p + Max(nw, 0)];
    }

    // One call, in a run of them that began at outp.
    method WriteOn(p: nat, cnt: nat, ghost w: seq<Byte>, ghost all: seq<Byte>, ghost outp: nat) returns (nw: int)
      requires 0 < cnt && outp <= p && p + cnt <= outDb.Length && Fared(true)
      requires all == outDb[..] && written == w + all[outp..p]
      modifies this`writes, this`calls, this`written
      ensures nw <= cnt && Fared((nw > 0 || nw == EINTR) && (tape ==> nw == cnt))
      ensures written == w + all[outp..p + Max(nw, 0)] && w <= written <= w + all[outp..p + cnt]
      ensures |writes| <= |old(writes)| && (nw < cnt ==> |writes| < |old(writes)|)
    {
      nw := Write(p, cnt);
      TwoSlices(w, all, outp, p, p + Max(nw, 0));
      TwoSlices(w, all, outp, p + Max(nw, 0), p + cnt);
    }

    // The inner loop of dd_out: n bytes from outp go out, in as many writes as it takes.
    method WriteAll(outp: nat, n: nat) returns (ok: bool)
      requires n > 0 && outp + n <= outDb.Length && Fared(true)
      modifies this`writes, this`calls, this`written
      ensures Fared(ok)
      ensures ok ==> written == old(written) + outDb[..][outp..outp + n]
      ensures !ok ==> old(written) <= written <= old(written) + outDb[..][outp..outp + n]
    {
      var p, cnt := outp, n;
      ghost var w, all, end := written, outDb[..], outp + n;
      assert all[outp..outp] == [];
      while true
        invariant outp <= p && cnt > 0 && p + cnt == end && Fared(true) && written == w + all[outp..p]
        decreases |writes|
      {
        var nw := WriteOn(p, cnt, w, all, outp);
        if nw <= 0 {
          if nw != EINTR {
            return false;
          }
          nw := 0;
        }
        p := p + nw;
        if nw == n || nw == cnt {
          break;
        }
        if tape {
          return false;
        }
        cnt := cnt - nw;
      }
      ok := true;
    }

    // The outer loop of dd_out: one forced write of everything, or whole blocks
    // until less than a block is left.
    method WriteBlocks(force: bool) returns (ok: bool, outp: nat)
      requires Fared(true)
      requires obs > 0 && outDbcnt <= outDb.Length
      requires if force then outDbcnt > 0 else outDbcnt >= obs
      modifies this`writes, this`calls, this`written, this`outDbcnt
      ensures Fared(ok)
      ensures ok ==> outDbcnt < obs && outp + outDbcnt == old(outDbcnt)
      ensures ok ==> written == old(written) + outDb[..][0..outp]
      ensures ok && force ==> outDbcnt == 0
      ensures !ok ==> old(written) <= written <= old(written + outDb[..][0..outDbcnt])
    {
      outp := 0;
      var n := if force then outDbcnt else obs;
      ghost var w, all, end := written, outDb[..], outDbcnt;
      assert all[0..0] == [];
      while true
        invariant 0 < n <= outDbcnt && outp + outDbcnt == end <= outDb.Length
        invariant force ==> n == outDbcnt
        invariant Fared(true) && written == w + all[0..outp]
        decreases outDbcnt
      {
        TwoSlices(w, all, 0, outp, outp + n);
        TwoSlices(w, all, 0, outp + n, end);
        ok := WriteAll(outp, n);
        if !ok {
          assert written <= w + all[0..end] by { PrefixTrans(written, w + all[0..outp + n], w + all[0..end]); }
          return;
        }
        outp := outp + n;
        outDbcnt := outDbcnt - n;
        if outDbcnt < obs {
          break;
        }
        n := obs;
      }
    }

    // Writes out the output buffer and moves what is left to its start.
    method DdOut(force: bool) returns (ok: bool)
      requires Fared(true)
      requires obs > 0 && outDbcnt <= outDb.Length
      requires if force then outDbcnt > 0 else outDbp == outDbcnt >= obs
      modifies this`writes, this`calls, this`written, this`outDbp, this`outDbcnt, outDb
      ensures Fared(ok)
      ensures ok ==> OutReady() && outDbcnt <= outDb.Length
      ensures ok ==> written + OutBuf() == old(written + OutBuf())
      ensures ok && force ==> outDbcnt == 0
      ensures !ok ==> old(written) <= written <= old(written + OutBuf())
    {
      ghost var w, all, end := written, outDb[..], outDbcnt;
      assert all[0..end] == OutBuf();
      var outp;
      ok, outp := WriteBlocks(force);
      if !ok {
        return;
      }
      TwoSlices(w, all, 0, outp, end);
      assert outDb[outp..end] == all[outp..end];
      if outDbcnt > 0 {
        Memmove(outDb, 0, outDb, outDbp - outDbcnt, outDbcnt);
      }
      outDbp := outDbcnt;
      assert OutBuf() == outDb[0..outDbcnt] == all[outp..end];
    }

    // ----- reading -----

    // A successful read of a chunk, and the place moves after it.
    method TakeIn(chunk: seq<Byte>)
      requires Valid() && |chunk| <= ibs
      modifies this`inDbp, this`inDbcnt, this`inDbrcnt, this`inBlocks, inDb
      ensures inDbp == inDbcnt == old(inDbcnt) + |chunk| <= inDb.Length && inDbrcnt == |chunk|
      ensures inBlocks == old(inBlocks) + 1
      ensures inDb[..inDbcnt] == old(inDb[..inDbcnt]) + chunk
      ensures outDb != inDb ==> outDb[..] == old(outDb[..])
    {
      forall i | 0 <= i < |chunk| {
        inDb[inDbp + i] := chunk[i];
      }
      inDbcnt := inDbcnt + |chunk|;
      inDbrcnt := |chunk|;
      inBlocks := inBlocks + 1;
      inDbp := inDbp + |chunk|;
    }

    // ----- default: copy, translating in place -----

    method TranslateInPlace()
      requires inDbp == inDbcnt <= inDb.Length && inDbrcnt <= inDbcnt
      modifies inDb
      ensures var k := inDbcnt - inDbrcnt;
        inDb[..inDbcnt] == old(inDb[..k]) + Translate(table, old(inDb[k..inDbcnt]))
    {
      if table.NoTable? {
        return;
      }
      ghost var was := inDb[..];
      var inp := inDbp - inDbrcnt;
      ghost var k := inp;
      while inp < inDbp
        invariant k <= inp <= inDbp
        invariant forall i | 0 <= i < inDb.Length :: inDb[i] == if k <= i < inp then Tr(table, was[i]) else was[i]
      {
        inDb[inp] := table.at(inDb[inp]);
        inp := inp + 1;
      }
    }

    // The new bytes, translated, are output.
    method DefTake()
      requires Shape() && mode.Default? && inDbp == inDbcnt <= inDb.Length
      requires inDbrcnt <= inDbcnt && outDbcnt == inDbcnt - inDbrcnt
      modifies this`outDbp, this`outDbcnt, inDb
      ensures outDbp == outDbcnt == inDbcnt
      ensures OutBuf() == old(OutBuf()) + Translate(table, old(inDb[inDbcnt - inDbrcnt..inDbcnt]))
    {
      ghost var buf := OutBuf();
      assert buf == inDb[..inDbcnt - inDbrcnt];
      TranslateInPlace();
      outDbp := inDbp;
      outDbcnt := inDbcnt;
      assert OutBuf() == inDb[..inDbcnt];
    }

    // A full block of it is written.
    method DefWrite() returns (ok: bool)
      requires Fared(true)
      requires Shape() && mode.Default? && inDbp == inDbcnt == outDbp == outDbcnt <= inDb.Length
      modifies this`writes, this`calls, this`written, this`inDbp, this`inDbcnt, this`outDbp, this`outDbcnt, inDb
      ensures Fared(ok)
      ensures ok ==> Valid() && written + OutBuf() == old(written + OutBuf())
      ensures !ok ==> written <= old(written + OutBuf())
    {
      ok := true;
      if inDbcnt >= obs {
        ok := DdOut(false);
        inDbp := outDbp;
        inDbcnt := outDbcnt;
      }
    }

    method Def() returns (ok: bool)
      requires Fared(true)
      requires Shape() && mode.Default? && inDbp == inDbcnt <= inDb.Length
      requires inDbrcnt <= inDbcnt && outDbcnt == inDbcnt - inDbrcnt
      modifies this`writes, this`calls, this`written, this`inDbp, this`inDbcnt, this`outDbp, this`outDbcnt, inDb
      ensures Fared(ok)
      ensures ok ==> Valid()
      ensures ok ==> written + OutBuf() == old(written + OutBuf() + Translate(table, inDb[inDbcnt - inDbrcnt..inDbcnt]))
      ensures !ok ==> written <= old(written + OutBuf() + Translate(table, inDb[inDbcnt - inDbrcnt..inDbcnt]))
    {
      ghost var w, buf, added := written, OutBuf(), Translate(table, inDb[inDbcnt - inDbrcnt..inDbcnt]);
      DefTake();
      assert w + (buf + added) == w + buf + added;
      ok := DefWrite();
    }

    // ----- block: lines to records -----

    // Copies a line, or as much of it as fits, into the output buffer.
    method CopyRecord(inp: nat, maxlen: nat) returns (cnt: nat)
      requires inDb != outDb && inp + maxlen <= inDb.Length && outDbp + maxlen <= outDb.Length
      modifies outDb
      ensures cnt <= maxlen && NL !in inDb[inp..inp + cnt] && (cnt < maxlen ==> inDb[inp + cnt] == NL)
      ensures outDb[..outDbp + cnt] == old(outDb[..outDbp]) + Translate(table, inDb[inp..inp + cnt])
    {
      cnt := 0;
      while cnt < maxlen && inDb[inp + cnt] != NL
        invariant cnt <= maxlen && NL !in inDb[inp..inp + cnt]
        invariant outDb[..outDbp + cnt] == old(outDb[..outDbp]) + Translate(table, inDb[inp..inp + cnt])
      {
        outDb[outDbp + cnt] := Tr(table, inDb[inp + cnt]);
        assert inDb[inp..inp + cnt + 1] == inDb[inp..inp + cnt] + [inDb[inp + cnt]];
        assert outDb[..outDbp + cnt + 1] == outDb[..outDbp + cnt] + [outDb[outDbp + cnt]];
        cnt := cnt + 1;
      }
    }

    // Tosses characters to a newline, which is tossed too; j is where it is.
    method Toss(from: nat, n: nat) returns (left: nat, found: bool, ghost j: nat)
      requires from + n <= inDb.Length
      ensures j <= n && NL !in inDb[from..from + j]
      ensures found ==> j < n && inDb[from + j] == NL && left == n - j - 1
      ensures !found ==> j == n && left == 0
    {
      var inp := from;
      left := n;
      while left > 0 && inDb[inp] != NL
        invariant left <= n && inp + left == from + n && NL !in inDb[from..inp]
      {
        assert inDb[from..inp + 1] == inDb[from..inp] + [inDb[inp]];
        inp := inp + 1;
        left := left - 1;
      }
      j := inp - from;
      found := left > 0;
      if found {
        left := left - 1;
      }
    }

    // A record's worth of bytes has been put at outDbp.
    method RecordDone() returns (ok: bool)
      requires Fared(true)
      requires Shape() && !mode.Default? && OutReady()
      modifies this`writes, this`calls, this`written, this`outDbp, this`outDbcnt, outDb
      ensures Fared(ok)
      ensures ok ==> OutReady() && written + OutBuf() == old(written + outDb[..outDbcnt + cbsz])
      ensures !ok ==> written <= old(written + outDb[..outDbcnt + cbsz])
    {
      outDbp := outDbp + cbsz;
      outDbcnt := outDbcnt + cbsz;
      ok := true;
      if outDbcnt >= obs {
        ok := DdOut(false);
      }
    }
  
    // Pads the line that has been copied after the old buffer to a whole record.
    method PadRecord(ghost buf: seq<Byte>, ghost line: seq<Byte>, cnt: nat)
      requires cnt == |line| <= cbsz && |buf| == outDbp && outDbp + cbsz <= outDb.Length
      requires outDb[..outDbp + cnt] == buf + Translate(table, line)
      modifies outDb
      ensures outDb[..outDbp + cbsz] == buf + Record(table, cbsz, line)
    {
      ghost var head, pad := outDb[..outDbp + cnt], Fill(Tr(table, SP), cbsz - cnt);
      if cnt < cbsz {
        Memset(outDb, outDbp + cnt, Tr(table, SP), cbsz - cnt);
      }
      assert outDb[..outDbp + cbsz] == head + pad;
      assert head + pad == buf + (Translate(table, line) + pad);
    }

    method FinishRecord(ghost buf: seq<Byte>, ghost line: seq<Byte>, cnt: nat) returns (ok: bool)
      requires Fared(true)
      requires Shape() && !mode.Default? && OutReady() && cnt == |line| <= cbsz && |buf| == outDbp
      requires outDb[..outDbp + cnt] == buf + Translate(table, line)
      modifies this`writes, this`calls, this`written, this`outDbp, this`outDbcnt, outDb
      ensures Fared(ok)
      ensures ok ==> OutReady() && written + OutBuf() == old(written) + (buf + Record(table, cbsz, line))
      ensures !ok ==> written <= old(written) + (buf + Record(table, cbsz, line))
    {
      PadRecord(buf, line, cnt);
      ok := RecordDone();
    }

    ghost function InData(): seq<Byte>
      reads this, inDb
      requires inDbcnt <= inDbp <= inDb.Length
    {
      inDb[inDbp - inDbcnt..inDbp]
    }

    ghost predicate InBlock()
      reads this
    {
      Shape() && mode.Block? && OutReady() && inDbcnt <= inDbp <= inDb.Length
    }

    // Steps the input over a line of which cnt bytes were copied: over its newline, or,
    // when it filled the record, over what is left of it.
    method TakeLine(cnt: nat) returns (ghost j: nat)
      requires InBlock() && !intrunc && cnt <= inDbcnt && cnt <= cbsz && NL !in InData()[..cnt]
      requires cnt < cbsz ==> cnt < inDbcnt && InData()[cnt] == NL
      modifies this`inDbcnt, this`intrunc
      ensures inDbcnt <= old(inDbcnt) - cnt && (cnt < cbsz ==> inDbcnt < old(inDbcnt))
      ensures LineTaken(cbsz, old(InData()), old(InData())[..cnt], j, intrunc, InData())
    {
      ghost var r := InData();
      inDbcnt := inDbcnt - cnt;
      j := cnt;
      if cnt < cbsz {
        inDbcnt := inDbcnt - 1;
      } else {
        var from := inDbp - inDbcnt;
        var left, found, i := Toss(from, inDbcnt);
        inDbcnt := left;
        intrunc := !found;
        j := cnt + i;
        assert r[..j] == r[..cnt] + inDb[from..from + i];
      }
    }

    // One turn of the loop in block.  A short line without its newline stays where it is.
    method BlockOne() returns (ok: bool, short: bool, ghost line: seq<Byte>, ghost j: nat)
      requires Fared(true)
      requires InBlock() && inDbcnt > 0 && !intrunc
      modifies this`writes, this`calls, this`written, this`outDbp, this`outDbcnt, this`inDbcnt, this`intrunc, outDb
      ensures Fared(ok)
      ensures short ==> ok && inDbcnt == old(inDbcnt) < cbsz && NL !in InData() && !intrunc && OutReady()
      ensures short ==> written == old(written) && OutBuf() == old(OutBuf())
      ensures !short ==> inDbcnt < old(inDbcnt) && LineTaken(cbsz, old(InData()), line, j, intrunc, InData())
      ensures ok && !short ==> OutReady()
      ensures ok && !short ==> written + OutBuf() == old(written) + (old(OutBuf()) + Record(table, cbsz, line))
      ensures !ok ==> !short && written <= old(written) + (old(OutBuf()) + Record(table, cbsz, line))
    {
      ghost var buf, r := OutBuf(), InData();
      var inp := inDbp - inDbcnt;
      var maxlen := Min(cbsz, inDbcnt);
      var cnt := CopyRecord(inp, maxlen);
      line, j := r[..cnt], 0;
      assert inDb[inp..inp + cnt] == line;
      short := cnt == maxlen && inDbcnt < cbsz;
      if short {
        ok := true;
        assert OutBuf() == outDb[..outDbp + cnt][..outDbp] == buf;
        return;
      }
      ok, j := BlockRest(cnt, buf, line);
    }

    // The rest of the turn, for a line of which cnt bytes were copied.
    method BlockRest(cnt: nat, ghost buf: seq<Byte>, ghost line: seq<Byte>) returns (ok: bool, ghost j: nat)
      requires Fared(true)
      requires InBlock() && !intrunc && cnt <= inDbcnt && cnt <= cbsz && NL !in line && line == InData()[..cnt]
      requires (cnt < cbsz ==> cnt < inDbcnt && InData()[cnt] == NL) && inDbcnt > 0 && |buf| == outDbp
      requires outDb[..outDbp + cnt] == buf + Translate(table, line)
      modifies this`writes, this`calls, this`written, this`outDbp, this`outDbcnt, this`inDbcnt, this`intrunc, outDb
      ensures Fared(ok)
      ensures inDbcnt < old(inDbcnt) && LineTaken(cbsz, old(InData()), line, j, intrunc, InData())
      ensures ok ==> OutReady() && written + OutBuf() == old(written) + (buf + Record(table, cbsz, line))
      ensures !ok ==> written <= old(written) + (buf + Record(table, cbsz, line))
    {
      j := TakeLine(cnt);
      ghost var left, trunc := InData(), intrunc;
      ok := FinishRecord(buf, line, cnt);
      assert InData() == left;
    }

    // What will have been written once the rest of the input has come.
    ghost function Total(rest: seq<Byte>): seq<Byte>
      reads this, inDb, outDb
      requires InBlock()
    {
      BlockTotal(table, cbsz, written, OutBuf(), intrunc, InData(), rest)
    }

    // The start of block: a line that was cut in an earlier read is tossed first.
    method BlockResume(ghost rest: seq<Byte>)
      requires InBlock() && inDbp == inDbcnt && intrunc && inDbcnt == inDbrcnt
      modifies this`inDbcnt, this`intrunc, this`inDbp
      ensures InBlock() && Total(rest) == old(Total(rest)) && (intrunc ==> inDbcnt == 0)
    {
      ghost var data := InData();
      var left, found, j := Toss(0, inDbrcnt);
      assert data[..j] == inDb[0..j];
      TossTo(data, j, rest);
      if !found {
        inDbcnt := 0;
        inDbp := 0;
        assert InData() + rest == rest;
      } else {
        intrunc := false;
        inDbcnt := left;
        assert InData() == data[j + 1..];
      }
    }

    // One turn of the loop, with what it means for the whole run.
    method BlockTurn(ghost rest: seq<Byte>) returns (ok: bool, short: bool)
      requires Fared(true)
      requires InBlock() && inDbcnt > 0 && !intrunc
      modifies this`writes, this`calls, this`written, this`outDbp, this`outDbcnt, this`inDbcnt, this`intrunc, outDb
      ensures Fared(ok)
      ensures ok ==> InBlock() && Total(rest) == old(Total(rest)) && (intrunc ==> inDbcnt == 0)
      ensures short ==> ok && inDbcnt == old(inDbcnt) < cbsz && NL !in InData() && !intrunc
      ensures ok && !short ==> inDbcnt < old(inDbcnt)
      ensures !ok ==> written <= old(Total(rest))
    {
      ghost var w, buf, r := written, OutBuf(), InData();
      ghost var line, j;
      ok, short, line, j := BlockOne();
      if ok && !short {
        TurnOwes(table, cbsz, w, buf, r, written, OutBuf(), line, j, intrunc, InData(), rest);
      } else if !ok {
        TurnStops(table, cbsz, w, buf, r, line, j, intrunc, InData(), rest);
        PrefixTrans(written, w + (buf + Record(table, cbsz, line)), BlockTotal(table, cbsz, w, buf, false, r, rest));
      }
    }

    // Moves the input that is left to the start of the buffer.
    method Reassemble()
      requires inDbcnt <= inDbp <= inDb.Length
      modifies this`inDbp, inDb
      ensures inDbp == inDbcnt && InData() == old(InData()) == inDb[..inDbcnt]
    {
      if inDbcnt > 0 {
        Memmove(inDb, 0, inDb, inDbp - inDbcnt, inDbcnt);
      }
      inDbp := inDbcnt;
    }

    // The loop in block, up to a short line without its newline or the end of the input.
    method BlockLoop(ghost rest: seq<Byte>) returns (ok: bool)
      requires Fared(true)
      requires InBlock() && (intrunc ==> inDbcnt == 0)
      modifies this`writes, this`calls, this`written, this`outDbp, this`outDbcnt, this`inDbcnt, this`intrunc, outDb
      ensures Fared(ok)
      ensures ok ==> InBlock() && Total(rest) == old(Total(rest))
      ensures ok ==> inDbcnt < cbsz && NL !in InData() && (intrunc ==> inDbcnt == 0)
      ensures !ok ==> written <= old(Total(rest))
    {
      ghost var total := Total(rest);
      while inDbcnt > 0
        invariant Fared(true)
        invariant InBlock() && Total(rest) == total && (intrunc ==> inDbcnt == 0)
      {
        var short;
        ok, short := BlockTurn(rest);
        if !ok || short {
          return;
        }
      }
      ok := true;
    }

    method BlockEnd(ghost rest: seq<Byte>)
      requires InBlock() && inDbcnt < cbsz && NL !in InData() && (intrunc ==> inDbcnt == 0)
      modifies this`inDbp, inDb
      ensures Valid() && Total(rest) == old(Total(rest))
    {
      ghost var buf := OutBuf();
      Reassemble();
      assert OutBuf() == buf;
    }

    // block, called with a chunk of input just read.
    method BlockInput(ghost rest: seq<Byte>) returns (ok: bool)
      requires Fared(true)
      requires InBlock() && inDbp == inDbcnt && (intrunc ==> inDbcnt == inDbrcnt)
      modifies this`writes, this`calls, this`written, this`outDbp, this`outDbcnt
      modifies this`inDbp, this`inDbcnt, this`intrunc, inDb, outDb
      ensures Fared(ok)
      ensures ok ==> Valid() && Total(rest) == old(Total(rest))
      ensures !ok ==> written <= old(Total(rest))
    {
      if intrunc {
        BlockResume(rest);
      }
      ok := BlockLoop(rest);
      if ok {
        BlockEnd(rest);
      }
    }

    // Puts the data, filled up with blanks, after the output.
    method PadLast()
      requires inDb != outDb && InBlock() && inDbcnt < cbsz && outDbp + cbsz <= outDb.Length
      modifies outDb
      ensures outDb[..outDbp] == old(outDb[..outDbp])
      ensures outDb[outDbp..outDbp + cbsz] == InData() + Fill(Tr(table, SP), cbsz - inDbcnt)
    {
      var k := outDbp + inDbcnt;
      Memmove(outDb, outDbp, inDb, inDbp - inDbcnt, inDbcnt);
      ghost var front := outDb[..k];
      assert front[..outDbp] == outDb[..outDbp] && front[outDbp..] == outDb[outDbp..k] == InData();
      Memset(outDb, k, Tr(table, SP), cbsz - inDbcnt);
      assert outDb[..k] == front;
      ThreePieces(outDb[..], outDbp, k, outDbp + cbsz, front);
    }

    // The last, unterminated line; its record is not counted into outDbp.
    method BlockClose()
      requires Valid() && mode.Block?
      modifies this`outDbcnt, outDb
      ensures outDbcnt <= outDb.Length && written + OutBuf() == old(Total([]))
    {
      ghost var buf, data := OutBuf(), InData();
      BlockLeft(table, cbsz, written, buf, intrunc, data);
      if inDbcnt > 0 {
        PadLast();
        outDbcnt := outDbcnt + cbsz;
        assert OutBuf() == outDb[..outDbp] + outDb[outDbp..outDbp + cbsz];
        assert OutBuf() == buf + (data + Fill(Tr(table, SP), cbsz - inDbcnt));
      }
    }
  
    // ----- unblock: records to lines -----

    // How much of n bytes is left when the blanks at the end are dropped.
    method StripEnd(inp: nat, n: nat) returns (cnt: nat)
      requires inp + n <= inDb.Length
      ensures cnt <= n && inDb[inp..inp + cnt] == Strip(inDb[inp..inp + n])
    {
      cnt := n;
      while cnt > 0 && inDb[inp + cnt - 1] == SP
        invariant cnt <= n && Strip(inDb[inp..inp + cnt]) == Strip(inDb[inp..inp + n])
      {
        ghost var s := inDb[inp..inp + cnt];
        assert s[..|s| - 1] == inDb[inp..inp + cnt - 1];
        cnt := cnt - 1;
      }
      ghost var s := inDb[inp..inp + cnt];
      assert s != [] ==> s[|s| - 1] == inDb[inp + cnt - 1];
    }

    // A record without its blanks, and a newline, go into the output buffer.
    method PutLine(inp: nat, n: nat)
      requires inDb != outDb && inp + n <= inDb.Length && outDbp == outDbcnt && outDbp + n + 1 <= outDb.Length
      modifies this`outDbp, this`outDbcnt, outDb
      ensures outDbp == outDbcnt <= outDb.Length
      ensures OutBuf() == old(OutBuf()) + (Strip(inDb[inp..inp + n]) + [NL])
    {
      ghost var buf := OutBuf();
      var cnt := StripEnd(inp, n);
      if cnt > 0 {
        Memmove(outDb, outDbp, inDb, inp, cnt);
        outDbp := outDbp + cnt;
        outDbcnt := outDbcnt + cnt;
      }
      assert OutBuf() == buf + inDb[inp..inp + cnt];
      outDbcnt := outDbcnt + 1;
      outDb[outDbp] := NL;
      outDbp := outDbp + 1;
      assert OutBuf() == buf + inDb[inp..inp + cnt] + [NL];
    }

    ghost predicate InUnblock()
      reads this
    {
      Shape() && mode.Unblock? && OutReady() && inDbcnt <= inDbp <= inDb.Length
    }

    ghost function LinesTotal(rest: seq<Byte>): seq<Byte>
      reads this, inDb, outDb
      requires InUnblock()
    {
      UnblockTotal(cbsz, written, OutBuf(), InData(), rest)
    }

    // A line goes into the output buffer, and a full block of it is written.
    method PutAndWrite(inp: nat, n: nat) returns (ok: bool)
      requires Fared(true) && Shape() && mode.Unblock? && OutReady() && inp + n <= inDb.Length && n <= cbsz
      requires n + 1 <= cbsz + 1 && outDbp + n + 1 <= outDb.Length
      modifies this`writes, this`calls, this`written, this`outDbp, this`outDbcnt, outDb
      ensures Fared(ok)
      ensures ok ==> OutReady() && written + OutBuf() == old(written) + (old(OutBuf()) + (Strip(inDb[inp..inp + n]) + [NL]))
      ensures !ok ==> written <= old(written) + (old(OutBuf()) + (Strip(inDb[inp..inp + n]) + [NL]))
    {
      PutLine(inp, n);
      ok := true;
      if outDbcnt >= obs {
        ok := DdOut(false);
      }
    }

    lemma DataParts(n: nat)
      requires n <= inDbcnt <= inDbp <= inDb.Length
      ensures InData()[..n] == inDb[inDbp - inDbcnt..inDbp - inDbcnt + n]
      ensures InData()[n..] == inDb[inDbp - inDbcnt + n..inDbp]
    {
    }

    method UnblockOne(inp: nat, ghost rest: seq<Byte>) returns (ok: bool)
      requires Fared(true)
      requires InUnblock() && inDbcnt >= cbsz && inp == inDbp - inDbcnt
      modifies this`writes, this`calls, this`written, this`outDbp, this`outDbcnt, this`inDbcnt, outDb
      ensures Fared(ok)
      ensures ok ==> InUnblock() && inDbcnt == old(inDbcnt) - cbsz
      ensures ok ==> LinesTotal(rest) == old(LinesTotal(rest))
      ensures !ok ==> written <= old(LinesTotal(rest))
    {
      ghost var w, buf, data := written, OutBuf(), InData();
      ghost var line := Strip(data[..cbsz]) + [NL];
      DataParts(cbsz);
      ok := PutAndWrite(inp, cbsz);
      inDbcnt := inDbcnt - cbsz;
      UnblockStops(cbsz, w, buf, data, rest);
      if ok {
        assert InData() == data[cbsz..];
        UnblockOwes(cbsz, w, buf, data, written, OutBuf(), rest);
      } else {
        PrefixTrans(written, w + (buf + line), UnblockTotal(cbsz, w, buf, data, rest));
      }
    }

    // Translates the new bytes, from the last to the first.
    method TranslateBack(ghost data: seq<Byte>, ghost chunk: seq<Byte>)
      requires inDbp == inDbcnt <= inDb.Length && inDbrcnt == |chunk| && inDb[..inDbcnt] == data + chunk
      modifies inDb
      ensures inDb[..inDbcnt] == data + Translate(table, chunk)
    {
      if table.NoTable? {
        assert Translate(table, chunk) == chunk;
        return;
      }
      ghost var was := inDb[..];
      assert forall i | 0 <= i < inDbcnt :: was[i] == (data + chunk)[i];
      var cnt, inp := inDbrcnt, inDbp;
      while cnt > 0
        invariant 0 <= cnt <= inDbrcnt && inp == inDbp - inDbrcnt + cnt
        invariant forall i | 0 <= i < inDb.Length :: inDb[i] == if inp <= i < inDbp then Tr(table, was[i]) else was[i]
      {
        cnt := cnt - 1;
        inp := inp - 1;
        inDb[inp] := table.at(inDb[inp]);
      }
    }

    // The loop over the records.
    method UnblockRecords(ghost rest: seq<Byte>) returns (ok: bool)
      requires Fared(true)
      requires InUnblock() && inDbp == inDbcnt
      modifies this`writes, this`calls, this`written, this`outDbp, this`outDbcnt, this`inDbcnt, this`inDbp, inDb, outDb
      ensures Fared(ok)
      ensures ok ==> Valid() && LinesTotal(rest) == old(LinesTotal(rest))
      ensures !ok ==> written <= old(LinesTotal(rest))
    {
      ghost var total := LinesTotal(rest);
      var inp := 0;
      while inDbcnt >= cbsz
        invariant Fared(true)
        invariant InUnblock() && inp == inDbp - inDbcnt && LinesTotal(rest) == total
      {
        ok := UnblockOne(inp, rest);
        if !ok {
          return;
        }
        inp := inp + cbsz;
      }
      ok := true;
      UnblockEnd(rest);
    }

    // unblock, called with a chunk of input just read: data is what was left before it.
    method UnblockInput(ghost data: seq<Byte>, ghost chunk: seq<Byte>, ghost rest: seq<Byte>) returns (ok: bool)
      requires Fared(true)
      requires InUnblock() && inDbp == inDbcnt && inDbrcnt == |chunk| && inDb[..inDbcnt] == data + chunk
      modifies this`writes, this`calls, this`written, this`outDbp, this`outDbcnt, this`inDbcnt, this`inDbp, inDb, outDb
      ensures Fared(ok)
      ensures var total := old(UnblockTotal(cbsz, written, OutBuf(), data, Translate(table, chunk + rest)));
        if ok then Valid() && LinesTotal(Translate(table, rest)) == total else written <= total
    {
      UnblockRead(table, cbsz, written, OutBuf(), data, chunk, rest);
      ghost var buf := OutBuf();
      TranslateBack(data, chunk);
      assert OutBuf() == buf && InData() == inDb[..inDbcnt];
      ok := UnblockRecords(Translate(table, rest));
    }

    method UnblockEnd(ghost rest: seq<Byte>)
      requires InUnblock() && inDbcnt < cbsz
      modifies this`inDbp, inDb
      ensures Valid() && LinesTotal(rest) == old(LinesTotal(rest))
    {
      ghost var buf := OutBuf();
      Reassemble();
      assert OutBuf() == buf;
    }

    // A short record at the end of the input.
    method UnblockClose()
      requires Valid() && mode.Unblock?
      modifies this`outDbp, this`outDbcnt, outDb
      ensures outDbcnt <= outDb.Length && written + OutBuf() == old(LinesTotal([]))
    {
      UnblockLeft(cbsz, written, OutBuf(), InData());
      if inDbcnt > 0 {
        assert InData() == inDb[0..inDbcnt];
        PutLine(0, inDbcnt);
      }
    }
  
    // ----- the whole copy -----

    // Everything written in the end, if `rest` is the input still to come.
    ghost function Owed(rest: seq<Byte>): seq<Byte>
      reads this, inDb, outDb
      requires Valid()
    {
      match mode
      case Default => written + OutBuf() + Translate(table, rest)
      case Block => Total(rest)
      case Unblock => LinesTotal(Translate(table, rest))
    }

    constructor (mode: Mode, table: Table, cbsz: nat, ibs: nat, obs: nat,
                 noerror: bool, tape: bool, limit: nat, writes: seq<int>)
      requires ibs > 0 && obs > 0 && (!mode.Default? ==> cbsz > 0)
      ensures Valid() && fresh(inDb) && fresh(outDb)
      ensures written == [] && inBlocks == 0
      ensures this.mode == mode && this.table == table && this.cbsz == cbsz && this.ibs == ibs && this.obs == obs
      ensures this.noerror == noerror && this.limit == limit
      ensures inDbcnt == outDbcnt == 0 && !intrunc && Fared(true) && this.tape == tape && fates == writes
    {
      this.mode, this.table, this.cbsz, this.ibs, this.obs := mode, table, cbsz, ibs, obs;
      this.noerror, this.tape, this.limit := noerror, tape, limit;
      this.fates, this.writes, this.calls := writes, writes, [];
      if mode.Default? {
        var db := new Byte[obs + ibs - 1];
        inDb, outDb := db, db;
      } else {
        inDb := new Byte[Max(ibs, cbsz) + cbsz];
        outDb := new Byte[obs + cbsz];
      }
      inDbp, inDbcnt, inDbrcnt, outDbp, outDbcnt := 0, 0, 0, 0, 0;
      intrunc, inBlocks, written := false, 0, [];
    }

    // At the start everything is still to come.
    lemma OwedAtStart(s: seq<Byte>)
      requires Valid() && written == [] && inDbcnt == outDbcnt == 0 && !intrunc
      ensures Owed(s) == Converted(mode, table, cbsz, s)
    {
      assert OutBuf() == [] && InData() == [] && [] + s == s && [] + Translate(table, s) == Translate(table, s);
      assert [] + [] + Converted(mode, table, cbsz, s) == Converted(mode, table, cbsz, s);
    }

    method FeedDefault(chunk: seq<Byte>, ghost rest: seq<Byte>) returns (ok: bool)
      requires Fared(true)
      requires Valid() && mode.Default? && |chunk| <= ibs
      modifies this`writes, this`calls, this`written, this`outDbp, this`outDbcnt
      modifies this`inDbp, this`inDbcnt, this`inDbrcnt, this`inBlocks, inDb
      ensures Fared(ok)
      ensures inBlocks == old(inBlocks) + 1
      ensures ok ==> Valid()
      ensures ok ==> written + OutBuf() + Translate(table, rest) ==
                     old(written + OutBuf()) + Translate(table, chunk + rest)
      ensures !ok ==> written <= old(written + OutBuf()) + Translate(table, chunk + rest)
    {
      ghost var w, buf := written, OutBuf();
      DefaultRead(table, w, buf, chunk, rest);
      TakeIn(chunk);
      Behind(inDb[..inDbcnt], buf, chunk);
      assert inDb[inDbcnt - inDbrcnt..inDbcnt] == chunk;
      ok := Def();
      if !ok {
        PrefixTrans(written, w + buf + Translate(table, chunk), w + buf + Translate(table, chunk + rest));
      }
    }

    method FeedBlock(chunk: seq<Byte>, ghost rest: seq<Byte>) returns (ok: bool)
      requires Fared(true)
      requires Valid() && mode.Block? && |chunk| <= ibs
      modifies this`writes, this`calls, this`written, this`outDbp, this`outDbcnt
      modifies this`inDbp, this`inDbcnt, this`inDbrcnt, this`inBlocks, this`intrunc, inDb, outDb
      ensures Fared(ok)
      ensures inBlocks == old(inBlocks) + 1
      ensures ok ==> Valid() && Total(rest) == old(Total(chunk + rest))
      ensures !ok ==> written <= old(Total(chunk + rest))
    {
      ghost var buf, data := OutBuf(), InData();
      TakeIn(chunk);
      assert OutBuf() == buf && InData() == data + chunk;
      assert data + chunk + rest == data + (chunk + rest);
      ok := BlockInput(rest);
    }

    method FeedUnblock(chunk: seq<Byte>, ghost rest: seq<Byte>) returns (ok: bool)
      requires Fared(true)
      requires Valid() && mode.Unblock? && |chunk| <= ibs
      modifies this`writes, this`calls, this`written, this`outDbp, this`outDbcnt
      modifies this`inDbp, this`inDbcnt, this`inDbrcnt, this`inBlocks, inDb, outDb
      ensures Fared(ok)
      ensures inBlocks == old(inBlocks) + 1
      ensures var total := old(LinesTotal(Translate(table, chunk + rest)));
        if ok then Valid() && LinesTotal(Translate(table, rest)) == total else written <= total
    {
      ghost var buf, data := OutBuf(), InData();
      TakeIn(chunk);
      assert OutBuf() == buf && inDb[..inDbcnt] == data + chunk;
      ok := UnblockInput(data, chunk, rest);
    }

    // One chunk is read and converted.
    method Feed(chunk: seq<Byte>, ghost rest: seq<Byte>) returns (ok: bool)
      requires Fared(true)
      requires Valid() && |chunk| <= ibs
      modifies this`writes, this`calls, this`written, this`outDbp, this`outDbcnt
      modifies this`inDbp, this`inDbcnt, this`inDbrcnt, this`inBlocks, this`intrunc, inDb, outDb
      ensures Fared(ok)
      ensures inBlocks == old(inBlocks) + 1
      ensures ok ==> Valid() && Owed(rest) == old(Owed(chunk + rest))
      ensures !ok ==> written <= old(Owed(chunk + rest))
    {
      match mode {
        case Default => ok := FeedDefault(chunk, rest);
        case Block => ok := FeedBlock(chunk, rest);
        case Unblock => ok := FeedUnblock(chunk, rest);
      }
    }

    lemma WrittenIsPrefix(rest: seq<Byte>)
      requires Valid()
      ensures written <= Owed(rest)
    {
    }

    // What the reads from here on amount to.
    ghost function Coming(events: seq<Event>): Got
      reads this
    {
      Gather(events, inBlocks, limit, noerror)
    }

    method ReadData(events: seq<Event>, ghost after: seq<Byte>) returns (ok: bool)
      requires Fared(true)
      requires Valid() && events != [] && events[0].Data? && 0 < |events[0].bytes| <= ibs
      requires limit == 0 || inBlocks < limit
      modifies this, inDb, outDb
      ensures Fared(ok)
      ensures ok ==> Valid() && Coming(events[1..]).failed == old(Coming(events)).failed
      ensures ok ==> Coming(events[1..]).blocks == old(Coming(events)).blocks
      ensures ok ==> Owed(Coming(events[1..]).bytes + after) == old(Owed(Coming(events).bytes + after))
      ensures !ok ==> written <= old(Owed(Coming(events).bytes + after))
    {
      var chunk := events[0].bytes;
      ghost var all, left := GatherData(events, inBlocks, limit, noerror, after);
      ok := FeedPart(chunk, left.bytes + after, all.bytes + after);
      assert Coming(events[1..]) == left;
    }

    method FeedPart(chunk: seq<Byte>, ghost rest: seq<Byte>, ghost whole: seq<Byte>) returns (ok: bool)
      requires Fared(true)
      requires Valid() && |chunk| <= ibs && whole == chunk + rest
      modifies this`writes, this`calls, this`written, this`outDbp, this`outDbcnt
      modifies this`inDbp, this`inDbcnt, this`inDbrcnt, this`inBlocks, this`intrunc, inDb, outDb
      ensures Fared(ok)
      ensures inBlocks == old(inBlocks) + 1
      ensures ok ==> Valid() && Owed(rest) == old(Owed(whole))
      ensures !ok ==> written <= old(Owed(whole))
    {
      ok := Feed(chunk, rest);
    }

    // One turn of the read loop.
    method ReadOne(events: seq<Event>, ghost after: seq<Byte>) returns (ok: bool, stop: bool)
      requires Fared(true)
      requires Valid() && events != [] && (events[0].Data? ==> |events[0].bytes| <= ibs)
      modifies this, inDb, outDb
      ensures Fared(ok) || (!ok && Fared(true) && old(Coming(events)).failed)
      ensures ok && !stop ==> Valid() && Coming(events[1..]).failed == old(Coming(events)).failed
      ensures ok && !stop ==> Coming(events[1..]).blocks == old(Coming(events)).blocks
      ensures ok && !stop ==> Owed(Coming(events[1..]).bytes + after) == old(Owed(Coming(events).bytes + after))
      ensures ok && stop ==> Valid() && old(Coming(events)) == Got([], inBlocks, false)
      ensures ok && stop ==> Owed(after) == old(Owed(after))
      ensures !ok ==> written <= old(Owed(Coming(events).bytes + after))
    {
      WrittenIsPrefix(Coming(events).bytes + after);
      if limit > 0 && inBlocks >= limit {
        return true, true;
      }
      match events[0]
      case Failed =>
        return noerror, false;
      case Data(chunk) =>
        if chunk == [] {
          return true, true;
        }
        ok := ReadData(events, after);
        stop := false;
    }

    // The read loop.  A failed read ends the program unless noerror is set.
    method DdIn(events: seq<Event>, ghost after: seq<Byte>) returns (ok: bool)
      requires Fared(true)
      requires Valid() && forall e | e in events :: e.Data? ==> |e.bytes| <= ibs
      modifies this, inDb, outDb
      ensures Fared(ok) || (!ok && Fared(true) && old(Coming(events)).failed)
      ensures ok ==> Valid() && !old(Coming(events)).failed && inBlocks == old(Coming(events)).blocks
      ensures ok ==> Owed(after) == old(Owed(Coming(events).bytes + after))
      ensures !ok ==> written <= old(Owed(Coming(events).bytes + after))
    {
      ghost var g := Coming(events);
      ghost var total := Owed(g.bytes + after);
      assert [] + after == after;
      var left := events;
      while left != []
        invariant Valid() && forall e | e in left :: e.Data? ==> |e.bytes| <= ibs
        invariant Fared(true)
        invariant Coming(left).failed == g.failed && Coming(left).blocks == g.blocks
        invariant Owed(Coming(left).bytes + after) == total
        decreases |left|
      {
        var stop;
        ok, stop := ReadOne(left, after);
        if !ok || stop {
          return;
        }
        left := left[1..];
      }
      ok := true;
    }

    // The rest of the conversion, and everything left in the buffer is forced out.
    method DdClose() returns (ok: bool)
      requires Fared(true)
      requires Valid()
      modifies this, outDb
      ensures Fared(ok)
      ensures ok ==> written == old(Owed([]))
      ensures !ok ==> written <= old(Owed([]))
    {
      ghost var total := Owed([]);
      match mode {
        case Default =>
          if inDbcnt > 0 {
            outDbcnt := inDbcnt;
          }
        case Block => BlockClose();
        case Unblock => UnblockClose();
      }
      assert written + OutBuf() == total;
      ok := true;
      if outDbcnt > 0 {
        ok := DdOut(true);
      }
      assert ok ==> OutBuf() == [];
    }

    // dd: whatever the sizes of the reads and the fates of the writes, a copy that
    // comes to its end has written the conversion of its input, and one that does
    // not has written the beginning of it.  It comes to its end if and only if no read
    // failed that ends it and every write was good; so it does if none fails.
    method Copy(events: seq<Event>) returns (ok: bool)
      requires Ready(this) && Readable(this, events)
      modifies this, inDb, outDb
      ensures var g := Gather(events, 0, limit, noerror);
        var out := Converted(mode, table, cbsz, g.bytes);
        Traced() && (ok <==> !g.failed && AllGood()) && (if ok then written == out else written <= out)
      ensures Writable() && !Gather(events, 0, limit, noerror).failed ==> ok
    {
      ghost var bytes := Gather(events, 0, limit, noerror).bytes;
      assert bytes + [] == bytes;
      OwedAtStart(bytes);
      ok := DdIn(events, []);
      if ok {
        ok := DdClose();
      }
      if Writable() {
        WritableIsGood();
      }
    }
  }

  lemma ThreePieces(s: seq<Byte>, a: nat, k: nat, e: nat, front: seq<Byte>)
    requires a <= k <= e <= |s| && s[..k] == front
    ensures s[..a] == front[..a] && s[a..e] == front[a..] + s[k..e]
  {
  }

  function Converted(mode: Mode, t: Table, cbsz: nat, s: seq<Byte>): seq<Byte>
    requires mode.Unblock? ==> cbsz > 0
  {
    match mode
    case Default => Translate(t, s)
    case Block => Blocked(t, cbsz, s)
    case Unblock => Unblocked(cbsz, Translate(t, s))
  }

  // The first chunk, and then the rest.
  lemma GatherData(events: seq<Event>, blocks: nat, limit: nat, noerror: bool, after: seq<Byte>) returns (all: Got, left: Got)
    requires events != [] && events[0].Data? && events[0].bytes != [] && (limit == 0 || blocks < limit)
    ensures all == Gather(events, blocks, limit, noerror) && left == Gather(events[1..], blocks + 1, limit, noerror)
    ensures all.blocks == left.blocks && all.failed == left.failed
    ensures all.bytes + after == events[0].bytes + (left.bytes + after)
  {
    all, left := Gather(events, blocks, limit, noerror), Gather(events[1..], blocks + 1, limit, noerror);
    assert events[0].bytes + left.bytes + after == events[0].bytes + (left.bytes + after);
  }

  datatype Got = Got(bytes: seq<Byte>, blocks: nat, failed: bool)

  // The input that a file's reads amount to: up to its end, or to the limit on blocks.
  function Gather(events: seq<Event>, blocks: nat, limit: nat, noerror: bool): Got {
    if events == [] || (limit > 0 && blocks >= limit) then Got([], blocks, false)
    else if events[0].Failed? then
      if noerror then Gather(events[1..], blocks, limit, noerror) else Got([], blocks, true)
    else if events[0].bytes == [] then Got([], blocks, false)
    else
      var g := Gather(events[1..], blocks + 1, limit, noerror);
      g.(bytes := events[0].bytes + g.bytes)
  }

  // The bytes some reads delivered, and how many of them delivered any.
  function BytesOf(events: seq<Event>): seq<Byte> {
    if events == [] then [] else (if events[0].Data? then events[0].bytes else []) + BytesOf(events[1..])
  }

  function BlocksOf(events: seq<Event>): nat {
    if events == [] then 0 else (if events[0].Data? then 1 else 0) + BlocksOf(events[1..])
  }

  // One read more, in front.
  lemma ReadFirst(events: seq<Event>, n: nat)
    requires n < |events|
    ensures var e, first := events[0], events[..n + 1];
      BytesOf(first) == (if e.Data? then e.bytes else []) + BytesOf(events[1..][..n]) &&
      BlocksOf(first) == (if e.Data? then 1 else 0) + BlocksOf(events[1..][..n])
  {
    assert events[..n + 1][1..] == events[1..][..n];
  }

  // After such a read there is another.
  predicate GoesOn(e: Event, noerror: bool) {
    if e.Failed? then noerror else e.bytes != []
  }

  // The n reads after which there is another, and why it is not made or the last: the
  // limit on blocks, the end of the file, or a failure, which ends the copy.
  lemma {:induction false} GatherStops(events: seq<Event>, blocks: nat, limit: nat, noerror: bool) returns (n: nat)
    ensures n <= |events| && forall i | 0 <= i < n :: GoesOn(events[i], noerror)
    ensures limit > 0 ==> forall i | 0 <= i < n :: blocks + BlocksOf(events[..i]) < limit
    ensures var g := Gather(events, blocks, limit, noerror);
      var full := 0 < limit <= g.blocks;
      g.bytes == BytesOf(events[..n]) && g.blocks == blocks + BlocksOf(events[..n]) &&
      (full || n == |events| || !GoesOn(events[n], noerror)) &&
      (g.failed <==> !full && n < |events| && events[n].Failed?)
  {
    n := 0;
    if events != [] && !(0 < limit <= blocks) && GoesOn(events[0], noerror) {
      var m := GatherStops(events[1..], blocks + (if events[0].Data? then 1 else 0), limit, noerror);
      n := m + 1;
      ReadFirst(events, m);
      forall i | 0 < i < n
        ensures GoesOn(events[i], noerror) && (limit > 0 ==> blocks + BlocksOf(events[..i]) < limit)
      {
        assert events[i] == events[1..][i - 1];
        ReadFirst(events, i - 1);
      }
    }
  }

  // A copier that has not begun.
  ghost predicate Ready(c: Copier)
    reads c, c.inDb
  {
    c.Valid() && c.Fared(true) && c.written == [] && c.inBlocks == 0 && c.inDbcnt == c.outDbcnt == 0 && !c.intrunc
  }

  ghost predicate Readable(c: Copier, events: seq<Event>) {
    forall e | e in events :: e.Data? ==> |e.bytes| <= c.ibs
  }

  // A read fails that ends the copy.
  predicate Fails(c: Copier, events: seq<Event>) {
    Gather(events, 0, c.limit, c.noerror).failed
  }

  // One copy blocks a text and another, which reads what the first wrote, unblocks it,
  // each cutting its input and output in its own way: the text comes back if and only if
  // it is tidy.
  method ThereAndBack(a: Copier, b: Copier, there: seq<Event>, back: seq<Event>) returns (ok: bool)
    requires Ready(a) && a.mode.Block? && a.table.NoTable? && Readable(a, there)
    requires Ready(b) && b.mode.Unblock? && b.table.NoTable? && b.cbsz == a.cbsz && Readable(b, back)
    requires a != b && a.inDb != b.inDb && a.inDb != b.outDb && a.outDb != b.inDb && a.outDb != b.outDb
    requires Gather(back, 0, b.limit, b.noerror).bytes
          == Blocked(NoTable, a.cbsz, Gather(there, 0, a.limit, a.noerror).bytes)
    modifies a, a.inDb, a.outDb, b, b.inDb, b.outDb
    ensures var text := Gather(there, 0, a.limit, a.noerror).bytes;
      ok ==> (b.written == text <==> Tidy(a.cbsz, text))
    ensures a.Writable() && b.Writable() && !Fails(a, there) && !Fails(b, back) ==> ok
  {
    ghost var text := Gather(there, 0, a.limit, a.noerror).bytes;
    ok := a.Copy(there);
    if ok {
      ok := b.Copy(back);
      BlockUnblock(a.cbsz, text);
      assert Translate(NoTable, Blocked(NoTable, a.cbsz, text)) == Blocked(NoTable, a.cbsz, text);
    }
  }
}
