/** src/ftohex.c: an image or hunks to Intel HEX text, one record of at most 16 bytes at a
    time, with a running checksum in an unsigned char. */
module Ftohex {
  import opened Results
  import opened Files
  import opened RasFormat
  import opened IntelHex

  const BUFSIZE := 256

  class TextFile {
    var text: string

    constructor ()
      ensures text == ""
    {
      text := "";
    }

    method Puts(s: string)
      modifies this
      ensures text == old(text) + s
    {
      text := text + s;
    }
  }

  lemma {:induction false} HexBytesAppend(a: seq<byte>, b: seq<byte>)
    ensures HexBytes(a + b) == HexBytes(a) + HexBytes(b)
  {
    if a == [] {
      assert a + b == b;
    } else {
      assert (a + b)[1..] == a[1..] + b;
      HexBytesAppend(a[1..], b);
    }
  }

  /** puth of one more byte continues the bytes written so far. */
  method Puth(c: byte, output: TextFile, ghost before: string, ghost done: seq<byte>)
    requires output.text == before + HexBytes(done)
    modifies output
    ensures output.text == before + HexBytes(done + [c])
  {
    output.Puts(HexByte(c));
    HexBytesAppend(done, [c]);
    assert [c][1..] == [] && HexBytes([c]) == HexByte(c) + "";
  }

  method WriteHead(output: TextFile, org: nat, idx: byte, ghost before: string) returns (chk: byte)
    requires output.text == before
    modifies output
    ensures output.text == before + HexBytes(Head(org, idx)) && chk == Sum(Head(org, idx)) % 256
  {
    assert before + HexBytes([]) == before;
    Puth(idx, output, before, []);
    assert [] + [idx] == [idx];
    Puth(Hi(org), output, before, [idx]);
    assert [idx] + [Hi(org)] == [idx, Hi(org)];
    Puth(Lo(org), output, before, [idx, Hi(org)]);
    assert [idx, Hi(org)] + [Lo(org)] == [idx, Hi(org), Lo(org)];
    Puth(0, output, before, [idx, Hi(org), Lo(org)]);
    assert [idx, Hi(org), Lo(org)] + [0] == Head(org, idx);
    chk := (idx + org / 256 + org % 256) % 256;
    HeadSum(idx, org);
  }

  /** puth of a data byte, which is added to the checksum. */
  method PutData(c: byte, output: TextFile, sum: byte, ghost before: string, ghost done: seq<byte>) returns (chk: byte)
    requires output.text == before + HexBytes(done) && sum == Sum(done) % 256
    modifies output
    ensures output.text == before + HexBytes(done + [c]) && chk == Sum(done + [c]) % 256
  {
    Puth(c, output, before, done);
    SumAppend(done, [c]);
    assert [c][1..] == [];
    chk := (sum + c) % 256;
  }

  method WriteBytes(output: TextFile, buf: array<byte>, idx: nat, sum: byte, ghost before: string, ghost head: seq<byte>)
    returns (chk: byte)
    requires idx <= buf.Length && output.text == before + HexBytes(head) && sum == Sum(head) % 256
    modifies output
    ensures output.text == before + HexBytes(head + buf[..idx]) && chk == Sum(head + buf[..idx]) % 256
  {
    chk := sum;
    ghost var done := head;
    for i := 0 to idx
      invariant done == head + buf[..i]
      invariant output.text == before + HexBytes(done) && chk == Sum(done) % 256
    {
      chk := PutData(buf[i], output, chk, before, done);
      done := done + [buf[i]];
    }
  }

  /** Negating the running checksum is negating the whole sum. */
  lemma LineText(text: string, bs: seq<byte>, chk: byte)
    requires chk == Sum(bs) % 256
    ensures text + ":" + HexBytes(bs + [Checksum(chk)]) + CRLF == text + Line(bs)
  {
    assert Checksum(chk) == Checksum(Sum(bs));
  }

  /** The body of the record loop: idx bytes become one data line. */
  method WriteRecord(input: File, output: TextFile, buf: array<byte>, org: nat, idx: nat)
    requires buf.Length == BUFSIZE && 0 < idx <= PERLINE && input.pos <= |input.data|
    modifies input`pos, input`eof, output, buf
    ensures old(input.pos) <= input.pos <= |input.data|
    ensures old(input.pos) + idx <= |input.data| ==>
      && input.pos == old(input.pos) + idx && input.eof == old(input.eof)
      && output.text == old(output.text) + DataLine(org, input.data[old(input.pos)..input.pos])
  {
    ghost var got := Available(input.data, input.pos, idx);
    input.Read(buf, idx);
    assert |got| == idx ==> buf[..idx] == buf[..][..idx] == got;
    ghost var head := Head(org, idx);
    output.Puts(":");
    ghost var before := output.text;
    var chk := WriteHead(output, org, idx, before);
    chk := WriteBytes(output, buf, idx, chk, before, head);
    Puth(Checksum(chk), output, before, head + buf[..idx]);
    output.Puts(CRLF);
    LineText(old(output.text), head + buf[..idx], chk);
    if |got| == idx {
      assert got == input.data[old(input.pos)..input.pos];
      assert output.text == old(output.text) + DataLine(org, got);
    }
  }

  lemma HeadSum(idx: byte, org: nat)
    ensures (idx + org / 256 + org % 256) % 256 == Sum(Head(org, idx)) % 256
  {
    var s: seq<byte> := [idx, Hi(org), Lo(org), 0];
    assert s[1..] == [Hi(org), Lo(org), 0] && s[1..][1..] == [Lo(org), 0] && s[1..][1..][1..] == [0];
    assert s[1..][1..][1..][1..] == [];
    assert Sum([0]) == 0 && Sum([Lo(org), 0]) == Lo(org);
    assert Sum([Hi(org), Lo(org), 0]) == Hi(org) + Lo(org);
    assert Sum(s) == idx + Hi(org) + Lo(org);
    DropMultiple(idx + Lo(org), org / 256);
  }

  lemma DropMultiple(a: nat, q: nat)
    ensures (a + q) % 256 == (a + q % 256) % 256
  {}

  /** One turn of the record loop: what is written, continued with the lines still due (if the
      file is not cut short), is unchanged. */
  method RecordStep(input: File, output: TextFile, buf: array<byte>, org: nat, left: nat, ghost end: nat, ghost all: string)
    returns (org': nat, left': nat)
    requires buf.Length == BUFSIZE && input.pos <= |input.data| && 0 < left
    requires end <= |input.data| ==> input.pos + left == end && output.text + DataLines(org, input.data[input.pos..end]) == all
    modifies input`pos, input`eof, output, buf
    ensures old(input.pos) <= input.pos <= |input.data| && left' < left
    ensures end <= |input.data| ==> input.pos + left' == end && input.eof == old(input.eof)
    ensures end <= |input.data| ==> output.text + DataLines(org', input.data[input.pos..end]) == all
  {
    var idx := if PERLINE < left then PERLINE else left;
    ghost var at, text := input.pos, output.text;
    WriteRecord(input, output, buf, org, idx);
    org', left' := (org + idx) % 0x1_0000_0000, left - idx;
    if end <= |input.data| {
      LinesLeft(text, output.text, org, input.data, at, input.pos, end);
    }
  }

  lemma LinesLeft(before: string, after: string, org: nat, data: seq<byte>, at: nat, mid: nat, end: nat)
    requires at < mid <= end <= |data| && mid - at == if PERLINE < end - at then PERLINE else end - at
    requires after == before + DataLine(org, data[at..mid])
    ensures after + DataLines((org + (mid - at)) % 0x1_0000_0000, data[mid..end]) == before + DataLines(org, data[at..end])
  {
    var (part, k) := (data[at..end], mid - at);
    SliceOfSlice(data, at, end, k);
    assert part[..k] == data[at..mid] && part[k..] == data[mid..end];
    ContinueLines(before, after, org, part, k);
  }

  /** The record loop: len bytes become their data lines. */
  method WriteData(input: File, output: TextFile, buf: array<byte>, start: nat, len: nat)
    requires buf.Length == BUFSIZE && input.pos <= |input.data|
    modifies input`pos, input`eof, output, buf
    ensures old(input.pos) <= input.pos <= |input.data|
    ensures len == 0 ==> output.text == old(output.text)
    ensures old(input.pos) + len <= |input.data| ==>
      && input.pos == old(input.pos) + len && input.eof == old(input.eof)
      && output.text == old(output.text) + DataLines(start, input.data[old(input.pos)..input.pos])
  {
    var org, left := start, len;
    ghost var end := input.pos + len;
    ghost var whole := end <= |input.data|;
    ghost var all := if whole then output.text + DataLines(start, input.data[input.pos..end]) else "";
    while 0 < left
      invariant 0 <= left <= len && 0 <= org && old(input.pos) <= input.pos <= |input.data|
      invariant len == 0 ==> output.text == old(output.text)
      invariant whole ==> input.pos + left == end && input.eof == old(input.eof)
      invariant whole ==> output.text + DataLines(org, input.data[input.pos..end]) == all
    {
      org, left := RecordStep(input, output, buf, org, left, end, all);
    }
  }

  lemma SliceOfSlice(s: seq<byte>, from: nat, to: nat, k: nat)
    requires from + k <= to <= |s|
    ensures s[from..to][..k] == s[from..from + k] && s[from..to][k..] == s[from + k..to]
  {}

  lemma ContinueLines(before: string, after: string, org: nat, data: seq<byte>, idx: nat)
    requires 0 < |data| && idx == if PERLINE < |data| then PERLINE else |data|
    requires after == before + DataLine(org, data[..idx])
    ensures after + DataLines((org + idx) % 0x1_0000_0000, data[idx..]) == before + DataLines(org, data)
  {
    Regroup(before, DataLine(org, data[..idx]), DataLines((org + idx) % 0x1_0000_0000, data[idx..]));
  }

  /** The origin and data of a file of format 1 or 3. */
  function PlainInput(format: int, file: seq<byte>): (nat, seq<byte>) {
    if format == 3 then (0, file) else if |file| < 2 then (0, []) else (Word(file[0], file[1]), file[2..])
  }

  /** Its hex text. */
  function PlainText(format: int, file: seq<byte>): string {
    DataLines(PlainInput(format, file).0, PlainInput(format, file).1) + END_RECORD
  }

  lemma PlainLoads(org: nat, data: seq<byte>)
    ensures Load(DataLines(org, data) + END_RECORD) == Some(Loaded(org, data))
  {
    EndRecordBack();
    DataLinesLoad(org, data, END_RECORD);
    assert Loaded(org, data) + [] == Loaded(org, data);
  }

  /** convert, for formats 1 (origin, then data) and 3 (data only). */
  method ConvertPlain(format: int, input: File, output: TextFile)
    requires format == 1 || format == 3
    requires input.pos == 0 && output.text == ""
    modifies input`pos, input`eof, output
    ensures output.text == PlainText(format, input.data)
    ensures Load(output.text) == Some(Loaded(PlainInput(format, input.data).0, PlainInput(format, input.data).1))
  {
    var buf := new byte[BUFSIZE](_ => 0);
    var org := 0;
    if format == 1 {
      org := input.Getwlh();
    }
    var begin := input.pos;
    input.SeekEnd();
    var len := input.pos - begin;
    input.Seek(begin);
    ghost var data := PlainInput(format, input.data).1;
    assert org == PlainInput(format, input.data).0 && data == input.data[begin..begin + len];
    WriteData(input, output, buf, org, len);
    ghost var lines := DataLines(org, data);
    assert output.text == lines;
    output.Puts(END_RECORD);
    PlainLoads(org, data);
  }

  /** The header of the first of these hunks has been read. */
  ghost predicate Reading(data: seq<byte>, pos: nat, hs: seq<Hunk>, org: nat, len: nat) {
    && hs != [] && org == hs[0].org && len == |hs[0].data| && pos + len <= |data|
    && data[pos..pos + len] == hs[0].data && Parse(data[pos + len..]) == Some(hs[1..])
  }

  lemma HeaderRead(data: seq<byte>, pos: nat, hs: seq<Hunk>)
    requires pos <= |data| && Parse(data[pos..]) == Some(hs)
    ensures hs == [] <==> pos == |data|
    ensures hs != [] ==>
      && pos + 4 <= |data|
      && Reading(data, pos + 4, hs, Word(data[pos], data[pos + 1]), Word(data[pos + 2], data[pos + 3]))
  {
    NextHunk(data, pos, hs);
  }

  /** The data of one hunk. */
  method DataStep(input: File, output: TextFile, buf: array<byte>, org: nat, len: nat, ghost hs: seq<Hunk>, ghost all: string)
    requires buf.Length == BUFSIZE && input.pos <= |input.data|
    modifies input`pos, input`eof, output, buf
    ensures old(input.pos) <= input.pos <= |input.data|
    ensures len == 0 ==> output.text == old(output.text)
    ensures old(!input.eof && Reading(input.data, input.pos, hs, org, len) && output.text + HunkLines(hs) == all) ==>
      !input.eof && Parse(input.data[input.pos..]) == Some(hs[1..]) && output.text + HunkLines(hs[1..]) == all
  {
    ghost var text := output.text;
    ghost var reading := Reading(input.data, input.pos, hs, org, len);
    WriteData(input, output, buf, org, len);
    if reading {
      HunkDone(text, output.text, org, hs);
    }
  }

  lemma HunkDone(before: string, after: string, org: nat, hs: seq<Hunk>)
    requires hs != [] && org == hs[0].org && after == before + DataLines(org, hs[0].data)
    ensures after + HunkLines(hs[1..]) == before + HunkLines(hs)
  {
    Regroup(before, DataLines(org, hs[0].data), HunkLines(hs[1..]));
  }

  /** The header at the start of a file, read without looking for its end. */
  method FirstHeader(input: File, ghost hs: seq<Hunk>) returns (org: nat, len: nat)
    requires input.pos == 0 && !input.eof
    modifies input`pos, input`eof
    ensures input.pos <= |input.data|
    ensures input.data == [] ==> len == 0
    ensures Parse(input.data) == Some(hs) && hs != [] ==> !input.eof && Reading(input.data, input.pos, hs, org, len)
  {
    if Parse(input.data) == Some(hs) {
      assert input.data[0..] == input.data;
      HeaderRead(input.data, 0, hs);
    }
    org := input.Getwlh();
    len := input.Getwlh();
  }

  /** The header after a hunk, or the end of the file. */
  method NextHeader(input: File, ghost hs: seq<Hunk>) returns (more: bool, org: nat, len: nat)
    requires input.pos <= |input.data|
    modifies input`pos, input`eof
    ensures input.pos <= |input.data| && (more ==> old(input.pos) < input.pos)
    ensures old(!input.eof) && Parse(input.data[old(input.pos)..]) == Some(hs) ==>
      if more then hs != [] && !input.eof && Reading(input.data, input.pos, hs, org, len) else hs == []
  {
    if Parse(input.data[input.pos..]) == Some(hs) {
      HeaderRead(input.data, input.pos, hs);
    }
    len := 0;
    org := input.Getwlh();
    more := !input.eof;
    if more {
      len := input.Getwlh();
    }
  }

  /** convert, for format 2: a file of complete hunks loads as every byte at its address
      modulo 65536, in the order of the file, and then ends. */
  method ConvertHunks(input: File, output: TextFile)
    requires input.pos == 0 && output.text == "" && !input.eof
    modifies input`pos, input`eof, output
    ensures Parse(input.data).Some? ==> Load(output.text) == Some(LoadedHunks(Parse(input.data).value))
  {
    var buf := new byte[BUFSIZE](_ => 0);
    ghost var hs := Parse(input.data).GetOr([]);
    ghost var whole, rest := Parse(input.data).Some? && hs != [], hs;
    var org, len := FirstHeader(input, hs);
    var more := true;
    while more
      invariant input.pos <= |input.data|
      invariant input.data == [] ==> output.text == "" && (more ==> len == 0)
      invariant whole && more ==> !input.eof && Reading(input.data, input.pos, rest, org, len)
      invariant whole ==> output.text + (if more then HunkLines(rest) else "") == HunkLines(hs)
      decreases more, |input.data| - input.pos
    {
      DataStep(input, output, buf, org, len, rest, HunkLines(hs));
      rest := if whole then rest[1..] else [];
      more, org, len := NextHeader(input, rest);
    }
    assert Parse(input.data).Some? ==> output.text == HunkLines(hs);
    output.Puts(END_RECORD);
    HunkLinesLoad(hs);
  }
}
