/** Intel HEX text: the records ftohex writes, and a reader of the standard
    (Intel Hexadecimal Object File Format Specification, Revision A: sections 2, 5 and 8). */
module IntelHex {
  import opened Results
  import opened Files
  import opened GenerationSpec
  import opened RasFormat

  const PERLINE := 16
  const DIGITS := "0123456789ABCDEF"
  const CRLF := "\r\n"

  // ----- writing -----

  /** puth */
  function HexByte(b: byte): (s: string)
    ensures |s| == 2
  {
    [DIGITS[b / 16], DIGITS[b % 16]]
  }

  function HexBytes(bs: seq<byte>): (s: string)
    ensures |s| == 2 * |bs|
  {
    if bs == [] then "" else HexByte(bs[0]) + HexBytes(bs[1..])
  }

  function Sum(bs: seq<byte>): nat {
    if bs == [] then 0 else bs[0] + Sum(bs[1..])
  }

  /** The two's complement of a sum kept in an unsigned char. */
  function Checksum(sum: nat): byte { (256 - sum % 256) % 256 }

  /** A record line: the bytes and their checksum. */
  function Line(bs: seq<byte>): string { ":" + HexBytes(bs + [Checksum(Sum(bs))]) + CRLF }

  function Head(org: nat, len: byte): (s: seq<byte>)
    ensures |s| == 4 && s[0] == len
  {
    [len, Hi(org), Lo(org), 0]
  }

  function DataLine(org: nat, data: seq<byte>): string
    requires |data| <= PERLINE
  {
    Line(Head(org, |data|) + data)
  }

  /** `org` is an unsigned int. */
  function DataLines(org: nat, data: seq<byte>): string
    decreases |data|
  {
    if data == [] then ""
    else
      var k := if PERLINE < |data| then PERLINE else |data|;
      DataLine(org, data[..k]) + DataLines((org + k) % 0x1_0000_0000, data[k..])
  }

  function HunkLines(hs: seq<Hunk>): string {
    if hs == [] then "" else DataLines(hs[0].org, hs[0].data) + HunkLines(hs[1..])
  }

  const END_RECORD := ":00000001FF\r\n"

  // ----- reading -----

  datatype Record = Record(addr: nat, kind: byte, data: seq<byte>)

  function Digit(c: char): (d: Option<nat>)
    ensures d.Some? ==> d.value < 16
  {
    if '0' <= c <= '9' then Some(c as int - '0' as int)
    else if 'A' <= c <= 'F' then Some(c as int - 'A' as int + 10)
    else None
  }

  function HexPair(h: nat, l: nat): byte
    requires h < 16 && l < 16
  {
    16 * h + l
  }

  function ReadHex(text: string, n: nat): Option<seq<byte>>
    decreases n
  {
    if n == 0 then Some([])
    else if |text| < 2 then None
    else
      match (Digit(text[0]), Digit(text[1]), ReadHex(text[2..], n - 1))
      case (Some(h), Some(l), Some(bs)) => Some([HexPair(h, l)] + bs)
      case _ => None
  }

  /** One record and the text after it: a mark, a length, an address, a type, that many data
      bytes and a checksum that makes all bytes sum to zero modulo 256. */
  function ReadRecord(text: string): (r: Option<(Record, string)>)
    ensures r.Some? ==> |r.value.1| < |text|
  {
    if |text| < 3 || text[0] != ':' then None
    else
      match ReadHex(text[1..], 1)
      case None => None
      case Some(count) =>
        if |count| != 1 then None else ReadCounted(text, count[0] as int + 5)
  }

  /** The record of n bytes in all, from the length to the checksum. */
  function ReadCounted(text: string, n: nat): (r: Option<(Record, string)>)
    requires text != "" && 5 <= n
    ensures r.Some? ==> |r.value.1| < |text|
  {
    if |text| < 1 + 2 * n + 2 then None
    else
      match ReadHex(text[1..], n)
      case None => None
      case Some(bs) =>
        if |bs| == n && Sum(bs) % 256 == 0 && text[1 + 2 * n..1 + 2 * n + 2] == CRLF then
          Some((Record(Word(bs[2], bs[1]), bs[3], bs[4..n - 1]), text[1 + 2 * n + 2..]))
        else None
  }

  /** Data bytes go to consecutive addresses that wrap around inside 64K. */
  function Loaded(org: nat, data: seq<byte>): seq<(nat, byte)> {
    seq(|data|, i requires 0 <= i < |data| => ((org + i) % 0x1_0000, data[i]))
  }

  /** Data records, then exactly one end of file record at the end of the text. */
  function Load(text: string): Option<seq<(nat, byte)>>
    decreases |text|
  {
    match ReadRecord(text)
    case None => None
    case Some((r, rest)) =>
      if r.kind == 1 then (if r.data == [] && rest == "" then Some([]) else None)
      else if r.kind != 0 then None
      else
        match Load(rest)
        case None => None
        case Some(bs) => Some(Loaded(r.addr, r.data) + bs)
  }

  // ----- reading back what was written -----

  lemma DigitBack(d: nat)
    requires d < 16
    ensures Digit(DIGITS[d]) == Some(d)
  {}

  lemma TwoDigits(b: byte, rest: string)
    ensures var text := HexByte(b) + rest; text[0] == DIGITS[b / 16] && text[1] == DIGITS[b % 16] && text[2..] == rest
  {}

  lemma {:induction false} ReadHexBack(bs: seq<byte>, rest: string, n: nat)
    requires n <= |bs|
    ensures ReadHex(HexBytes(bs) + rest, n) == Some(bs[..n])
    decreases n
  {
    if n != 0 {
      Regroup(HexByte(bs[0]), HexBytes(bs[1..]), rest);
      TwoDigits(bs[0], HexBytes(bs[1..]) + rest);
      DigitBack(bs[0] / 16);
      DigitBack(bs[0] % 16);
      ReadHexBack(bs[1..], rest, n - 1);
      assert [bs[0]] + bs[1..][..n - 1] == bs[..n];
    }
  }

  lemma {:induction false} SumAppend(a: seq<byte>, b: seq<byte>)
    ensures Sum(a + b) == Sum(a) + Sum(b)
  {
    if a == [] {
      assert a + b == b;
    } else {
      assert (a + b)[1..] == a[1..] + b;
      SumAppend(a[1..], b);
    }
  }

  /** The bytes of every record sum to zero, whatever its address and data. */
  lemma ChecksumCloses(bs: seq<byte>)
    ensures Sum(bs + [Checksum(Sum(bs))]) % 256 == 0
  {
    var c := Checksum(Sum(bs));
    SumAppend(bs, [c]);
    assert [c][1..] == [];
    assert Sum([c]) == c;
  }

  lemma CountedBack(all: seq<byte>, n: nat, rest: string)
    requires |all| == n && 5 <= n && Sum(all) % 256 == 0
    ensures ReadCounted(":" + HexBytes(all) + CRLF + rest, n) == Some((Record(Word(all[2], all[1]), all[3], all[4..n - 1]), rest))
  {
    var text := ":" + HexBytes(all) + CRLF + rest;
    var tail := CRLF + rest;
    assert text[1..] == HexBytes(all) + tail;
    ReadHexBack(all, tail, n);
    assert all[..n] == all;
    assert text[1 + 2 * n..1 + 2 * n + 2] == CRLF && text[1 + 2 * n + 2..] == rest;
  }

  lemma RecordBack(all: seq<byte>, len: nat, rest: string)
    requires |all| == len + 5 && all[0] == len && Sum(all) % 256 == 0
    ensures ReadRecord(":" + HexBytes(all) + CRLF + rest) == Some((Record(Word(all[2], all[1]), all[3], all[4..len + 4]), rest))
  {
    CountedBack(all, len + 5, rest);
    FirstByteBack(all, rest);
    BeginsWithColon(all, rest);
    CountFound(":" + HexBytes(all) + CRLF + rest, len);
  }

  lemma BeginsWithColon(all: seq<byte>, rest: string)
    requires all != []
    ensures 3 <= |":" + HexBytes(all) + CRLF + rest| && (":" + HexBytes(all) + CRLF + rest)[0] == ':'
  {}

  lemma CountFound(text: string, len: nat)
    requires 3 <= |text| && text[0] == ':' && ReadHex(text[1..], 1).Some? && ReadHex(text[1..], 1).value == [len]
    ensures ReadRecord(text) == ReadCounted(text, len + 5)
  {}

  lemma FirstByteBack(all: seq<byte>, rest: string)
    requires all != []
    ensures ReadHex((":" + HexBytes(all) + CRLF + rest)[1..], 1) == Some([all[0]])
  {
    assert (":" + HexBytes(all) + CRLF + rest)[1..] == HexBytes(all) + (CRLF + rest);
    ReadHexBack(all, CRLF + rest, 1);
    assert all[..1] == [all[0]];
  }

  lemma ReadLineBack(head: seq<byte>, data: seq<byte>, rest: string)
    requires |head| == 4 && head[0] == |data|
    ensures ReadRecord(Line(head + data) + rest) == Some((Record(Word(head[2], head[1]), head[3], data), rest))
  {
    var all := head + data + [Checksum(Sum(head + data))];
    ChecksumCloses(head + data);
    RecordBack(all, |data|, rest);
    assert all[4..|data| + 4] == data;
  }

  lemma EndRecordText()
    ensures Line([0, 0, 0, 1]) == END_RECORD
  {
    var bs: seq<byte> := [0, 0, 0, 1];
    assert Sum(bs) == 1 by {
      assert bs[1..] == [0, 0, 1] && bs[1..][1..] == [0, 1] && bs[1..][1..][1..] == [1] && bs[1..][1..][1..][1..] == [];
    }
    var all: seq<byte> := [0, 0, 0, 1, 255];
    assert bs + [Checksum(1)] == all;
    EndRecordDigits(all);
  }

  lemma EndRecordDigits(all: seq<byte>)
    requires all == [0, 0, 0, 1, 255]
    ensures HexBytes(all) == "00000001FF"
  {
    assert all[1..] == [0, 0, 1, 255] && all[1..][1..] == [0, 1, 255] && all[1..][1..][1..] == [1, 255];
    assert all[1..][1..][1..][1..] == [255] && all[1..][1..][1..][1..][1..] == [];
    assert HexByte(255) == "FF" && HexByte(1) == "01" && HexByte(0) == "00";
    assert HexBytes([255]) == "FF" && HexBytes([1, 255]) == "01FF";
    assert HexBytes([0, 1, 255]) == "0001FF" && HexBytes([0, 0, 1, 255]) == "000001FF";
  }

  lemma EndRecordBack()
    ensures Load(END_RECORD) == Some([])
  {
    EndRecordText();
    ReadLineBack([0, 0, 0, 1], [], "");
    assert [0, 0, 0, 1] + [] == [0, 0, 0, 1];
    assert END_RECORD + "" == END_RECORD;
  }

  lemma WrapAdd(a: nat, b: nat, i: nat)
    requires a % 0x1_0000 == b % 0x1_0000
    ensures (a + i) % 0x1_0000 == (b + i) % 0x1_0000
  {}

  lemma WrapTwice(a: nat)
    ensures (a % 0x1_0000) % 0x1_0000 == a % 0x1_0000
    ensures (a % 0x1_0000_0000) % 0x1_0000 == a % 0x1_0000
  {}

  lemma LoadedFrom(org: nat, org': nat, data: seq<byte>)
    requires org % 0x1_0000 == org' % 0x1_0000
    ensures Loaded(org, data) == Loaded(org', data)
  {
    forall i | 0 <= i < |data| ensures Loaded(org, data)[i] == Loaded(org', data)[i] {
      WrapAdd(org, org', i);
    }
  }

  lemma LoadedSplit(org: nat, data: seq<byte>, k: nat)
    requires k <= |data|
    ensures Loaded(org, data) == Loaded(org, data[..k]) + Loaded((org + k) % 0x1_0000_0000, data[k..])
  {
    WrapTwice(org + k);
    LoadedFrom((org + k) % 0x1_0000_0000, org + k, data[k..]);
    assert Loaded(org, data) == Loaded(org, data[..k]) + Loaded(org + k, data[k..]);
  }

  lemma DataLineLoads(org: nat, data: seq<byte>, rest: string)
    requires |data| <= PERLINE && Load(rest).Some?
    ensures Load(DataLine(org, data) + rest) == Some(Loaded(org, data) + Load(rest).value)
  {
    ReadLineBack(Head(org, |data|), data, rest);
    WordOfBytes(org);
    WrapTwice(org);
    LoadedFrom(org % 0x1_0000, org, data);
  }

  /** The lines of a stretch of data load as that data at its addresses modulo 65536. */
  lemma {:induction false} DataLinesLoad(org: nat, data: seq<byte>, rest: string)
    requires Load(rest).Some?
    decreases |data|
    ensures Load(DataLines(org, data) + rest) == Some(Loaded(org, data) + Load(rest).value)
  {
    if data == [] {
      assert "" + rest == rest;
      assert Loaded(org, data) + Load(rest).value == Load(rest).value;
    } else {
      var k := if PERLINE < |data| then PERLINE else |data|;
      var tail := DataLines((org + k) % 0x1_0000_0000, data[k..]);
      DataLinesLoad((org + k) % 0x1_0000_0000, data[k..], rest);
      DataLineLoads(org, data[..k], tail + rest);
      LoadedSplit(org, data, k);
      Regroup(DataLine(org, data[..k]), tail, rest);
      Regroup(Loaded(org, data[..k]), Loaded((org + k) % 0x1_0000_0000, data[k..]), Load(rest).value);
    }
  }

  lemma Regroup<T>(a: seq<T>, b: seq<T>, c: seq<T>)
    ensures (a + b) + c == a + (b + c)
  {}

  function LoadedHunks(hs: seq<Hunk>): seq<(nat, byte)> {
    if hs == [] then [] else Loaded(hs[0].org, hs[0].data) + LoadedHunks(hs[1..])
  }

  lemma {:induction false} HunkLinesLoad(hs: seq<Hunk>)
    ensures Load(HunkLines(hs) + END_RECORD) == Some(LoadedHunks(hs))
  {
    if hs == [] {
      EndRecordBack();
      assert "" + END_RECORD == END_RECORD;
    } else {
      HunkLinesLoad(hs[1..]);
      DataLinesLoad(hs[0].org, hs[0].data, HunkLines(hs[1..]) + END_RECORD);
      Regroup(DataLines(hs[0].org, hs[0].data), HunkLines(hs[1..]), END_RECORD);
    }
  }

  /** The same bytes, at their addresses modulo 65536. */
  function Wrapped(ps: seq<(nat, byte)>): seq<(nat, byte)> {
    seq(|ps|, i requires 0 <= i < |ps| => (ps[i].0 % 0x1_0000, ps[i].1))
  }

  lemma {:induction false} LoadedIsPlaced(hs: seq<Hunk>)
    ensures LoadedHunks(hs) == Wrapped(PlacedHunks(hs))
  {
    if hs != [] {
      LoadedIsPlaced(hs[1..]);
      assert Loaded(hs[0].org, hs[0].data) == Wrapped(Placed(hs[0].org, hs[0].data));
    }
  }

  /** From generate through a RAS file to hex text and back: every emitted byte, at its
      address modulo 65536, in the order emitted. */
  lemma RunToHexAndBack(fill: byte, es: seq<Emission>)
    requires StartsKnown(es) && exists e <- es :: !e.bss
    requires forall h <- HunksOf([], es) :: Fits(h)
    ensures EmitAll(Ras, fill, FRESH, es).Ok?
    ensures
      var file := Close(Ras, EmitAll(Ras, fill, FRESH, es).value).data;
      Parse(file).Some? && Load(HunkLines(Parse(file).value) + END_RECORD) == Some(Wrapped(PlacedRun(es)))
  {
    RasRoundTrip(fill, es);
    var hs := Parse(Close(Ras, EmitAll(Ras, fill, FRESH, es).value).data).value;
    HunkLinesLoad(hs);
    LoadedIsPlaced(hs);
  }
}
