/** Output and input files: an array of bytes with a position. */
module Files {
  import opened Results

  type byte = b: int | 0 <= b < 256

  function Lo(v: int): byte { v % 256 }

  function Hi(v: int): byte { v / 256 % 256 }

  function Word(lo: byte, hi: byte): nat { lo + 256 * hi }

  lemma WordOfBytes(v: int)
    ensures Word(Lo(v), Hi(v)) == v % 0x1_0000
  {
    var q := v / 0x1_0000;
    assert v == 0x1_0000 * q + v % 0x1_0000;
    assert v / 256 == 256 * q + (v % 0x1_0000) / 256;
  }

  function Repeat(b: byte, n: nat): (s: seq<byte>)
    ensures |s| == n && forall i | 0 <= i < n :: s[i] == b
  {
    seq(n, _ => b)
  }

  /** What fwrite at a position does to the bytes of a file; a gap reads as zeros. */
  function Overwrite(data: seq<byte>, pos: nat, bytes: seq<byte>): seq<byte> {
    if bytes == [] then data
    else
      (if pos <= |data| then data[..pos] else data + Repeat(0, pos - |data|))
      + bytes
      + (if pos + |bytes| < |data| then data[pos + |bytes|..] else [])
  }

  /** The bytes fread finds when it asks for n. */
  function Available(data: seq<byte>, pos: nat, n: nat): (s: seq<byte>)
    ensures |s| <= n && (pos + n <= |data| ==> s == data[pos..pos + n])
  {
    if |data| <= pos then [] else if pos + n <= |data| then data[pos..pos + n] else data[pos..]
  }

  class File {
    var data: seq<byte>
    var pos: nat
    var eof: bool

    constructor (contents: seq<byte>)
      ensures data == contents && pos == 0 && !eof
    {
      data, pos, eof := contents, 0, false;
    }

    method Write(bytes: seq<byte>)
      modifies this`data, this`pos
      ensures data == Overwrite(old(data), old(pos), bytes) && pos == old(pos) + |bytes|
    {
      data, pos := Overwrite(data, pos, bytes), pos + |bytes|;
    }

    method Seek(n: nat)
      modifies this`pos, this`eof
      ensures pos == n && !eof
    {
      pos, eof := n, false;
    }

    method SeekEnd()
      modifies this`pos, this`eof
      ensures pos == |data| && !eof
    {
      pos, eof := |data|, false;
    }

    /** getc */
    method Getc() returns (c: Option<byte>)
      modifies this`pos, this`eof
      ensures old(pos) < |data| ==> c == Some(data[old(pos)]) && pos == old(pos) + 1 && eof == old(eof)
      ensures |data| <= old(pos) ==> c == None && pos == old(pos) && eof
    {
      if pos < |data| {
        c := Some(data[pos]);
        pos := pos + 1;
      } else {
        c := None;
        eof := true;
      }
    }

    /** fread of n bytes into the front of a buffer: what is there is copied, the rest of the
        buffer keeps its contents. */
    method Read(buf: array<byte>, n: nat)
      requires n <= buf.Length
      modifies this`pos, this`eof, buf
      ensures var got := Available(data, old(pos), n);
        && pos == old(pos) + |got|
        && eof == (old(eof) || |got| < n)
        && buf[..] == got + old(buf[|got|..])
    {
      var got := Available(data, pos, n);
      forall i | 0 <= i < |got| {
        buf[i] := got[i];
      }
      pos := pos + |got|;
      eof := eof || |got| < n;
    }

    /** getwlh: a little-endian word, 0 when the file ends inside it. */
    method Getwlh() returns (w: nat)
      modifies this`pos, this`eof
      ensures w < 0x1_0000
      ensures old(pos) + 2 <= |data| ==> w == Word(data[old(pos)], data[old(pos) + 1]) && pos == old(pos) + 2 && eof == old(eof)
      ensures |data| < old(pos) + 2 ==> w == 0 && eof && (old(pos) <= |data| ==> pos == |data|)
    {
      var lo := Getc();
      var hi := Getc();
      if lo == None || hi == None {
        return 0;
      }
      return Word(lo.value, hi.value);
    }
  }
}
