/** src/ftobin.c: hunks to a raw image, through a 256-byte buffer and sixteen-bit origins. */
module Ftobin {
  import opened Results
  import opened Files
  import opened RasFormat
  import opened BinaryImage

  const BUFSIZE := 256

  /** What stays in front of an overwritten part, and behind it. */
  function Front(data: seq<byte>, pos: nat): (f: seq<byte>)
    ensures |f| == pos
  {
    if pos <= |data| then data[..pos] else data + Repeat(0, pos - |data|)
  }

  function Back(data: seq<byte>, pos: nat): seq<byte> { if pos < |data| then data[pos..] else [] }

  lemma PartsOf(f: seq<byte>, a: seq<byte>, rest: seq<byte>, k: nat)
    ensures Front(f + a + rest, |f + a|) == f + a
    ensures Back(f + a + rest, |f + a| + k) == Back(rest, k)
  {}

  lemma BackTwice(data: seq<byte>, m: nat, k: nat)
    ensures Back(Back(data, m), k) == Back(data, m + k)
  {}

  lemma OverwriteParts(data: seq<byte>, pos: nat, bytes: seq<byte>)
    requires bytes != []
    ensures Overwrite(data, pos, bytes) == Front(data, pos) + bytes + Back(data, pos + |bytes|)
  {}

  lemma Regroup(f: seq<byte>, a: seq<byte>, b: seq<byte>, rest: seq<byte>)
    ensures (f + a) + b + rest == f + (a + b) + rest
  {
    assert (f + a) + b == f + (a + b);
  }

  lemma PartsTwice(data: seq<byte>, pos: nat, a: seq<byte>, b: seq<byte>, once: seq<byte>)
    requires once == Front(data, pos) + a + Back(data, pos + |a|)
    ensures Front(once, pos + |a|) + b + Back(once, pos + |a| + |b|) == Front(data, pos) + (a + b) + Back(data, pos + |a + b|)
  {
    PartsOf(Front(data, pos), a, Back(data, pos + |a|), |b|);
    BackTwice(data, pos + |a|, |b|);
    Regroup(Front(data, pos), a, b, Back(data, pos + |a + b|));
  }

  lemma OverwriteTwice(data: seq<byte>, pos: nat, a: seq<byte>, b: seq<byte>)
    ensures Overwrite(Overwrite(data, pos, a), pos + |a|, b) == Overwrite(data, pos, a + b)
  {
    if a == [] {
      assert a + b == b;
    } else if b == [] {
      assert a + b == a;
    } else {
      OverwriteParts(data, pos, a);
      OverwriteParts(Overwrite(data, pos, a), pos + |a|, b);
      OverwriteParts(data, pos, a + b);
      PartsTwice(data, pos, a, b, Overwrite(data, pos, a));
    }
  }

  lemma OverwriteSlices(data: seq<byte>, pos: nat, from: seq<byte>, i: nat, j: nat, k: nat)
    requires i <= j <= k <= |from|
    ensures Overwrite(Overwrite(data, pos, from[i..j]), pos + j - i, from[j..k]) == Overwrite(data, pos, from[i..k])
  {
    OverwriteTwice(data, pos, from[i..j], from[j..k]);
    assert from[i..j] + from[j..k] == from[i..k];
  }

  /** fread of n bytes that are there. */
  method ReadBlock(input: File, buf: array<byte>, n: nat)
    requires n <= buf.Length && input.pos <= |input.data|
    modifies input`pos, input`eof, buf
    ensures old(input.pos) <= input.pos <= |input.data|
    ensures old(input.pos) + n <= |input.data| ==>
      && input.pos == old(input.pos) + n && input.eof == old(input.eof)
      && buf[..n] == input.data[old(input.pos)..input.pos]
  {
    ghost var got := Available(input.data, input.pos, n);
    input.Read(buf, n);
    assert |got| == n ==> buf[..n] == buf[..][..n] == got;
  }

  /** fread then fwrite of n bytes. */
  method CopyBlock(input: File, output: File, buf: array<byte>, n: nat)
    requires input != output && n <= buf.Length && input.pos <= |input.data|
    modifies input`pos, input`eof, output`data, output`pos, buf
    ensures old(input.pos) <= input.pos <= |input.data|
    ensures old(input.pos) + n <= |input.data| ==>
      && input.pos == old(input.pos) + n && input.eof == old(input.eof)
      && output.data == Overwrite(old(output.data), old(output.pos), input.data[old(input.pos)..input.pos])
      && output.pos == old(output.pos) + n
  {
    ReadBlock(input, buf, n);
    output.Write(buf[..n]);
  }

  /** One turn of the copying loop, after the bytes from start on have been copied. */
  method CopyMore(input: File, output: File, buf: array<byte>, n: nat, ghost data0: seq<byte>, ghost pos0: nat, ghost start: nat)
    requires input != output && n <= buf.Length && start <= input.pos <= |input.data|
    modifies input`pos, input`eof, output`data, output`pos, buf
    ensures old(input.pos) <= input.pos <= |input.data|
    ensures old(input.pos) + n <= |input.data| ==>
      input.pos == old(input.pos) + n && input.eof == old(input.eof) && output.pos == old(output.pos) + n
    ensures
      && old(input.pos) + n <= |input.data| && old(output.pos) == pos0 + old(input.pos) - start
      && old(output.data) == Overwrite(data0, pos0, input.data[start..old(input.pos)])
      ==> output.data == Overwrite(data0, pos0, input.data[start..input.pos])
  {
    ghost var at := input.pos;
    CopyBlock(input, output, buf, n);
    if at + n <= |input.data| {
      OverwriteSlices(data0, pos0, input.data, start, at, input.pos);
    }
  }

  /** The copying loop: len bytes from one file to the other, if they are there. */
  method Copy(input: File, output: File, buf: array<byte>, len: nat)
    requires input != output && buf.Length == BUFSIZE && input.pos <= |input.data|
    modifies input`pos, input`eof, output`data, output`pos, buf
    ensures old(input.pos) <= input.pos <= |input.data|
    ensures old(input.pos) + len <= |input.data| ==>
      && input.pos == old(input.pos) + len && input.eof == old(input.eof)
      && output.data == Overwrite(old(output.data), old(output.pos), input.data[old(input.pos)..input.pos])
      && output.pos == old(output.pos) + len
    ensures len == 0 ==> output.data == old(output.data)
  {
    var left := len;
    ghost var start, data0, pos0 := input.pos, output.data, output.pos;
    while BUFSIZE <= left
      invariant 0 <= left <= len && start <= input.pos <= |input.data|
      invariant start + len <= |input.data| ==>
        && input.pos == start + len - left && input.eof == old(input.eof)
        && output.data == Overwrite(data0, pos0, input.data[start..input.pos])
        && output.pos == pos0 + len - left
    {
      CopyMore(input, output, buf, BUFSIZE, data0, pos0, start);
      left := left - BUFSIZE;
    }
    if left != 0 {
      CopyMore(input, output, buf, left, data0, pos0, start);
    }
  }

  function Filled(data: seq<byte>, pos: nat, n: nat): seq<byte> { Overwrite(data, pos, Repeat(FILL, n)) }

  lemma FillMore(data: seq<byte>, pos: nat, m: nat, k: nat)
    ensures Overwrite(Filled(data, pos, m), pos + m, Repeat(FILL, k)) == Filled(data, pos, m + k)
  {
    OverwriteTwice(data, pos, Repeat(FILL, m), Repeat(FILL, k));
    assert Repeat(FILL, m) + Repeat(FILL, k) == Repeat(FILL, m + k);
  }

  method FillBuffer(buf: array<byte>)
    requires buf.Length == BUFSIZE
    modifies buf
    ensures buf[..] == Repeat(FILL, BUFSIZE)
  {
    forall i | 0 <= i < BUFSIZE {
      buf[i] := FILL;
    }
  }

  /** The gap loop: n bytes of 255 at the current position. */
  method WriteFill(output: File, buf: array<byte>, n: nat)
    requires buf.Length == BUFSIZE
    modifies output`data, output`pos, buf
    ensures output.data == Filled(old(output.data), old(output.pos), n)
    ensures output.pos == old(output.pos) + n
  {
    FillBuffer(buf);
    var left := n;
    ghost var data0, pos0 := output.data, output.pos;
    while 0 < left
      invariant 0 <= left <= n && buf[..] == Repeat(FILL, BUFSIZE)
      invariant output.data == Filled(data0, pos0, n - left) && output.pos == pos0 + n - left
    {
      var k := if BUFSIZE <= left then BUFSIZE else left;
      WritePart(output, buf, k, data0, pos0, n - left);
      left := left - k;
    }
  }

  method WritePart(output: File, buf: array<byte>, k: nat, ghost data0: seq<byte>, ghost pos0: nat, ghost m: nat)
    requires buf.Length == BUFSIZE && buf[..] == Repeat(FILL, BUFSIZE) && k <= BUFSIZE
    requires output.data == Filled(data0, pos0, m) && output.pos == pos0 + m
    modifies output`data, output`pos
    ensures output.data == Filled(data0, pos0, m + k) && output.pos == pos0 + m + k
  {
    assert buf[..k] == buf[..][..k] == Repeat(FILL, k);
    FillMore(data0, pos0, m, k);
    output.Write(buf[..k]);
  }

  /** convert, for formats 1 (origin, then data) and 3 (data only). */
  method ConvertPlain(format: int, input: File, output: File)
    requires input != output && (format == 1 || format == 3)
    requires input.pos == 0 && output.data == [] && output.pos == 0
    modifies input`pos, input`eof, output
    ensures output.data == if format == 3 then input.data else if |input.data| < 2 then [] else input.data[2..]
  {
    var buf := new byte[BUFSIZE](_ => 0);
    if format == 1 {
      var org := input.Getwlh();
    }
    var begin := input.pos;
    input.SeekEnd();
    var len := input.pos - begin;
    input.Seek(begin);
    Copy(input, output, buf, len);
    assert input.data[begin..|input.data|] == input.data[begin..];
    OverwriteAtEnd([], input.data[begin..]);
  }

  /** What a conversion comes to, and whether all its hunks are at or above the first one. */
  datatype Goal = Goal(image: Bin, all: bool)

  /** The reader has taken the header of h and stands before its data; what is written so far,
      continued with h and the rest, is the whole conversion; folded up. */
  ghost predicate Reading(data: seq<byte>, pos: nat, b: Bin, h: Hunk, rest: seq<Hunk>, org: int, len: nat, base: nat, goal: Goal, n: nat)
    decreases n
  {
    n == 0 ||
    (&& (forall key: nat :: Opened(OfHunk, key) ==> AtHunk(data, pos, b, h, rest, org, len, base, goal))
     && Reading(data, pos, b, h, rest, org, len, base, goal, n - 1))
  }

  ghost predicate AtHunk(data: seq<byte>, pos: nat, b: Bin, h: Hunk, rest: seq<Hunk>, org: int, len: nat, base: nat, goal: Goal) {
    && org == h.org && len == |h.data| && pos + len <= |data| && data[pos..pos + len] == h.data
    && Left(data, pos + len, rest, 1) && GoesOn(b, h, rest, base, goal, 1)
  }

  /** The conversion, continued with h and then with them; folded up. */
  ghost predicate GoesOn(b: Bin, h: Hunk, rest: seq<Hunk>, base: nat, goal: Goal, n: nat)
    decreases n
  {
    n == 0 ||
    (&& (forall key: nat :: Opened(OfImage, key) ==> ComesTo(Noted(Copied(b, h.data), base, End(h)), rest, base, goal, 1))
     && GoesOn(b, h, rest, base, goal, n - 1))
  }

  /** A hunk has been copied; the next header, or the end, comes next. */
  ghost predicate Between(data: seq<byte>, pos: nat, b: Bin, rest: seq<Hunk>, base: nat, goal: Goal) {
    pos <= |data| && Left(data, pos, rest, 1) && ComesTo(b, rest, base, goal, 1)
  }

  /** These hunks are left in the file; folded up. */
  ghost predicate Left(data: seq<byte>, pos: nat, rest: seq<Hunk>, n: nat)
    requires pos <= |data|
    decreases n
  {
    n == 0 || ((forall key: nat :: Opened(OfFile, key) ==> Parse(data[pos..]) == Some(rest)) && Left(data, pos, rest, n - 1))
  }

  /** The conversion, continued with them; folded up. */
  ghost predicate ComesTo(b: Bin, rest: seq<Hunk>, base: nat, goal: Goal, n: nat)
    decreases n
  {
    n == 0 ||
    (&& (forall key: nat :: Opened(OfImage, key) ==> goal.image == Rest(b, base, rest) && (goal.all <==> AllAbove(base, rest)))
     && ComesTo(b, rest, base, goal, n - 1))
  }

  /** The first hunk that is left. */
  lemma FirstLeft(data: seq<byte>, pos: nat, rest: seq<Hunk>)
    requires pos <= |data| && Left(data, pos, rest, 1)
    ensures rest == [] <==> pos == |data|
    ensures rest != [] ==>
      && pos + 4 + |rest[0].data| <= |data|
      && Word(data[pos], data[pos + 1]) == rest[0].org && Word(data[pos + 2], data[pos + 3]) == |rest[0].data|
      && data[pos + 4..pos + 4 + |rest[0].data|] == rest[0].data
      && Left(data, pos + 4 + |rest[0].data|, rest[1..], 1)
  {
    assert Opened(OfFile, 0);
    NextHunk(data, pos, rest);
  }

  lemma FirstComes(b: Bin, rest: seq<Hunk>, base: nat, goal: Goal)
    requires ComesTo(b, rest, base, goal, 1)
    ensures rest == [] ==> goal.image == b && goal.all
    ensures rest != [] && rest[0].org < base ==> goal.image == b && !goal.all
    ensures rest != [] && base <= rest[0].org ==>
      GoesOn(Moved(b, rest[0].org - base), rest[0], rest[1..], base, goal, 1)
  {
    assert Opened(OfImage, 0);
    if rest != [] {
      AboveAfter(base, rest);
    }
  }

  lemma FirstHeader(data: seq<byte>, hs: seq<Hunk>)
    requires Parse(data) == Some(hs) && hs != []
    ensures 4 <= |data|
    ensures
      var (base, goal) := (Word(data[0], data[1]), Goal(Converted(hs), AllAbove(hs[0].org, hs)));
      Reading(data, 4, Bin([], 0, 0), hs[0], hs[1..], base, Word(data[2], data[3]), base, goal, 1)
  {
    assert data[0..] == data && Left(data, 0, hs, 1);
    FirstLeft(data, 0, hs);
    AboveAfter(hs[0].org, hs);
    assert ComesTo(Noted(Copied(Bin([], 0, 0), hs[0].data), hs[0].org, End(hs[0])), hs[1..], hs[0].org,
                   Goal(Converted(hs), AllAbove(hs[0].org, hs)), 1);
  }

  lemma AboveAfter(base: nat, hs: seq<Hunk>)
    requires hs != []
    ensures AllAbove(base, hs) <==> base <= hs[0].org && AllAbove(base, hs[1..])
  {
    assert hs == [hs[0]] + hs[1..];
  }

  /** What convert leaves in format 2. */
  ghost predicate Outcome(goal: Goal, data: seq<byte>, done: bool) { data == goal.image.data && (done <==> goal.all) }

  lemma Stands(data: seq<byte>, pos: nat, b: Bin, h: Hunk, rest: seq<Hunk>, org: int, len: nat, base: nat, goal: Goal)
    requires AtHunk(data, pos, b, h, rest, org, len, base, goal)
    ensures Reading(data, pos, b, h, rest, org, len, base, goal, 1)
  {}

  /** The header of a hunk that is not below the base. */
  lemma HeaderRead(data: seq<byte>, pos: nat, b: Bin, rest: seq<Hunk>, base: nat, goal: Goal)
    requires Between(data, pos, b, rest, base, goal) && rest != [] && base <= rest[0].org
    ensures Reading(data, pos + 4, Moved(b, rest[0].org - base), rest[0], rest[1..], rest[0].org, |rest[0].data|, base, goal, 1)
  {
    FirstLeft(data, pos, rest);
    FirstComes(b, rest, base, goal);
    Stands(data, pos + 4, Moved(b, rest[0].org - base), rest[0], rest[1..], rest[0].org, |rest[0].data|, base, goal);
  }

  /** The end of the file, or a hunk below the base. */
  lemma HeaderEnds(data: seq<byte>, pos: nat, b: Bin, rest: seq<Hunk>, base: nat, goal: Goal)
    requires Between(data, pos, b, rest, base, goal)
    requires rest != [] ==> rest[0].org < base
    ensures Outcome(goal, b.data, rest == [])
  {
    FirstComes(b, rest, base, goal);
  }

  method CopyHunk(input: File, output: File, buf: array<byte>, len: nat, base: nat, end: nat, max: nat) returns (maxseek: nat)
    requires input != output && buf.Length == BUFSIZE && input.pos <= |input.data|
    modifies input`pos, input`eof, output`data, output`pos, buf
    ensures input.pos <= |input.data| && old(input.pos) <= input.pos
    ensures old(input.pos) + len <= |input.data| ==>
      && input.pos == old(input.pos) + len && input.eof == old(input.eof)
      && Bin(output.data, output.pos, maxseek)
      == Noted(Copied(Bin(old(output.data), old(output.pos), max), input.data[old(input.pos)..input.pos]), base, end)
    ensures len == 0 ==> output.data == old(output.data)
  {
    maxseek := max;
    Copy(input, output, buf, len);
    var org := end % 0x1_0000;
    if maxseek < org - base {
      maxseek := org - base;
    }
  }

  method MoveTo(output: File, buf: array<byte>, at: nat, max: nat) returns (maxseek: nat)
    requires buf.Length == BUFSIZE
    modifies output, buf
    ensures Bin(output.data, output.pos, maxseek) == Moved(Bin(old(output.data), old(output.pos), max), at)
  {
    maxseek := max;
    if maxseek < at {
      WriteFill(output, buf, at - maxseek);
      maxseek := at;
    }
    output.Seek(at);
  }

  lemma HunkCopied(data: seq<byte>, pos: nat, b: Bin, h: Hunk, rest: seq<Hunk>, org: nat, len: nat, base: nat, goal: Goal)
    requires Reading(data, pos, b, h, rest, org, len, base, goal, 1)
    ensures pos + len <= |data|
    ensures Between(data, pos + len, Noted(Copied(b, data[pos..pos + len]), base, org + len), rest, base, goal)
  {
    assert Opened(OfHunk, 0);
    assert Opened(OfImage, 0);
  }

  /** The first half of the loop: the data of a hunk. */
  method CopyStep(input: File, output: File, buf: array<byte>, org: nat, len: nat, base: nat, max: nat,
                  ghost h: Hunk, ghost rest: seq<Hunk>, ghost goal: Goal)
    returns (maxseek: nat)
    requires input != output && buf.Length == BUFSIZE && input.pos <= |input.data|
    modifies input`pos, input`eof, output`data, output`pos, buf
    ensures input.pos <= |input.data| && old(input.pos) <= input.pos
    ensures len == 0 ==> output.data == old(output.data)
    ensures old(!input.eof && Reading(input.data, input.pos, Bin(output.data, output.pos, max), h, rest, org, len, base, goal, 1)) ==>
      !input.eof && Between(input.data, input.pos, Bin(output.data, output.pos, maxseek), rest, base, goal)
  {
    if Reading(input.data, input.pos, Bin(output.data, output.pos, max), h, rest, org, len, base, goal, 1) {
      HunkCopied(input.data, input.pos, Bin(output.data, output.pos, max), h, rest, org, len, base, goal);
    }
    maxseek := CopyHunk(input, output, buf, len, base, org + len, max);
  }

  method PlaceNext(input: File, output: File, buf: array<byte>, at: nat, max: nat) returns (len: nat, maxseek: nat)
    requires input != output && buf.Length == BUFSIZE && input.pos <= |input.data|
    modifies input`pos, input`eof, output, buf
    ensures Bin(output.data, output.pos, maxseek) == Moved(Bin(old(output.data), old(output.pos), max), at)
    ensures old(input.pos) <= input.pos <= |input.data|
    ensures old(input.pos) + 2 <= |input.data| ==>
      && len == Word(input.data[old(input.pos)], input.data[old(input.pos) + 1])
      && input.pos == old(input.pos) + 2 && input.eof == old(input.eof)
  {
    maxseek := MoveTo(output, buf, at, max);
    len := input.Getwlh();
  }

  /** The second half: the next header, and the file positioned for its data. */
  method ReadHeader(input: File, output: File, buf: array<byte>, base: nat, max: nat)
    returns (more: bool, done: bool, org: nat, len: nat, maxseek: nat)
    requires input != output && buf.Length == BUFSIZE && input.pos <= |input.data|
    modifies input`pos, input`eof, output, buf
    ensures input.pos <= |input.data| && (more ==> done && old(input.pos) < input.pos)
    ensures !more ==> output.data == old(output.data)
    ensures old(input.pos) == |input.data| ==> !more && done
    ensures !old(input.eof) && old(input.pos) + 4 <= |input.data| ==>
      && org == Word(input.data[old(input.pos)], input.data[old(input.pos) + 1])
      && (more <==> base <= org) && done == more
    ensures !old(input.eof) && old(input.pos) + 4 <= |input.data| && more ==>
      && len == Word(input.data[old(input.pos) + 2], input.data[old(input.pos) + 3])
      && input.pos == old(input.pos) + 4 && !input.eof
      && Bin(output.data, output.pos, maxseek) == Moved(Bin(old(output.data), old(output.pos), max), org - base)
  {
    len, maxseek := 0, max;
    org := input.Getwlh();
    if input.eof {
      return false, true, org, len, maxseek;
    }
    if org < base {
      return false, false, org, len, maxseek;
    }
    more, done := true, true;
    len, maxseek := PlaceNext(input, output, buf, org - base, max);
  }

  /** Between two hunks is the end of the file, or the header of the next one. */
  lemma HeaderOrEnd(data: seq<byte>, pos: nat, b: Bin, rest: seq<Hunk>, base: nat, goal: Goal)
    requires Between(data, pos, b, rest, base, goal)
    ensures rest == [] <==> pos == |data|
    ensures rest != [] ==>
      && pos + 4 <= |data|
      && Word(data[pos], data[pos + 1]) == rest[0].org && Word(data[pos + 2], data[pos + 3]) == |rest[0].data|
  {
    FirstLeft(data, pos, rest);
  }

  /** What comes of a header, or of the end of the file. */
  lemma HeaderTaken(data: seq<byte>, pos: nat, b: Bin, rest: seq<Hunk>, base: nat, goal: Goal,
                    more: bool, done: bool, org: nat, len: nat, pos': nat, b': Bin)
    requires Between(data, pos, b, rest, base, goal)
    requires pos == |data| ==> !more && done
    requires !more ==> b'.data == b.data
    requires pos + 4 <= |data| ==> org == Word(data[pos], data[pos + 1]) && (more <==> base <= org) && done == more
    requires pos + 4 <= |data| && more ==>
      len == Word(data[pos + 2], data[pos + 3]) && pos' == pos + 4 && b' == Moved(b, org - base)
    ensures more ==> pos + 4 <= |data| && rest != [] && Reading(data, pos', b', rest[0], rest[1..], org, len, base, goal, 1)
    ensures !more ==> Outcome(goal, b'.data, done)
  {
    HeaderOrEnd(data, pos, b, rest, base, goal);
    if more {
      HeaderRead(data, pos, b, rest, base, goal);
    } else {
      HeaderEnds(data, pos, b, rest, base, goal);
    }
  }

  /** The same between two hunks of a complete file. */
  method HeaderStep(input: File, output: File, buf: array<byte>, base: nat, max: nat, ghost rest: seq<Hunk>, ghost goal: Goal)
    returns (more: bool, done: bool, org: nat, len: nat, maxseek: nat)
    requires input != output && buf.Length == BUFSIZE && input.pos <= |input.data|
    modifies input`pos, input`eof, output, buf
    ensures input.pos <= |input.data| && (more ==> old(input.pos) < input.pos)
    ensures old(input.pos) == |input.data| ==> !more && done && output.data == old(output.data)
    ensures old(!input.eof && Between(input.data, input.pos, Bin(output.data, output.pos, max), rest, base, goal)) ==>
      if more then
        && !input.eof && rest != []
        && Reading(input.data, input.pos, Bin(output.data, output.pos, maxseek), rest[0], rest[1..], org, len, base, goal, 1)
      else
        Outcome(goal, output.data, done)
  {
    ghost var (b, pos, whole) := (Bin(output.data, output.pos, max), input.pos, !input.eof);
    more, done, org, len, maxseek := ReadHeader(input, output, buf, base, max);
    if whole && Between(input.data, pos, b, rest, base, goal) {
      HeaderTaken(input.data, pos, b, rest, base, goal, more, done, org, len, input.pos, Bin(output.data, output.pos, maxseek));
    }
  }

  /** convert, for format 2. On a file of complete hunks it writes `Converted` of them, and
      stops at a hunk below the first origin: `done` is false after that error. */
  method ConvertHunks(input: File, output: File) returns (done: bool)
    requires input != output
    requires input.pos == 0 && output.data == [] && output.pos == 0 && !input.eof
    modifies input`pos, input`eof, output
    ensures Parse(input.data).Some? ==>
      var hs := Parse(input.data).value;
      output.data == Converted(hs).data && (done <==> hs == [] || AllAbove(hs[0].org, hs))
  {
    var buf := new byte[BUFSIZE](_ => 0);
    var maxseek := 0;
    ghost var hs := Parse(input.data).GetOr([]);
    ghost var whole := Parse(input.data).Some? && hs != [];
    ghost var (h, rest, goal) := (Hunk(0, []), [], Goal(Bin([], 0, 0), true));
    if whole {
      FirstHeader(input.data, hs);
      h, rest, goal := hs[0], hs[1..], Goal(Converted(hs), AllAbove(hs[0].org, hs));
    }
    var org := input.Getwlh();
    var base := org;
    var len := input.Getwlh();
    var more := true;
    done := true;
    while more
      invariant input.pos <= |input.data|
      invariant input.data == [] ==> output.data == [] && (if more then len == 0 else done)
      invariant more && whole ==>
        !input.eof && Reading(input.data, input.pos, Bin(output.data, output.pos, maxseek), h, rest, org, len, base, goal, 1)
      invariant !more && whole ==> Outcome(goal, output.data, done)
      decreases more, |input.data| - input.pos
    {
      maxseek := CopyStep(input, output, buf, org, len, base, maxseek, h, rest, goal);
      more, done, org, len, maxseek := HeaderStep(input, output, buf, base, maxseek, rest, goal);
      if more && rest != [] {
        h, rest := rest[0], rest[1..];
      }
    }
  }
}
