/** The random access format: hunks whose lengths are written after their data. */
module RasFormat {
  import opened Results
  import opened Files
  import opened GenerationSpec

  datatype Hunk = Hunk(org: nat, data: seq<byte>)

  // ----- the format -----

  function EncodeHunk(h: Hunk): seq<byte> { WordBytes(h.org) + WordBytes(|h.data|) + h.data }

  function Encode(hs: seq<Hunk>): seq<byte> {
    if hs == [] then [] else EncodeHunk(hs[0]) + Encode(hs[1..])
  }

  /** A reader of the format: origin, length, that many bytes, and so on to the end. */
  function Parse(file: seq<byte>): Option<seq<Hunk>>
    decreases |file|
  {
    if file == [] then Some([])
    else if |file| < 4 then None
    else
      var org, len := Word(file[0], file[1]), Word(file[2], file[3]);
      if |file| < 4 + len then None
      else
        match Parse(file[4 + len..])
        case None => None
        case Some(hs) => Some([Hunk(org, file[4..4 + len])] + hs)
  }

  predicate Fits(h: Hunk) { h.org < 0x1_0000 && |h.data| < 0x1_0000 }

  /** The four header bytes of an encoded hunk, and what follows them. */
  lemma HunkBytes(h: Hunk, rest: seq<byte>)
    requires Fits(h)
    ensures var file := EncodeHunk(h) + rest;
      && |file| == 4 + |h.data| + |rest|
      && Word(file[0], file[1]) == h.org && Word(file[2], file[3]) == |h.data|
      && file[4..4 + |h.data|] == h.data && file[4 + |h.data|..] == rest
  {
    var head := [Lo(h.org), Hi(h.org), Lo(|h.data|), Hi(|h.data|)];
    HunkText(h, rest);
    HeadAndTail(head, h.data, rest);
    HeaderBytes(EncodeHunk(h) + rest, head[0], head[1], head[2], head[3]);
    SmallWord(h.org);
    SmallWord(|h.data|);
  }

  lemma SmallWord(v: nat)
    requires v < 0x1_0000
    ensures Word(Lo(v), Hi(v)) == v
  {
    WordOfBytes(v);
  }

  lemma HeaderBytes(file: seq<byte>, a: byte, b: byte, c: byte, d: byte)
    requires 4 <= |file| && file[..4] == [a, b, c, d]
    ensures file[0] == a && file[1] == b && file[2] == c && file[3] == d
  {
    assert file[..4][0] == file[0] && file[..4][1] == file[1] && file[..4][2] == file[2] && file[..4][3] == file[3];
  }

  lemma HunkText(h: Hunk, rest: seq<byte>)
    ensures EncodeHunk(h) + rest == [Lo(h.org), Hi(h.org), Lo(|h.data|), Hi(|h.data|)] + (h.data + rest)
  {}

  lemma HeadAndTail(head: seq<byte>, data: seq<byte>, rest: seq<byte>)
    ensures var s := head + (data + rest); var n := |head| + |data|;
      && |s| == n + |rest| && s[..|head|] == head && s[|head|..n] == data && s[n..] == rest
  {
    var s := head + (data + rest);
    assert s[|head|..] == data + rest;
    assert s[|head|..|head| + |data|] == (data + rest)[..|data|];
    assert s[|head| + |data|..] == (data + rest)[|data|..];
  }

  lemma {:induction false} ParseEncode(hs: seq<Hunk>)
    requires forall h <- hs :: Fits(h)
    ensures Parse(Encode(hs)) == Some(hs)
  {
    if hs != [] {
      assert hs[0] in hs;
      HunkBytes(hs[0], Encode(hs[1..]));
      ParseEncode(hs[1..]);
      assert [hs[0]] + hs[1..] == hs;
    }
  }

  lemma {:induction false} ParsedFits(file: seq<byte>)
    decreases |file|
    ensures Parse(file).Some? ==> forall h <- Parse(file).value :: Fits(h)
  {
    if 4 <= |file| && 4 + Word(file[2], file[3]) <= |file| {
      ParsedFits(file[4 + Word(file[2], file[3])..]);
    }
  }

  /** What a reader positioned at a hunk finds there. */
  lemma NextHunk(data: seq<byte>, pos: nat, rest: seq<Hunk>)
    requires pos <= |data| && Parse(data[pos..]) == Some(rest)
    ensures rest == [] <==> pos == |data|
    ensures rest != [] ==>
      && pos + 4 + |rest[0].data| <= |data|
      && Word(data[pos], data[pos + 1]) == rest[0].org && Word(data[pos + 2], data[pos + 3]) == |rest[0].data|
      && data[pos + 4..pos + 4 + |rest[0].data|] == rest[0].data
      && Parse(data[pos + 4 + |rest[0].data|..]) == Some(rest[1..])
  {
    var file := data[pos..];
    if file != [] {
      var len := Word(file[2], file[3]);
      assert file[4..4 + len] == data[pos + 4..pos + 4 + len];
      assert file[4 + len..] == data[pos + 4 + len..];
    }
  }

  /** Sixteen-bit fields are the whole condition under which hunks survive being written. */
  lemma ReadableIffFits(hs: seq<Hunk>)
    ensures Parse(Encode(hs)) == Some(hs) <==> forall h <- hs :: Fits(h)
  {
    ParsedFits(Encode(hs));
    if forall h <- hs :: Fits(h) {
      ParseEncode(hs);
    }
  }

  lemma {:induction false} EncodeAppend(hs: seq<Hunk>, h: Hunk)
    ensures Encode(hs + [h]) == Encode(hs) + EncodeHunk(h)
  {
    if hs == [] {
      assert hs + [h] == [h] && [h][1..] == [];
      assert EncodeHunk(h) + [] == EncodeHunk(h);
    } else {
      assert (hs + [h])[1..] == hs[1..] + [h];
      EncodeAppend(hs[1..], h);
    }
  }

  // ----- what a run of emissions should put where -----

  function Placed(org: nat, data: seq<byte>): seq<(nat, byte)> { seq(|data|, i requires 0 <= i < |data| => (org + i, data[i])) }

  function PlacedHunks(hs: seq<Hunk>): seq<(nat, byte)> {
    if hs == [] then [] else Placed(hs[0].org, hs[0].data) + PlacedHunks(hs[1..])
  }

  /** Every byte of a run with its address, in the order emitted; uninitialised segments
      emit none. */
  function PlacedRun(es: seq<Emission>): seq<(nat, byte)> {
    if es == [] then []
    else (if es[0].bss then [] else Placed(es[0].org, es[0].bytes)) + PlacedRun(es[1..])
  }

  /** A run cut into hunks: an emission that continues the last one extends it. */
  function Extend(hs: seq<Hunk>, e: Emission): seq<Hunk> {
    if e.bss then hs
    else if hs != [] && End(hs[|hs| - 1]) == e.org then
      hs[..|hs| - 1] + [Hunk(hs[|hs| - 1].org, hs[|hs| - 1].data + e.bytes)]
    else hs + [Hunk(e.org, e.bytes)]
  }

  function End(h: Hunk): nat { h.org + |h.data| }

  function HunksOf(hs: seq<Hunk>, es: seq<Emission>): seq<Hunk>
    decreases |es|
  {
    if es == [] then hs else HunksOf(Extend(hs, es[0]), es[1..])
  }

  lemma {:induction false} PlacedAppend(hs: seq<Hunk>, h: Hunk)
    ensures PlacedHunks(hs + [h]) == PlacedHunks(hs) + Placed(h.org, h.data)
  {
    if hs == [] {
      assert hs + [h] == [h] && [h][1..] == [];
    } else {
      assert (hs + [h])[1..] == hs[1..] + [h];
      PlacedAppend(hs[1..], h);
    }
  }

  lemma ExtendPlaces(hs: seq<Hunk>, e: Emission)
    requires !e.bss
    ensures PlacedHunks(Extend(hs, e)) == PlacedHunks(hs) + Placed(e.org, e.bytes)
  {
    if hs != [] && End(hs[|hs| - 1]) == e.org {
      var init, last := hs[..|hs| - 1], hs[|hs| - 1];
      assert hs == init + [last];
      PlacedAppend(init, last);
      PlacedAppend(init, Hunk(last.org, last.data + e.bytes));
      assert Placed(last.org, last.data + e.bytes) == Placed(last.org, last.data) + Placed(e.org, e.bytes);
    } else {
      PlacedAppend(hs, Hunk(e.org, e.bytes));
    }
  }

  lemma {:induction false} HunksPlace(hs: seq<Hunk>, es: seq<Emission>)
    decreases |es|
    ensures PlacedHunks(HunksOf(hs, es)) == PlacedHunks(hs) + PlacedRun(es)
  {
    if es != [] {
      HunksPlace(Extend(hs, es[0]), es[1..]);
      if !es[0].bss {
        ExtendPlaces(hs, es[0]);
      }
    }
  }

  // ----- what generate keeps true of the file -----

  /** The file holds the hunks, the length of the last one still unwritten. */
  ghost predicate Holds(s: Sink, hs: seq<Hunk>) {
    s.redo == 0 &&
    if hs == [] then s.fisclear && s.data == []
    else
      var init, last := hs[..|hs| - 1], hs[|hs| - 1];
      && !s.fisclear
      && s.data == Encode(init) + WordBytes(last.org) + [0, 0] + last.data
      && s.seekback == |Encode(init)| + 2 && s.seglen == |last.data| && s.org == End(last)
  }

  /** Back-patching the length completes the encoding. */
  lemma PatchCompletes(s: Sink, hs: seq<Hunk>)
    requires Holds(s, hs) && hs != []
    ensures Overwrite(s.data, s.seekback, WordBytes(s.seglen)) == Encode(hs)
  {
    var init, last := hs[..|hs| - 1], hs[|hs| - 1];
    assert hs == init + [last];
    EncodeAppend(init, last);
    var front := Encode(init) + WordBytes(last.org);
    FourParts(Encode(init), WordBytes(last.org), [0, 0], last.data);
    OverwriteMiddle(front, [0, 0], WordBytes(s.seglen), last.data);
    FourParts(Encode(init), WordBytes(last.org), WordBytes(s.seglen), last.data);
  }

  lemma FourParts<T>(a: seq<T>, b: seq<T>, c: seq<T>, d: seq<T>)
    ensures a + b + c + d == (a + b) + (c + d) == a + (b + c + d)
  {}

  lemma OverwriteMiddle(front: seq<byte>, old': seq<byte>, new': seq<byte>, rest: seq<byte>)
    requires |old'| == |new'|
    ensures Overwrite(front + (old' + rest), |front|, new') == front + (new' + rest)
  {
    var data := front + (old' + rest);
    assert data[..|front|] == front && data[|front| + |new'|..] == rest;
  }

  lemma EmitHolds(fill: byte, s: Sink, hs: seq<Hunk>, e: Emission)
    requires Holds(s, hs) && !Refused(s, e)
    ensures Emit(Ras, fill, s, e).Ok? && Holds(Emit(Ras, fill, s, e).value, Extend(hs, e))
  {
    if !e.bss {
      var s' := Emit(Ras, fill, s, e).value;
      if hs != [] && End(hs[|hs| - 1]) == e.org {
        var init, last := hs[..|hs| - 1], hs[|hs| - 1];
        assert Extend(hs, e)[..|hs| - 1] == init;
        assert s'.data == Encode(init) + WordBytes(last.org) + [0, 0] + (last.data + e.bytes);
      } else {
        if hs != [] {
          PatchCompletes(s, hs);
        }
        assert Extend(hs, e)[..|hs|] == hs;
        assert s'.data == Encode(hs) + WordBytes(e.org) + [0, 0] + e.bytes;
      }
    }
  }

  /** The first byte of the run has a known origin. */
  predicate StartsKnown(es: seq<Emission>) {
    es == [] || if es[0].bss then StartsKnown(es[1..]) else !es[0].unknown
  }

  lemma {:induction false} RunHolds(fill: byte, s: Sink, hs: seq<Hunk>, es: seq<Emission>)
    requires Holds(s, hs) && (hs == [] ==> StartsKnown(es))
    decreases |es|
    ensures EmitAll(Ras, fill, s, es).Ok? && Holds(EmitAll(Ras, fill, s, es).value, HunksOf(hs, es))
  {
    if es != [] {
      EmitHolds(fill, s, hs, es[0]);
      RunHolds(fill, Emit(Ras, fill, s, es[0]).value, Extend(hs, es[0]), es[1..]);
    }
  }

  lemma {:induction false} SomeHunk(hs: seq<Hunk>, es: seq<Emission>)
    requires hs != [] || exists e <- es :: !e.bss
    decreases |es|
    ensures HunksOf(hs, es) != []
  {
    if es != [] {
      SomeHunk(Extend(hs, es[0]), es[1..]);
    }
  }

  /** The whole file of a run is the encoding of its hunks. */
  lemma RasFile(fill: byte, es: seq<Emission>)
    requires StartsKnown(es) && exists e <- es :: !e.bss
    ensures EmitAll(Ras, fill, FRESH, es).Ok?
    ensures Close(Ras, EmitAll(Ras, fill, FRESH, es).value).data == Encode(HunksOf([], es))
  {
    RunHolds(fill, FRESH, [], es);
    SomeHunk([], es);
    PatchCompletes(EmitAll(Ras, fill, FRESH, es).value, HunksOf([], es));
  }

  /** Reading the file back gives every emitted byte at its address, in order, although
      each length was written by seeking back over the hunk. */
  lemma RasRoundTrip(fill: byte, es: seq<Emission>)
    requires StartsKnown(es) && exists e <- es :: !e.bss
    requires forall h <- HunksOf([], es) :: Fits(h)
    ensures EmitAll(Ras, fill, FRESH, es).Ok?
    ensures
      var file := Close(Ras, EmitAll(Ras, fill, FRESH, es).value).data;
      Parse(file).Some? && PlacedHunks(Parse(file).value) == PlacedRun(es)
  {
    RasFile(fill, es);
    ParseEncode(HunksOf([], es));
    HunksPlace([], es);
    assert PlacedHunks([]) + PlacedRun(es) == PlacedRun(es);
  }
}
