/** The memory image that hunks and emissions describe, and what ftobin makes of hunks. */
module BinaryImage {
  import opened Results
  import opened Files
  import opened GenerationSpec
  import opened RasFormat

  const FILL: byte := 255

  // ----- the image -----

  /** Bytes laid over an image at an offset; untouched bytes before it read as the fill. */
  function Lay(image: seq<byte>, at: nat, bytes: seq<byte>): seq<byte> {
    var padded := if |image| < at then image + Repeat(FILL, at - |image|) else image;
    Overwrite(padded, at, bytes)
  }

  function Offset(base: nat, org: nat): nat { if base <= org then org - base else 0 }

  /** Hunks laid down in order, later ones over earlier ones. */
  function Image(image: seq<byte>, base: nat, hs: seq<Hunk>): seq<byte>
    decreases |hs|
  {
    if hs == [] then image else Image(Lay(image, Offset(base, hs[0].org), hs[0].data), base, hs[1..])
  }

  /** Emissions of initialised segments laid down in order. */
  function RunImage(image: seq<byte>, base: nat, es: seq<Emission>): seq<byte>
    decreases |es|
  {
    if es == [] then image
    else RunImage(if es[0].bss then image else Lay(image, Offset(base, es[0].org), es[0].bytes), base, es[1..])
  }

  // ----- ftobin on hunks -----

  /** The output file, the position in it, and the furthest offset written. */
  datatype Bin = Bin(data: seq<byte>, pos: nat, maxseek: nat)

  function Copied(b: Bin, bytes: seq<byte>): Bin {
    b.(data := Overwrite(b.data, b.pos, bytes), pos := b.pos + |bytes|)
  }

  /** `org` has sixteen bits, so the end of a hunk is taken modulo 65536. */
  function Noted(b: Bin, base: nat, end: nat): Bin {
    var reached := end % 0x1_0000 - base;
    if b.maxseek < reached then b.(maxseek := reached) else b
  }

  /** The gap before offset `at` is filled from wherever the file is positioned. */
  function Moved(b: Bin, at: nat): Bin {
    if b.maxseek < at then
      Bin(Overwrite(b.data, b.pos, Repeat(FILL, at - b.maxseek)), at, at)
    else b.(pos := at)
  }

  /** One hunk: the gap, the data, and the new end. */
  function Placed(b: Bin, base: nat, h: Hunk): Bin
    requires base <= h.org
  {
    Noted(Copied(Moved(b, h.org - base), h.data), base, End(h))
  }

  function Rest(b: Bin, base: nat, hs: seq<Hunk>): Bin
    decreases |hs|
  {
    if hs == [] || hs[0].org < base then b else Rest(Placed(b, base, hs[0]), base, hs[1..])
  }

  function Converted(hs: seq<Hunk>): Bin {
    if hs == [] then Bin([], 0, 0)
    else Rest(Noted(Copied(Bin([], 0, 0), hs[0].data), hs[0].org, End(hs[0])), hs[0].org, hs[1..])
  }

  /** A hunk that opens a gap comes right after one that ended at the end of the image;
      `end` is where the previous hunk stopped, `len` the length of the image. */
  predicate Orderly(base: nat, end: nat, len: nat, hs: seq<Hunk>)
    decreases |hs|
  {
    hs == [] ||
    (var at := hs[0].org - base;
     var stop := at + |hs[0].data|;
     && base <= hs[0].org && End(hs[0]) < 0x1_0000
     && (len < at ==> end == len)
     && Orderly(base, stop, if len < stop then stop else len, hs[1..]))
  }

  lemma OverwriteAtEnd(data: seq<byte>, bytes: seq<byte>)
    ensures Overwrite(data, |data|, bytes) == data + bytes
  {}

  /** The file is as long as what was written, and positioned inside it. */
  predicate Even(b: Bin) { b.maxseek == |b.data| && b.pos <= |b.data| }

  /** The hunk opens a gap that is filled from inside the image. */
  predicate FillsOver(b: Bin, base: nat, h: Hunk) { |b.data| < h.org - base && b.pos < |b.data| }

  /** One hunk is laid down right exactly if it opens no gap from inside the image; if it
      does, the byte before it is 0, not the fill. */
  lemma OneHunk(b: Bin, base: nat, h: Hunk)
    requires Even(b) && base <= h.org && End(h) < 0x1_0000
    ensures Placed(b, base, h).data == Lay(b.data, h.org - base, h.data) <==> !FillsOver(b, base, h)
    ensures h.data != [] && FillsOver(b, base, h) ==> h.org - base <= |Placed(b, base, h).data|
    ensures h.data != [] && FillsOver(b, base, h) ==> Placed(b, base, h).data[h.org - base - 1] == 0
    ensures |b.data| < h.org - base ==> Lay(b.data, h.org - base, h.data)[h.org - base - 1] == FILL
  {
    var at := h.org - base;
    if |b.data| < at && b.pos == |b.data| {
      OverwriteAtEnd(b.data, Repeat(FILL, at - |b.data|));
    }
    if FillsOver(b, base, h) {
      assert |Moved(b, at).data| < at;
      assert h.data != [] ==> Placed(b, base, h).data[at - 1] == 0;
    }
  }

  lemma PlacedEven(b: Bin, base: nat, h: Hunk)
    requires Even(b) && base <= h.org && End(h) < 0x1_0000 && (h.data != [] || !FillsOver(b, base, h))
    ensures
      var b' := Placed(b, base, h);
      && Even(b') && b'.pos == End(h) - base
      && |b'.data| == if |b.data| < End(h) - base then End(h) - base else |b.data|
  {}

  lemma {:induction false} RestIsImage(b: Bin, base: nat, hs: seq<Hunk>)
    requires Even(b) && Orderly(base, b.pos, |b.data|, hs)
    decreases |hs|
    ensures Rest(b, base, hs).data == Image(b.data, base, hs)
  {
    if hs != [] {
      var b' := OrderlyNext(b, base, hs);
      RestIsImage(b', base, hs[1..]);
    }
  }

  lemma OrderlyNext(b: Bin, base: nat, hs: seq<Hunk>) returns (b': Bin)
    requires hs != [] && Even(b) && Orderly(base, b.pos, |b.data|, hs)
    ensures Even(b') && Orderly(base, b'.pos, |b'.data|, hs[1..])
    ensures Rest(b, base, hs) == Rest(b', base, hs[1..]) && Image(b.data, base, hs) == Image(b'.data, base, hs[1..])
  {
    b' := Placed(b, base, hs[0]);
    OneHunk(b, base, hs[0]);
    PlacedEven(b, base, hs[0]);
  }

  /** ftobin builds the image whenever no gap has to be filled from the middle of it, so in
      particular for hunks that go back to patch earlier bytes last. */
  lemma ConvertedIsImage(hs: seq<Hunk>)
    requires hs != [] && End(hs[0]) < 0x1_0000
    requires Orderly(hs[0].org, |hs[0].data|, |hs[0].data|, hs[1..])
    ensures Converted(hs).data == Image([], hs[0].org, hs)
  {
    var b := Noted(Copied(Bin([], 0, 0), hs[0].data), hs[0].org, End(hs[0]));
    OverwriteAtEnd([], hs[0].data);
    assert [] + hs[0].data == hs[0].data;
    RestIsImage(b, hs[0].org, hs[1..]);
  }

  // ----- and exactly when -----

  predicate Covers(h: Hunk, address: nat) { h.org <= address < End(h) }

  predicate Skips(base: nat, hs: seq<Hunk>, address: nat) {
    hs == [] || (base <= hs[0].org && !Covers(hs[0], address) && Skips(base, hs[1..], address))
  }

  /** No hunk comes back to the byte before a gap-opening one. */
  predicate GapsStay(base: nat, len: nat, hs: seq<Hunk>)
    decreases |hs|
  {
    hs == [] ||
    (&& base <= hs[0].org && End(hs[0]) < 0x1_0000 && hs[0].data != []
     && (base + len < hs[0].org ==> Skips(base, hs[1..], hs[0].org - 1))
     && GapsStay(base, if base + len < End(hs[0]) then End(hs[0]) - base else len, hs[1..]))
  }

  lemma {:induction false} ImageKeeps(image: seq<byte>, base: nat, hs: seq<Hunk>, i: nat)
    requires i < |image| && Skips(base, hs, base + i)
    decreases |hs|
    ensures i < |Image(image, base, hs)| && Image(image, base, hs)[i] == image[i]
  {
    if hs != [] {
      ImageKeeps(Lay(image, Offset(base, hs[0].org), hs[0].data), base, hs[1..], i);
    }
  }

  /** A byte that file and image disagree on stays wrong if no later hunk covers it. */
  lemma DifferenceStays(b: Bin, image: seq<byte>, base: nat, hs: seq<Hunk>, i: nat)
    requires Even(b) && Orderly(base, b.pos, |b.data|, hs) && Skips(base, hs, base + i)
    requires i < |image| && i < |b.data| && b.data[i] != image[i]
    ensures Rest(b, base, hs).data != Image(image, base, hs)
  {
    RestIsImage(b, base, hs);
    ImageKeeps(b.data, base, hs, i);
    ImageKeeps(image, base, hs, i);
  }

  /** One hunk on the file and on an image as long as it. */
  lemma SideBySide(b: Bin, image: seq<byte>, base: nat, h: Hunk) returns (b': Bin, image': seq<byte>)
    requires Even(b) && |image| == |b.data| && base <= h.org && End(h) < 0x1_0000 && h.data != []
    ensures b' == Placed(b, base, h) && image' == Lay(image, Offset(base, h.org), h.data)
    ensures Even(b') && |image'| == |b'.data| && b'.pos == End(h) - base
    ensures |b'.data| == if base + |b.data| < End(h) then End(h) - base else |b.data|
    ensures FillsOver(b, base, h) ==>
      h.org - base <= |b'.data| && b'.data[h.org - base - 1] == 0 && image'[h.org - base - 1] == FILL
  {
    b', image' := Placed(b, base, h), Lay(image, Offset(base, h.org), h.data);
    PlacedEven(b, base, h);
    OneHunk(b, base, h);
    OneHunk(Bin(image, |image|, |image|), base, h);
  }

  /** The byte before the last hunk that fills over the image stays wrong, whatever the
      image and the file held before. */
  lemma {:induction false} LastGapShows(b: Bin, image: seq<byte>, base: nat, hs: seq<Hunk>)
    requires Even(b) && |image| == |b.data| && GapsStay(base, |b.data|, hs)
    requires !Orderly(base, b.pos, |b.data|, hs)
    decreases |hs|
    ensures Rest(b, base, hs).data != Image(image, base, hs)
  {
    var h := hs[0];
    var b', image' := SideBySide(b, image, base, h);
    if Orderly(base, b'.pos, |b'.data|, hs[1..]) {
      DifferenceStays(b', image', base, hs[1..], h.org - base - 1);
    } else {
      LastGapShows(b', image', base, hs[1..]);
    }
  }

  /** Where no hunk comes back to the byte before a gap, ftobin builds the image exactly if
      no gap is opened from inside the image. */
  lemma ConvertedIffOrderly(hs: seq<Hunk>)
    requires hs != [] && hs[0].data != [] && End(hs[0]) < 0x1_0000 && GapsStay(hs[0].org, |hs[0].data|, hs[1..])
    ensures Converted(hs).data == Image([], hs[0].org, hs) <==> Orderly(hs[0].org, |hs[0].data|, |hs[0].data|, hs[1..])
  {
    var b := Noted(Copied(Bin([], 0, 0), hs[0].data), hs[0].org, End(hs[0]));
    OverwriteAtEnd([], hs[0].data);
    assert [] + hs[0].data == hs[0].data;
    if Orderly(hs[0].org, |hs[0].data|, |hs[0].data|, hs[1..]) {
      RestIsImage(b, hs[0].org, hs[1..]);
    } else {
      LastGapShows(b, b.data, hs[0].org, hs[1..]);
    }
  }

  /** Going back and then opening a gap is not orderly, and there ftobin fills over bytes
      already written. */
  lemma FillFromTheMiddle()
    ensures
      var hs := [Hunk(0, [1, 2, 3]), Hunk(0, [9]), Hunk(5, [4])];
      Converted(hs).data == [9, 255, 255, 0, 0, 4] && Image([], 0, hs) == [9, 2, 3, 255, 255, 4]
  {
    ThreeHunks([]);
    assert [Hunk(0, [1, 2, 3]), Hunk(0, [9]), Hunk(5, [4])] + []
      == [Hunk(0, [1, 2, 3]), Hunk(0, [9]), Hunk(5, [4])];
  }

  /** A later hunk over all the wrong bytes puts them right. */
  lemma CoveredGap()
    ensures
      var hs := [Hunk(0, [1, 2, 3]), Hunk(0, [9]), Hunk(5, [4]), Hunk(0, [5, 6, 7, 8, 9])];
      Converted(hs).data == [5, 6, 7, 8, 9, 4] == Image([], 0, hs)
  {
    var last := Hunk(0, [5, 6, 7, 8, 9]);
    ThreeHunks([last]);
    assert [Hunk(0, [1, 2, 3]), Hunk(0, [9]), Hunk(5, [4])] + [last]
      == [Hunk(0, [1, 2, 3]), Hunk(0, [9]), Hunk(5, [4]), last];
    assert [last][1..] == [];
    assert Placed(Bin([9, 255, 255, 0, 0, 4], 6, 6), 0, last).data == [5, 6, 7, 8, 9, 4];
    assert Lay([9, 2, 3, 255, 255, 4], 0, last.data) == [5, 6, 7, 8, 9, 4];
  }

  /** The end of a hunk is noted in sixteen bits: behind one that passes 65535 bytes already
      written count as a gap, and a fill byte too many is left at the end. */
  lemma PastSixteenBits()
    ensures
      var hs := [Hunk(65534, [1, 2, 3]), Hunk(65535, [9])];
      Converted(hs).data == [1, 9, 3, 255] && Image([], 65534, hs) == [1, 9, 3]
  {
    var first, second := Hunk(65534, [1, 2, 3]), Hunk(65535, [9]);
    assert [first, second][1..] == [second] && [second][1..] == [];
    assert Noted(Copied(Bin([], 0, 0), first.data), 65534, End(first)) == Bin([1, 2, 3], 3, 0);
    assert Moved(Bin([1, 2, 3], 3, 0), 1) == Bin([1, 2, 3, 255], 1, 1);
    assert Placed(Bin([1, 2, 3], 3, 0), 65534, second).data == [1, 9, 3, 255];
    assert Lay([], 0, first.data) == [1, 2, 3] && Lay([1, 2, 3], 1, second.data) == [1, 9, 3];
    assert Rest(Bin([1, 2, 3], 3, 0), 65534, [second]) == Rest(Placed(Bin([1, 2, 3], 3, 0), 65534, second), 65534, []);
    assert Image([], 65534, [first, second]) == Image([1, 2, 3], 65534, [second]) == Image([1, 9, 3], 65534, []);
  }

  lemma ThreeHunks(hs: seq<Hunk>)
    ensures
      var all := [Hunk(0, [1, 2, 3]), Hunk(0, [9]), Hunk(5, [4])] + hs;
      && Converted(all) == Rest(Bin([9, 255, 255, 0, 0, 4], 6, 6), 0, hs)
      && Image([], 0, all) == Image([9, 2, 3, 255, 255, 4], 0, hs)
  {
    var (h0, h1, h2) := (Hunk(0, [1, 2, 3]), Hunk(0, [9]), Hunk(5, [4]));
    assert [h0, h1, h2] + hs == [h0] + ([h1] + ([h2] + hs));
    SmallSteps();
    HunkPlaced(Bin([1, 2, 3], 3, 3), [], h0, [h1] + ([h2] + hs));
    HunkPlaced(Bin([1, 2, 3], 3, 3), [1, 2, 3], h1, [h2] + hs);
    HunkPlaced(Bin([9, 2, 3], 1, 3), [9, 2, 3], h2, hs);
    FirstOfAll(h0, [h1] + ([h2] + hs));
  }

  lemma FirstOfAll(h: Hunk, hs: seq<Hunk>)
    ensures Converted([h] + hs) == Rest(Noted(Copied(Bin([], 0, 0), h.data), h.org, End(h)), h.org, hs)
  {
    assert ([h] + hs)[1..] == hs;
  }

  lemma HunkPlaced(b: Bin, image: seq<byte>, h: Hunk, hs: seq<Hunk>)
    ensures Rest(b, 0, [h] + hs) == Rest(Placed(b, 0, h), 0, hs)
    ensures Image(image, 0, [h] + hs) == Image(Lay(image, h.org, h.data), 0, hs)
  {
    assert ([h] + hs)[1..] == hs;
  }

  lemma SmallSteps()
    ensures Noted(Copied(Bin([], 0, 0), [1, 2, 3]), 0, 3) == Bin([1, 2, 3], 3, 3)
    ensures Placed(Bin([1, 2, 3], 3, 3), 0, Hunk(0, [9])) == Bin([9, 2, 3], 1, 3)
    ensures Placed(Bin([9, 2, 3], 1, 3), 0, Hunk(5, [4])) == Bin([9, 255, 255, 0, 0, 4], 6, 6)
    ensures Lay([], 0, [1, 2, 3]) == [1, 2, 3]
    ensures Lay([1, 2, 3], 0, [9]) == [9, 2, 3]
    ensures Lay([9, 2, 3], 5, [4]) == [9, 2, 3, 255, 255, 4]
  {
    assert Moved(Bin([9, 2, 3], 1, 3), 5) == Bin([9, 255, 255], 5, 5);
  }

  // ----- one image by two routes -----

  /** Emitting in pieces lays down the same bytes as emitting at once. */
  lemma LayInPieces(image: seq<byte>, at: nat, a: seq<byte>, b: seq<byte>)
    ensures Lay(Lay(image, at, a), at + |a|, b) == Lay(image, at, a + b)
  {
    if a == [] {
      assert a + b == b;
    } else if b == [] {
      assert a + b == a;
    }
  }

  lemma {:induction false} ImageAppend(image: seq<byte>, base: nat, hs: seq<Hunk>, h: Hunk)
    decreases |hs|
    ensures Image(image, base, hs + [h]) == Lay(Image(image, base, hs), Offset(base, h.org), h.data)
  {
    if hs == [] {
      assert hs + [h] == [h] && [h][1..] == [];
    } else {
      assert (hs + [h])[1..] == hs[1..] + [h];
      ImageAppend(Lay(image, Offset(base, hs[0].org), hs[0].data), base, hs[1..], h);
    }
  }

  ghost predicate AllAbove(base: nat, hs: seq<Hunk>) { forall h <- hs :: base <= h.org }

  lemma ExtendImage(image: seq<byte>, base: nat, hs: seq<Hunk>, e: Emission)
    requires !e.bss && AllAbove(base, hs) && base <= e.org
    ensures AllAbove(base, Extend(hs, e))
    ensures Image(image, base, Extend(hs, e)) == Lay(Image(image, base, hs), Offset(base, e.org), e.bytes)
  {
    if hs != [] && End(hs[|hs| - 1]) == e.org {
      var init, last := hs[..|hs| - 1], hs[|hs| - 1];
      assert hs == init + [last] && last in hs && forall h <- init :: h in hs;
      ExtendLast(image, base, init, last, e.bytes);
    } else {
      ImageAppend(image, base, hs, Hunk(e.org, e.bytes));
    }
  }

  lemma ExtendLast(image: seq<byte>, base: nat, init: seq<Hunk>, last: Hunk, bytes: seq<byte>)
    requires AllAbove(base, init) && base <= last.org
    ensures Image(image, base, init + [Hunk(last.org, last.data + bytes)])
      == Lay(Image(image, base, init + [last]), Offset(base, End(last)), bytes)
  {
    ImageAppend(image, base, init, last);
    ImageAppend(image, base, init, Hunk(last.org, last.data + bytes));
    LayInPieces(Image(image, base, init), Offset(base, last.org), last.data, bytes);
  }

  /** Cutting a run into hunks does not change its image. */
  lemma {:induction false} HunksImage(image: seq<byte>, base: nat, hs: seq<Hunk>, es: seq<Emission>)
    requires AllAbove(base, hs)
    requires forall e <- es :: e.bss || base <= e.org
    decreases |es|
    ensures Image(image, base, HunksOf(hs, es)) == RunImage(Image(image, base, hs), base, es)
  {
    if es != [] {
      assert es[0] in es;
      if !es[0].bss {
        ExtendImage(image, base, hs, es[0]);
      }
      HunksImage(image, base, Extend(hs, es[0]), es[1..]);
    }
  }

  /** Initialised output with an ascending address, ending below 65536. */
  predicate Ascending(end: nat, es: seq<Emission>)
    decreases |es|
  {
    es == [] ||
    if es[0].bss then Ascending(end, es[1..])
    else end <= es[0].org && es[0].org + |es[0].bytes| < 0x1_0000 && Ascending(es[0].org + |es[0].bytes|, es[1..])
  }

  predicate AscendingHunks(end: nat, hs: seq<Hunk>)
    decreases |hs|
  {
    hs == [] || (end <= hs[0].org && End(hs[0]) < 0x1_0000 && AscendingHunks(End(hs[0]), hs[1..]))
  }

  lemma {:induction false} AscendingAppend(end: nat, hs: seq<Hunk>, h: Hunk)
    decreases |hs|
    ensures AscendingHunks(end, hs + [h]) <==>
      AscendingHunks(end, hs) && (if hs == [] then end else End(hs[|hs| - 1])) <= h.org && End(h) < 0x1_0000
  {
    if hs == [] {
      assert hs + [h] == [h] && [h][1..] == [];
    } else {
      assert (hs + [h])[1..] == hs[1..] + [h];
      AscendingAppend(End(hs[0]), hs[1..], h);
    }
  }

  lemma {:induction false} AscendingCut(end: nat, hs: seq<Hunk>, es: seq<Emission>)
    requires AscendingHunks(end, hs) && Ascending(if hs == [] then end else End(hs[|hs| - 1]), es)
    decreases |es|
    ensures AscendingHunks(end, HunksOf(hs, es))
  {
    if es != [] {
      var e := es[0];
      if !e.bss {
        if hs != [] && End(hs[|hs| - 1]) == e.org {
          var init, last := hs[..|hs| - 1], hs[|hs| - 1];
          assert hs == init + [last];
          AscendingAppend(end, init, last);
          AscendingAppend(end, init, Hunk(last.org, last.data + e.bytes));
        } else {
          AscendingAppend(end, hs, Hunk(e.org, e.bytes));
        }
      }
      AscendingCut(end, Extend(hs, e), es[1..]);
    }
  }

  lemma {:induction false} AscendingOrderly(base: nat, end: nat, hs: seq<Hunk>)
    requires AscendingHunks(base + end, hs)
    decreases |hs|
    ensures Orderly(base, end, end, hs)
    ensures forall h <- hs :: base <= h.org && Fits(h)
  {
    if hs != [] {
      AscendingOrderly(base, End(hs[0]) - base, hs[1..]);
    }
  }

  lemma {:induction false} AscendingAbove(end: nat, es: seq<Emission>)
    requires Ascending(end, es)
    decreases |es|
    ensures forall e <- es :: e.bss || end <= e.org
  {
    if es != [] {
      AscendingAbove(if es[0].bss then end else es[0].org + |es[0].bytes|, es[1..]);
    }
  }

  /** In the raw format generate writes the image itself. */
  lemma {:induction false} RawIsImage(s: Sink, base: nat, es: seq<Emission>)
    requires s.redo == 0 && !s.fisclear && base + |s.data| == s.org && Ascending(s.org, es)
    requires forall e <- es :: e.bss || base <= e.org
    decreases |es|
    ensures EmitAll(Raw, FILL, s, es).Ok? && EmitAll(Raw, FILL, s, es).value.data == RunImage(s.data, base, es)
  {
    if es != [] {
      var e := es[0];
      if e.bss {
        RawIsImage(s, base, es[1..]);
      } else {
        var s' := Emit(Raw, FILL, s, e).value;
        assert s'.data == Lay(s.data, e.org - base, e.bytes);
        RawIsImage(s', base, es[1..]);
      }
    }
  }

  lemma {:induction false} RawFromStart(base: nat, es: seq<Emission>)
    requires StartsKnown(es) && Ascending(base, es)
    requires FirstOrg(es) == Some(base)
    decreases |es|
    ensures EmitAll(Raw, FILL, FRESH, es).Ok?
    ensures forall e <- es :: e.bss || base <= e.org
    ensures EmitAll(Raw, FILL, FRESH, es).value.data == RunImage([], base, es)
  {
    AscendingAbove(base, es);
    if es[0].bss {
      RawFromStart(base, es[1..]);
    } else {
      var s' := Emit(Raw, FILL, FRESH, es[0]).value;
      assert s'.data == es[0].bytes == Lay([], 0, es[0].bytes);
      RawIsImage(s', base, es[1..]);
    }
  }

  /** The origin of the first initialised output. */
  function FirstOrg(es: seq<Emission>): Option<nat> {
    if es == [] then None else if es[0].bss then FirstOrg(es[1..]) else Some(es[0].org)
  }

  lemma {:induction false} FirstHunk(hs: seq<Hunk>, es: seq<Emission>)
    requires if hs == [] then FirstOrg(es).Some? else true
    decreases |es|
    ensures HunksOf(hs, es) != []
    ensures HunksOf(hs, es)[0].org == if hs == [] then FirstOrg(es).value else hs[0].org
  {
    if es != [] {
      FirstHunk(Extend(hs, es[0]), es[1..]);
    }
  }

  lemma {:induction false} FirstEmits(es: seq<Emission>)
    requires FirstOrg(es).Some?
    ensures exists e <- es :: !e.bss
  {
    if es[0].bss {
      FirstEmits(es[1..]);
      var e :| e in es[1..] && !e.bss;
      assert e in es;
    } else {
      assert es[0] in es;
    }
  }

  /** For ascending output below 65536, converting the RAS file gives byte for byte the
      file generate writes in the raw format with its default fill. */
  lemma TwoRoutes(es: seq<Emission>)
    requires FirstOrg(es).Some? && StartsKnown(es) && Ascending(FirstOrg(es).value, es)
    ensures EmitAll(Ras, FILL, FRESH, es).Ok? && EmitAll(Raw, FILL, FRESH, es).Ok?
    ensures
      var ras := Close(Ras, EmitAll(Ras, FILL, FRESH, es).value).data;
      var raw := Close(Raw, EmitAll(Raw, FILL, FRESH, es).value).data;
      Parse(ras).Some? && Converted(Parse(ras).value).data == raw
  {
    var base, hs := FirstOrg(es).value, HunksOf([], es);
    FirstEmits(es);
    RasFile(FILL, es);
    RawFromStart(base, es);
    AscendingCut(base, [], es);
    FirstHunk([], es);
    AscendingOrderly(base, 0, hs);
    AscendingOrderly(base, |hs[0].data|, hs[1..]);
    ParseEncode(hs);
    ConvertedIsImage(hs);
    HunksImage([], base, [], es);
  }
}
