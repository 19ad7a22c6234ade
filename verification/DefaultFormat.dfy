/** The default format, an origin and then the data, against the raw format, and what the
    conversions make of it. */
module DefaultFormat {
  import opened Results
  import opened Files
  import opened GenerationSpec
  import opened RasFormat
  import opened BinaryImage
  import X = IntelHex
  import H = Ftohex

  // ----- the file -----

  /** The two files are in the same state, but for the bytes in front of the first. */
  predicate Headed(d: Sink, r: Sink, front: seq<byte>) {
    d.redo == r.redo && d.fisclear == r.fisclear && d.org == r.org && d.data == front + r.data
  }

  ghost predicate SideBySide(d: Result<Sink>, r: Result<Sink>, front: seq<byte>) {
    match r
    case Ok(s) => d.Ok? && Headed(d.value, s, front)
    case e => d == e
  }

  lemma HeadedEmit(fill: byte, d: Sink, r: Sink, front: seq<byte>, e: Emission)
    requires Headed(d, r, front) && !r.fisclear
    ensures SideBySide(Emit(Default, fill, d, e), Emit(Raw, fill, r, e), front)
    ensures Emit(Raw, fill, r, e).Ok? ==> !Emit(Raw, fill, r, e).value.fisclear
  {
    if r.redo == 0 && !e.bss && r.org <= e.org {
      var gap := Repeat(fill, e.org - r.org);
      assert front + r.data + gap + e.bytes == front + (r.data + gap + e.bytes);
    }
  }

  lemma {:induction false} HeadedRun(fill: byte, d: Sink, r: Sink, front: seq<byte>, es: seq<Emission>)
    requires Headed(d, r, front) && !r.fisclear
    decreases |es|
    ensures SideBySide(EmitAll(Default, fill, d, es), EmitAll(Raw, fill, r, es), front)
  {
    if es != [] {
      HeadedEmit(fill, d, r, front, es[0]);
      if Emit(Raw, fill, r, es[0]).Ok? {
        HeadedRun(fill, Emit(Default, fill, d, es[0]).value, Emit(Raw, fill, r, es[0]).value, front, es[1..]);
      }
    }
  }

  lemma {:induction false} FromStart(fill: byte, es: seq<Emission>)
    requires FirstOrg(es).Some? && StartsKnown(es)
    decreases |es|
    ensures SideBySide(EmitAll(Default, fill, FRESH, es), EmitAll(Raw, fill, FRESH, es), WordBytes(FirstOrg(es).value))
  {
    var e := es[0];
    if e.bss {
      FromStart(fill, es[1..]);
    } else {
      assert WordBytes(e.org) + Repeat(fill, 0) + e.bytes == WordBytes(e.org) + (Repeat(fill, 0) + e.bytes);
      HeadedRun(fill, Emit(Default, fill, FRESH, e).value, Emit(Raw, fill, FRESH, e).value, WordBytes(e.org), es[1..]);
    }
  }

  /** The file of a run in the default format: it goes through where the raw format does, and is
      the little-endian origin of the first initialised output and then the raw file. */
  lemma DefaultReadsBack(fill: byte, es: seq<Emission>)
    requires FirstOrg(es).Some? && StartsKnown(es) && FirstOrg(es).value < 0x1_0000
    ensures EmitAll(Default, fill, FRESH, es).Ok? <==> EmitAll(Raw, fill, FRESH, es).Ok?
    ensures EmitAll(Default, fill, FRESH, es).Ok? ==>
      var file := Close(Default, EmitAll(Default, fill, FRESH, es).value).data;
      && 2 <= |file| && Word(file[0], file[1]) == FirstOrg(es).value
      && file[2..] == Close(Raw, EmitAll(Raw, fill, FRESH, es).value).data
  {
    FromStart(fill, es);
    WordOfBytes(FirstOrg(es).value);
  }

  // ----- every byte at its address -----

  /** `image`, from address base + start on, holds these bytes, and else the fill. */
  ghost predicate Shows(image: seq<byte>, base: nat, start: nat, ps: seq<(nat, byte)>, fill: byte) {
    && (forall p <- ps :: base + start <= p.0 < base + |image| && image[p.0 - base] == p.1)
    && (forall i | start <= i < |image| :: image[i] == fill || (base + i, image[i]) in ps)
  }

  lemma ShowsMore(image: seq<byte>, base: nat, start: nat, e: Emission, ps: seq<(nat, byte)>, fill: byte)
    requires base + start <= e.org && e.org - base + |e.bytes| <= |image|
    requires image[start..e.org - base] == Repeat(fill, e.org - base - start)
    requires image[e.org - base..e.org - base + |e.bytes|] == e.bytes
    requires Shows(image, base, e.org - base + |e.bytes|, ps, fill)
    ensures Shows(image, base, start, RasFormat.Placed(e.org, e.bytes) + ps, fill)
  {
    var at := e.org - base;
    var placed := RasFormat.Placed(e.org, e.bytes);
    forall i | start <= i < |image| ensures image[i] == fill || (base + i, image[i]) in placed + ps {
      if i < at {
        assert image[start..at][i - start] == fill;
      } else if i < at + |e.bytes| {
        assert image[at..at + |e.bytes|][i - at] == image[i];
        assert placed[i - at] == (base + i, image[i]);
      }
    }
    forall p <- placed ensures base + start <= p.0 < base + |image| && image[p.0 - base] == p.1 {
      var k :| 0 <= k < |placed| && placed[k] == p;
      assert image[at..at + |e.bytes|][k] == image[at + k];
    }
  }

  lemma ShowsFirst(image: seq<byte>, e: Emission, ps: seq<(nat, byte)>, fill: byte)
    requires e.bytes <= image && Shows(image, e.org, |e.bytes|, ps, fill)
    ensures Shows(image, e.org, 0, RasFormat.Placed(e.org, e.bytes) + ps, fill)
  {
    assert image[0..0] == Repeat(fill, 0) && image[0..|e.bytes|] == e.bytes;
    ShowsMore(image, e.org, 0, e, ps, fill);
  }

  /** The raw file, from what is written so far. */
  lemma {:induction false} RawShows(fill: byte, s: Sink, base: nat, es: seq<Emission>)
    requires s.redo == 0 && !s.fisclear && s.org == base + |s.data| && EmitAll(Raw, fill, s, es).Ok?
    decreases |es|
    ensures
      var image := EmitAll(Raw, fill, s, es).value.data;
      s.data <= image && Shows(image, base, |s.data|, PlacedRun(es), fill)
  {
    if es != [] {
      var e, image := es[0], EmitAll(Raw, fill, s, es).value.data;
      var s1 := Emit(Raw, fill, s, e).value;
      RawShows(fill, s1, base, es[1..]);
      if e.bss {
        assert [] + PlacedRun(es[1..]) == PlacedRun(es[1..]);
      } else {
        var at, end := e.org - base, e.org - base + |e.bytes|;
        assert image[..end] == s1.data == s.data + Repeat(fill, at - |s.data|) + e.bytes;
        assert image[|s.data|..at] == image[..end][|s.data|..at] && image[at..end] == image[..end][at..];
        ShowsMore(image, base, |s.data|, e, PlacedRun(es[1..]), fill);
      }
    }
  }

  /** A raw file that goes through shows exactly the bytes emitted, each at its distance from the
      first origin, and the fill between them. */
  lemma {:induction false} RawFileShows(fill: byte, es: seq<Emission>)
    requires FirstOrg(es).Some? && StartsKnown(es) && EmitAll(Raw, fill, FRESH, es).Ok?
    decreases |es|
    ensures Shows(EmitAll(Raw, fill, FRESH, es).value.data, FirstOrg(es).value, 0, PlacedRun(es), fill)
  {
    var e := es[0];
    if e.bss {
      RawFileShows(fill, es[1..]);
      assert [] + PlacedRun(es[1..]) == PlacedRun(es[1..]);
    } else {
      var s := Emit(Raw, fill, FRESH, e).value;
      var image := EmitAll(Raw, fill, FRESH, es).value.data;
      assert s.data == e.bytes;
      RawShows(fill, s, e.org, es[1..]);
      ShowsFirst(image, e, PlacedRun(es[1..]), fill);
    }
  }

  // ----- conversions -----

  /** What a loader gets from the hex text of a file with an origin: one byte after the other from
      there on, the emitted ones at their addresses modulo 65536 and the fill between them. */
  ghost predicate Holds(loaded: seq<(nat, byte)>, base: nat, ps: seq<(nat, byte)>, fill: byte) {
    && (forall p <- ps :: base <= p.0 < base + |loaded| && loaded[p.0 - base] == (p.0 % 0x1_0000, p.1))
    && (forall i | 0 <= i < |loaded| ::
          loaded[i].0 == (base + i) % 0x1_0000 && (loaded[i].1 == fill || (base + i, loaded[i].1) in ps))
  }

  lemma LoadedHolds(base: nat, data: seq<byte>, ps: seq<(nat, byte)>, fill: byte)
    requires Shows(data, base, 0, ps, fill)
    ensures Holds(X.Loaded(base, data), base, ps, fill)
  {}

  /** From generate in the default format to hex text and back. */
  lemma DefaultToHexAndBack(fill: byte, es: seq<Emission>)
    requires FirstOrg(es).Some? && StartsKnown(es) && FirstOrg(es).value < 0x1_0000
    requires EmitAll(Default, fill, FRESH, es).Ok?
    ensures
      var file := Close(Default, EmitAll(Default, fill, FRESH, es).value).data;
      var loaded := X.Load(H.PlainText(1, file));
      loaded.Some? && Holds(loaded.value, FirstOrg(es).value, PlacedRun(es), fill)
  {
    DefaultReadsBack(fill, es);
    RawFileShows(fill, es);
    var file := Close(Default, EmitAll(Default, fill, FRESH, es).value).data;
    LoadedHolds(FirstOrg(es).value, file[2..], PlacedRun(es), fill);
    HexLoads(file);
  }

  lemma HexLoads(file: seq<byte>)
    requires 2 <= |file|
    ensures X.Load(H.PlainText(1, file)) == Some(X.Loaded(Word(file[0], file[1]), file[2..]))
  {
    H.PlainLoads(Word(file[0], file[1]), file[2..]);
  }

  /** And without hex text: ftobin leaves of it the file of the raw format, which for ascending
      output is what it makes of the RAS file. */
  lemma DefaultRoute(es: seq<Emission>)
    requires FirstOrg(es).Some? && StartsKnown(es) && Ascending(FirstOrg(es).value, es)
    ensures EmitAll(Ras, FILL, FRESH, es).Ok? && EmitAll(Default, FILL, FRESH, es).Ok?
    ensures
      var ras := Close(Ras, EmitAll(Ras, FILL, FRESH, es).value).data;
      var file := Close(Default, EmitAll(Default, FILL, FRESH, es).value).data;
      2 <= |file| && Parse(ras).Some? && file[2..] == Converted(Parse(ras).value).data
  {
    TwoRoutes(es);
    FirstBelow(FirstOrg(es).value, es);
    DefaultReadsBack(FILL, es);
  }

  lemma {:induction false} FirstBelow(end: nat, es: seq<Emission>)
    requires FirstOrg(es).Some? && Ascending(end, es)
    decreases |es|
    ensures FirstOrg(es).value < 0x1_0000
  {
    if es[0].bss {
      FirstBelow(end, es[1..]);
    }
  }
}
