/** genfill, v_dc and v_align of src/ops.c on the Gen buffer and the segment, proved against
    the functions of DataSpec. */
module BufferedData {
  import opened Results
  import opened Operators
  import opened Files
  import opened GenerationSpec
  import opened Generation
  import opened DataSpec

  ghost predicate Shows(g: Generator, r: Outcome, spec: Result<Counters>)
    reads g, g.FI_temp, g.Gen, g.Csegment
  {
    && r == OutcomeOf(spec)
    && (r.Fine? ==> g.Valid() && g.State() == spec.value)
  }

  // ----- genfill -----

  lemma InEntry(w: Width, i: nat, j: nat)
    requires i % SizeOf(w) == 0 && j < SizeOf(w)
    ensures (i + j) % SizeOf(w) == j && (i + SizeOf(w)) % SizeOf(w) == 0
    ensures i < MAXLINE ==> i + SizeOf(w) <= MAXLINE
  {
    var n, q := SizeOf(w), i / SizeOf(w);
    assert i == n * q;
    UniqueRemainder(i + j, n, q, j);
    UniqueRemainder(i + n, n, q + 1, 0) by { assert n * (q + 1) == n * q + n; }
    match w
    case ByteWidth =>
    case WordWidth => assert i == 2 * q;
    case LongWidth => assert i == 4 * q;
    case Swapped => assert i == 2 * q;
  }

  /** The loops that prime the buffer with the pattern. */
  method Prime(Gen: array<byte>, fill: int, w: Width, msb: bool)
    requires Gen.Length == MAXLINE
    modifies Gen
    ensures Gen[..] == Pattern(fill, w, msb, MAXLINE / SizeOf(w))
  {
    var entry := Encoded(fill, w, msb);
    var i := 0;
    while i < MAXLINE
      invariant i <= MAXLINE && i % SizeOf(w) == 0
      invariant forall x | 0 <= x < i :: Gen[x] == entry[x % SizeOf(w)]
    {
      InEntry(w, i, 0);
      var j := 0;
      while j < SizeOf(w)
        invariant 0 <= j <= SizeOf(w)
        invariant forall x | 0 <= x < i + j :: Gen[x] == entry[x % SizeOf(w)]
      {
        InEntry(w, i, j);
        Gen[i + j] := entry[j];
        j := j + 1;
      }
      i := i + SizeOf(w);
    }
    PrimedAll(Gen[..], fill, w, msb);
  }

  lemma PrimedAll(s: seq<byte>, fill: int, w: Width, msb: bool)
    requires |s| == MAXLINE && forall x | 0 <= x < MAXLINE :: s[x] == Encoded(fill, w, msb)[x % SizeOf(w)]
    ensures s == Pattern(fill, w, msb, MAXLINE / SizeOf(w))
  {
    Blocks(w, 0);
    forall x | 0 <= x < MAXLINE ensures s[x] == Pattern(fill, w, msb, MAXLINE / SizeOf(w))[x] {
      PatternAt(fill, w, msb, MAXLINE / SizeOf(w), x);
    }
  }

  lemma Blocks(w: Width, left: nat)
    ensures var block := MAXLINE / SizeOf(w);
      && SizeOf(w) * block == MAXLINE && SizeOf(w) * (left - block) == SizeOf(w) * left - MAXLINE
      && (MAXLINE < SizeOf(w) * left ==> block < left) && (SizeOf(w) * left <= MAXLINE ==> left <= block)
  {
    match w
    case ByteWidth =>
    case WordWidth =>
    case LongWidth =>
    case Swapped =>
  }

  /** A full buffer is the front of what is still to be filled. */
  lemma BlockOff(fill: int, w: Width, msb: bool, left: nat)
    requires MAXLINE < SizeOf(w) * left
    ensures
      var (block, due) := (MAXLINE / SizeOf(w), Pattern(fill, w, msb, left));
      && block < left && SizeOf(w) * (left - block) == SizeOf(w) * left - MAXLINE
      && due[..MAXLINE] == Pattern(fill, w, msb, block) && due[MAXLINE..] == Pattern(fill, w, msb, left - block)
  {
    var block := MAXLINE / SizeOf(w);
    Blocks(w, left);
    PatternSplit(fill, w, msb, block, left - block);
    assert block + (left - block) == left;
  }

  /** The rest is the front of a full buffer. */
  lemma TailOff(fill: int, w: Width, msb: bool, left: nat)
    requires SizeOf(w) * left <= MAXLINE
    ensures Pattern(fill, w, msb, MAXLINE / SizeOf(w))[..SizeOf(w) * left] == Pattern(fill, w, msb, left)
  {
    Blocks(w, left);
    PatternSplit(fill, w, msb, left, MAXLINE / SizeOf(w) - left);
  }

  /** The loop over whole buffers, and what is left after it. */
  method FillAll(g: Generator, fill: int, w: Width, msb: bool, entries: nat) returns (r: Outcome)
    requires g.Valid() && g.Gen[..] == Pattern(fill, w, msb, MAXLINE / SizeOf(w))
    modifies g, g.FI_temp, g.Csegment`org, g.Csegment`rorg
    ensures g.Csegment == old(g.Csegment) && g.Settings() == old(g.Settings())
    ensures Shows(g, r, EmitBlocks(old(g.Settings()), old(g.State()), Pattern(fill, w, msb, entries)))
  {
    ghost var k := g.Settings();
    ghost var goal := EmitBlocks(k, g.State(), Pattern(fill, w, msb, entries));
    ghost var left: nat := entries;
    var bytes := SizeOf(w) * entries;
    while MAXLINE < bytes
      invariant bytes == SizeOf(w) * left
      invariant g.Valid() && g.Settings() == k && g.Csegment == old(g.Csegment)
      invariant EmitBlocks(k, g.State(), Pattern(fill, w, msb, left)) == goal
      decreases bytes
    {
      BlockOff(fill, w, msb, left);
      assert g.Gen[..][..MAXLINE] == g.Gen[..];
      r := EmitFront(g, MAXLINE);
      if r == Aborted {
        return;
      }
      bytes := bytes - MAXLINE;
      left := left - MAXLINE / SizeOf(w);
    }
    TailOff(fill, w, msb, left);
    r := EmitFront(g, bytes);
  }

  /** generate with only the front of a full buffer. */
  method EmitFront(g: Generator, bytes: nat) returns (r: Outcome)
    requires g.Valid() && bytes <= MAXLINE
    modifies g, g.FI_temp, g.Csegment`org, g.Csegment`rorg
    ensures g.Csegment == old(g.Csegment) && g.Settings() == old(g.Settings()) && g.Glen == bytes
    ensures Shows(g, r, Generate(old(g.Settings()), old(g.State()), old(g.Gen[..][..bytes])))
  {
    g.Glen := bytes;
    assert g.Gen[..g.Glen] == g.Gen[..][..bytes];
    r := g.Generate();
  }

  /** genfill: DS of so many entries, through the buffer in pieces of 1024 bytes. */
  method GenFill(g: Generator, fill: int, entries: int, w: Width, msb: bool) returns (r: Outcome)
    requires g.Valid()
    modifies g, g.FI_temp, g.Gen, g.Csegment`org, g.Csegment`rorg
    ensures g.Csegment == old(g.Csegment) && g.Settings() == old(g.Settings())
    ensures Shows(g, r, Fill(old(g.Settings()), msb, old(g.State()), fill, entries, w))
  {
    if entries == 0 {
      return Fine;
    }
    if entries < 0 || LONG_MAX / SizeOf(w) < entries {
      return Aborted;
    }
    Prime(g.Gen, fill, w, msb);
    r := FillAll(g, fill, w, msb, entries);
  }

  // ----- v_dc -----

  method Append(g: Generator, bytes: seq<byte>)
    requires g.Valid() && g.Glen + |bytes| <= MAXLINE
    modifies g`Glen, g.Gen
    ensures g.Valid() && g.Glen == old(g.Glen) + |bytes|
    ensures g.Gen[..g.Glen] == old(g.Gen[..g.Glen]) + bytes
  {
    forall i | 0 <= i < |bytes| {
      g.Gen[g.Glen + i] := bytes[i];
    }
    g.Glen := g.Glen + |bytes|;
  }

  ghost predicate ShowsChars(g: Generator, r: Outcome, spec: Result<(Counters, seq<byte>)>)
    reads g, g.FI_temp, g.Gen, g.Csegment
  {
    && r == OutcomeOf(spec)
    && (r.Fine? ==> g.Valid() && (g.State(), g.Gen[..g.Glen]) == spec.value)
  }

  /** Flush if the worst case of one more character, four bytes, might not fit. */
  method MakeRoom(g: Generator) returns (r: Outcome)
    requires g.Valid()
    modifies g, g.FI_temp, g.Csegment`org, g.Csegment`rorg
    ensures g.Csegment == old(g.Csegment) && g.Settings() == old(g.Settings())
    ensures r.Fine? ==> g.Valid() && g.Glen + 4 <= MAXLINE
    ensures old(g.Glen) + 4 < MAXLINE ==> r == Fine && g.State() == old(g.State()) && g.Glen == old(g.Glen)
    ensures MAXLINE <= old(g.Glen) + 4 ==>
      Shows(g, r, Generate(old(g.Settings()), old(g.State()), old(g.Gen[..g.Glen]))) && (r.Fine? ==> g.Glen == 0)
  {
    r := Fine;
    if MAXLINE <= g.Glen + 4 {
      r := g.Generate();
      g.Glen := 0;
    }
  }

  /** The loop over the characters of a string. */
  method DcString(g: Generator, chars: seq<byte>, w: Width, msb: bool) returns (r: Outcome)
    requires g.Valid()
    modifies g, g.FI_temp, g.Gen, g.Csegment`org, g.Csegment`rorg
    ensures g.Csegment == old(g.Csegment) && g.Settings() == old(g.Settings())
    ensures ShowsChars(g, r, EmitChars(old(g.Settings()), msb, old(g.State()), old(g.Gen[..g.Glen]), chars, w))
  {
    ghost var k := g.Settings();
    ghost var goal := EmitChars(k, msb, g.State(), g.Gen[..g.Glen], chars, w);
    r := Fine;
    var i := 0;
    assert chars[0..] == chars;
    while i < |chars|
      invariant i <= |chars| && r == Fine && g.Valid() && g.Settings() == k && g.Csegment == old(g.Csegment)
      invariant EmitChars(k, msb, g.State(), g.Gen[..g.Glen], chars[i..], w) == goal
    {
      assert chars[i..][0] == chars[i] && chars[i..][1..] == chars[i + 1..];
      r := MakeRoom(g);
      if r == Aborted {
        return;
      }
      assert [] + Encoded(chars[i], w, msb) == Encoded(chars[i], w, msb);
      Append(g, Encoded(chars[i], w, msb));
      i := i + 1;
    }
    assert chars[i..] == [];
  }

  /** One element of the list. */
  method DcItem(g: Generator, item: Item, w: Width, msb: bool) returns (r: Outcome)
    requires g.Valid()
    modifies g, g.FI_temp, g.Gen, g.Csegment`org, g.Csegment`rorg
    ensures g.Csegment == old(g.Csegment) && g.Settings() == old(g.Settings())
    ensures ShowsChars(g, r, EmitItem(old(g.Settings()), msb, old(g.State()), old(g.Gen[..g.Glen]), item, w))
  {
    match item {
      case Str(chars) => r := DcString(g, chars, w, msb);
      case Num(v, unknown) =>
        if unknown {
          g.Redo := g.Redo + 1;
        }
        if MAXLINE < g.Glen + SizeOf(w) {
          return Broken;
        }
        Append(g, Encoded(v, w, msb));
        r := Fine;
    }
  }

  lemma NextItem(k: Setting, c: Counters, msb: bool, pending: seq<byte>, items: seq<Item>, i: nat, w: Width)
    requires i < |items|
    ensures EmitItems(k, msb, c, pending, items[i..], w) == match EmitItem(k, msb, c, pending, items[i], w)
      case Ok(p) => EmitItems(k, msb, p.0, p.1, items[i + 1..], w)
      case Abort => Abort
      case Corrupt => Corrupt
  {
    assert items[i..][0] == items[i] && items[i..][1..] == items[i + 1..];
  }

  /** One turn of the loop of v_dc; the elements from i on lead to `goal`. */
  method DcTurn(g: Generator, items: seq<Item>, i: nat, w: Width, msb: bool, ghost goal: Result<Counters>) returns (r: Outcome)
    requires g.Valid() && i < |items|
    requires EmitItems(g.Settings(), msb, g.State(), g.Gen[..g.Glen], items[i..], w) == goal
    modifies g, g.FI_temp, g.Gen, g.Csegment`org, g.Csegment`rorg
    ensures g.Csegment == old(g.Csegment) && g.Settings() == old(g.Settings())
    ensures if r.Fine?
      then g.Valid() && EmitItems(g.Settings(), msb, g.State(), g.Gen[..g.Glen], items[i + 1..], w) == goal
      else r == OutcomeOf(goal)
  {
    NextItem(g.Settings(), g.State(), msb, g.Gen[..g.Glen], items, i, w);
    r := DcItem(g, items[i], w, msb);
  }

  /** v_dc, after its list has been evaluated. */
  method Dc(g: Generator, items: seq<Item>, w: Width, msb: bool) returns (r: Outcome)
    requires g.Valid()
    modifies g, g.FI_temp, g.Gen, g.Csegment`org, g.Csegment`rorg
    ensures g.Csegment == old(g.Csegment) && g.Settings() == old(g.Settings())
    ensures Shows(g, r, EmitItems(old(g.Settings()), msb, old(g.State()), [], items, w))
  {
    ghost var goal := EmitItems(g.Settings(), msb, g.State(), [], items, w);
    g.Glen := 0;
    var i := 0;
    assert items[0..] == items && g.Gen[..g.Glen] == [];
    while i < |items|
      invariant i <= |items| && g.Valid() && g.Settings() == old(g.Settings()) && g.Csegment == old(g.Csegment)
      invariant EmitItems(g.Settings(), msb, g.State(), g.Gen[..g.Glen], items[i..], w) == goal
    {
      r := DcTurn(g, items, i, w, msb, goal);
      if !r.Fine? {
        return;
      }
      i := i + 1;
    }
    assert items[i..] == [];
    r := g.Generate();
  }

  // ----- v_align -----

  method TakeFiller(g: Generator, filler: Option<Arg>) returns (fill: byte)
    requires g.Valid()
    modifies g`Redo
    ensures g.Valid() && g.State() == Bumped(old(g.State()), Flag(filler.Some? && filler.value.unknown))
    ensures fill == if filler.Some? && !filler.value.unknown then Lo(filler.value.value) else 0
  {
    fill := 0;
    if filler.Some? {
      if filler.value.unknown {
        g.Redo := g.Redo + 1;
      } else {
        fill := Lo(filler.value.value);
      }
    }
  }

  /** v_align: n and filler are the evaluated operands. */
  method Align(g: Generator, n: Arg, filler: Option<Arg>) returns (r: Outcome)
    requires g.Valid() && -LONG_MAX - 1 <= n.value <= LONG_MAX
    modifies g, g.FI_temp, g.Gen, g.Csegment`org, g.Csegment`rorg
    ensures g.Csegment == old(g.Csegment) && g.Settings() == old(g.Settings())
    ensures Shows(g, r, AlignTo(old(g.Settings()), old(g.State()), old(g.Csegment.Pc()), old(g.Csegment.PcUnknown()), n, filler))
  {
    LongNotZero(n.value);
    if n.value == 0 {
      return Fine;
    }
    var fill := TakeFiller(g, filler);
    if n.unknown || g.Csegment.PcUnknown() {
      g.Redo := g.Redo + 1;
      return Fine;
    }
    r := FillGap(g, fill, n.value);
  }

  method FillGap(g: Generator, fill: byte, n: int) returns (r: Outcome)
    requires g.Valid() && n % LONG_MODULUS != 0
    modifies g, g.FI_temp, g.Gen, g.Csegment`org, g.Csegment`rorg
    ensures g.Csegment == old(g.Csegment) && g.Settings() == old(g.Settings())
    ensures Shows(g, r, Fill(old(g.Settings()), false, old(g.State()), fill, AlignEntries(old(g.Csegment.Pc()), n), ByteWidth))
  {
    var modulus := n % LONG_MODULUS;
    var gap := ToLong(modulus - g.Csegment.Pc() % modulus);
    r := Fine;
    if gap != n {
      r := GenFill(g, fill, gap, ByteWidth, false);
    }
  }

  lemma LongNotZero(n: int)
    requires -LONG_MAX - 1 <= n <= LONG_MAX
    ensures n % LONG_MODULUS == 0 <==> n == 0
  {
    UniqueRemainder(n, LONG_MODULUS, if n < 0 then -1 else 0, if n < 0 then n + LONG_MODULUS else n);
  }
}
