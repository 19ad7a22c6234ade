/** What v_dc, genfill and v_align (src/ops.c) send through the 1024-byte Gen buffer, as
    functions of the counters of the segment. */
module DataSpec {
  import opened Results
  import opened Operators
  import opened Files
  import opened GenerationSpec

  // ----- values as bytes -----

  /** The size extension: .b, .w, .l and .s (the other byte order). */
  datatype Width = ByteWidth | WordWidth | LongWidth | Swapped

  function SizeOf(w: Width): nat {
    match w
    case ByteWidth => 1
    case WordWidth => 2
    case LongWidth => 4
    case Swapped => 2
  }

  function Encoded(v: int, w: Width, msb: bool): (bs: seq<byte>)
    ensures |bs| == SizeOf(w)
  {
    match w
    case ByteWidth => [Lo(v)]
    case WordWidth => if msb then [Hi(v), Lo(v)] else [Lo(v), Hi(v)]
    case Swapped => if msb then [Lo(v), Hi(v)] else [Hi(v), Lo(v)]
    case LongWidth =>
      var top := v / 0x1_0000;
      if msb then [Hi(top), Lo(top), Hi(v), Lo(v)] else [Lo(v), Hi(v), Lo(top), Hi(top)]
  }

  /** Reading one, two or four bytes most significant first, or last. */
  function Decoded(bs: seq<byte>, msb: bool): nat
    requires |bs| == 1 || |bs| == 2 || |bs| == 4
  {
    match |bs|
    case 1 => bs[0]
    case 2 => if msb then Word(bs[1], bs[0]) else Word(bs[0], bs[1])
    case 4 =>
      if msb then Word(bs[3], bs[2]) + 0x1_0000 * Word(bs[1], bs[0])
      else Word(bs[0], bs[1]) + 0x1_0000 * Word(bs[2], bs[3])
  }

  function Modulus(w: Width): nat {
    match w
    case ByteWidth => 0x100
    case WordWidth => 0x1_0000
    case Swapped => 0x1_0000
    case LongWidth => 0x1_0000_0000
  }

  /** What is emitted for a value reads back, in the processor's byte order, as the value
      modulo the size of the field; .s is read in the other order. */
  lemma EncodedReadsBack(v: int, w: Width, msb: bool)
    ensures Decoded(Encoded(v, w, msb), if w == Swapped then !msb else msb) == v % Modulus(w)
  {
    var top := v / 0x1_0000;
    WordOfBytes(v);
    WordOfBytes(top);
    assert v == 0x1_0000 * top + v % 0x1_0000 && top == 0x1_0000 * (top / 0x1_0000) + top % 0x1_0000;
    UniqueRemainder(v, 0x1_0000_0000, top / 0x1_0000, v % 0x1_0000 + 0x1_0000 * (top % 0x1_0000));
  }

  /** The pattern of DS: so many entries of one value. */
  function Pattern(fill: int, w: Width, msb: bool, entries: nat): (bs: seq<byte>)
    ensures |bs| == SizeOf(w) * entries
  {
    if entries == 0 then [] else Encoded(fill, w, msb) + Pattern(fill, w, msb, entries - 1)
  }

  lemma {:induction false} PatternAt(fill: int, w: Width, msb: bool, entries: nat, i: nat)
    requires i < |Pattern(fill, w, msb, entries)|
    ensures Pattern(fill, w, msb, entries)[i] == Encoded(fill, w, msb)[i % SizeOf(w)]
    decreases entries
  {
    var n := SizeOf(w);
    if n <= i {
      PatternAt(fill, w, msb, entries - 1, i - n);
      var q, r := (i - n) / n, (i - n) % n;
      UniqueRemainder(i, n, q + 1, r) by { assert n * (q + 1) == n * q + n; }
    } else {
      UniqueRemainder(i, n, 0, i);
    }
  }

  lemma {:induction false} PatternSplit(fill: int, w: Width, msb: bool, m: nat, n: nat)
    ensures Pattern(fill, w, msb, m + n) == Pattern(fill, w, msb, m) + Pattern(fill, w, msb, n)
    decreases m
  {
    if m == 0 {
      assert [] + Pattern(fill, w, msb, n) == Pattern(fill, w, msb, n);
    } else {
      PatternSplit(fill, w, msb, m - 1, n);
      assert m - 1 + n == m + n - 1;
    }
  }

  // ----- v_dc -----

  /** An element of a DC list: a string (of non-zero characters) or a number. */
  datatype Item = Str(chars: seq<byte>) | Num(value: int, unknown: bool)

  function CharBytes(chars: seq<byte>, w: Width, msb: bool): seq<byte> {
    if chars == [] then [] else Encoded(chars[0], w, msb) + CharBytes(chars[1..], w, msb)
  }

  function ItemBytes(item: Item, w: Width, msb: bool): seq<byte> {
    match item
    case Str(chars) => CharBytes(chars, w, msb)
    case Num(v, _) => Encoded(v, w, msb)
  }

  function DcBytes(items: seq<Item>, w: Width, msb: bool): seq<byte> {
    if items == [] then [] else ItemBytes(items[0], w, msb) + DcBytes(items[1..], w, msb)
  }

  function CharValues(chars: seq<byte>): (vs: seq<int>)
    ensures |vs| == |chars| && forall i | 0 <= i < |chars| :: vs[i] == chars[i]
  {
    seq(|chars|, i requires 0 <= i < |chars| => chars[i])
  }

  /** The values of a list; a string is a value for each character. */
  function ItemValues(items: seq<Item>): seq<int> {
    if items == [] then []
    else
      (match items[0]
       case Num(v, _) => [v]
       case Str(chars) => CharValues(chars))
      + ItemValues(items[1..])
  }

  /** A reader of fields of this width, which takes all the bytes. */
  function ReadFields(bs: seq<byte>, w: Width, msb: bool): Option<seq<int>> {
    if bs == [] then Some([])
    else if |bs| < SizeOf(w) then None
    else
      match ReadFields(bs[SizeOf(w)..], w, msb)
      case Some(vs) => Some([Decoded(bs[..SizeOf(w)], if w == Swapped then !msb else msb) as int] + vs)
      case None => None
  }

  function InFields(values: seq<int>, w: Width): seq<int> {
    seq(|values|, i requires 0 <= i < |values| => values[i] % Modulus(w))
  }

  lemma FieldRead(v: int, rest: seq<byte>, values: seq<int>, w: Width, msb: bool)
    requires ReadFields(rest, w, msb) == Some(InFields(values, w))
    ensures ReadFields(Encoded(v, w, msb) + rest, w, msb) == Some(InFields([v] + values, w))
  {
    var bs := Encoded(v, w, msb) + rest;
    assert bs[..SizeOf(w)] == Encoded(v, w, msb) && bs[SizeOf(w)..] == rest;
    EncodedReadsBack(v, w, msb);
    assert InFields([v] + values, w) == [v % Modulus(w)] + InFields(values, w);
  }

  lemma {:induction false} CharsRead(chars: seq<byte>, rest: seq<byte>, values: seq<int>, w: Width, msb: bool)
    requires ReadFields(rest, w, msb) == Some(InFields(values, w))
    ensures ReadFields(CharBytes(chars, w, msb) + rest, w, msb) == Some(InFields(CharValues(chars) + values, w))
  {
    if chars == [] {
      assert [] + rest == rest && CharValues([]) + values == values;
    } else {
      var (tail, after) := (CharBytes(chars[1..], w, msb), CharValues(chars[1..]) + values);
      CharsRead(chars[1..], rest, values, w, msb);
      FieldRead(chars[0], tail + rest, after, w, msb);
      Regrouped(Encoded(chars[0], w, msb), tail, rest);
      FirstChar(chars, values);
    }
  }

  lemma Regrouped<T>(a: seq<T>, b: seq<T>, c: seq<T>)
    ensures (a + b) + c == a + (b + c)
  {}

  lemma FirstChar(chars: seq<byte>, values: seq<int>)
    requires chars != []
    ensures CharValues(chars) + values == [chars[0] as int] + (CharValues(chars[1..]) + values)
  {}

  /** What a DC list stands for reads back, field by field, as its values modulo the field, with
      nothing left over. */
  lemma {:induction false} DcReadsBack(items: seq<Item>, w: Width, msb: bool)
    ensures ReadFields(DcBytes(items, w, msb), w, msb) == Some(InFields(ItemValues(items), w))
  {
    if items == [] {
      assert InFields([], w) == [];
    } else {
      var (rest, values) := (DcBytes(items[1..], w, msb), ItemValues(items[1..]));
      DcReadsBack(items[1..], w, msb);
      match items[0]
      case Num(v, _) => FieldRead(v, rest, values, w, msb);
      case Str(chars) => CharsRead(chars, rest, values, w, msb);
    }
  }

  /** And the pattern of a DS as so many copies of the fill. */
  lemma {:induction false} PatternReadsBack(fill: int, w: Width, msb: bool, entries: nat)
    ensures ReadFields(Pattern(fill, w, msb, entries), w, msb) == Some(InFields(seq(entries, _ => fill), w))
    decreases entries
  {
    if entries == 0 {
      assert InFields(seq(0, _ => fill), w) == [];
    } else {
      PatternReadsBack(fill, w, msb, entries - 1);
      FieldRead(fill, Pattern(fill, w, msb, entries - 1), seq(entries - 1, _ => fill), w, msb);
      assert seq(entries, _ => fill) == [fill] + seq(entries - 1, _ => fill);
    }
  }

  function Unknowns(items: seq<Item>): nat {
    if items == [] then 0 else (if items[0].Num? && items[0].unknown then 1 else 0) + Unknowns(items[1..])
  }

  function Bumped(c: Counters, n: nat): Counters { c.(sink := c.sink.(redo := c.sink.redo + n)) }

  function Flag(b: bool): nat { if b then 1 else 0 }

  /** A string flushes Gen whenever one more character, at most four bytes, might not fit. */
  function EmitChars(k: Setting, msb: bool, c: Counters, pending: seq<byte>, chars: seq<byte>, w: Width)
    : Result<(Counters, seq<byte>)>
    decreases chars
  {
    if chars == [] then Ok((c, pending))
    else if MAXLINE <= |pending| + 4 then
      match Generate(k, c, pending)
      case Ok(c') => EmitChars(k, msb, c', Encoded(chars[0], w, msb), chars[1..], w)
      case Abort => Abort
      case Corrupt => Corrupt
    else EmitChars(k, msb, c, pending + Encoded(chars[0], w, msb), chars[1..], w)
  }

  /** Nothing looks whether a number has room in Gen. */
  function EmitItem(k: Setting, msb: bool, c: Counters, pending: seq<byte>, item: Item, w: Width)
    : Result<(Counters, seq<byte>)>
  {
    match item
    case Num(v, unknown) =>
      if MAXLINE < |pending| + SizeOf(w) then Corrupt
      else Ok((Bumped(c, Flag(unknown)), pending + Encoded(v, w, msb)))
    case Str(chars) => EmitChars(k, msb, c, pending, chars, w)
  }

  /** The loop of v_dc; `pending` is Gen. */
  function EmitItems(k: Setting, msb: bool, c: Counters, pending: seq<byte>, items: seq<Item>, w: Width): Result<Counters>
    decreases items
  {
    if items == [] then Generate(k, c, pending)
    else
      match EmitItem(k, msb, c, pending, items[0], w)
      case Ok(p) => EmitItems(k, msb, p.0, p.1, items[1..], w)
      case Abort => Abort
      case Corrupt => Corrupt
  }

  // ----- genfill -----

  const LONG_MAX := 0x7FFF_FFFF_FFFF_FFFF

  /** The loop of genfill. */
  function EmitBlocks(k: Setting, c: Counters, bytes: seq<byte>): Result<Counters>
    decreases |bytes|
  {
    if |bytes| <= MAXLINE then Generate(k, c, bytes)
    else
      match Generate(k, c, bytes[..MAXLINE])
      case Ok(c') => EmitBlocks(k, c', bytes[MAXLINE..])
      case e => e
  }

  function Fill(k: Setting, msb: bool, c: Counters, fill: int, entries: int, w: Width): Result<Counters> {
    if entries == 0 then Ok(c)
    else if entries < 0 || LONG_MAX / SizeOf(w) < entries then Abort
    else EmitBlocks(k, c, Pattern(fill, w, msb, entries))
  }

  // ----- v_align -----

  /** The entries ALIGN asks genfill for: the remainder is taken of unsigned longs. */
  function AlignEntries(pc: nat, v: int): int
    requires v % LONG_MODULUS != 0
  {
    var gap := ToLong(v % LONG_MODULUS - pc % (v % LONG_MODULUS));
    if gap == v then 0 else gap
  }

  /** v_align, once its operands are evaluated; `pc` is the origin in effect. */
  function AlignTo(k: Setting, c: Counters, pc: nat, pcUnknown: bool, n: Arg, filler: Option<Arg>): Result<Counters> {
    if n.value % LONG_MODULUS == 0 then Ok(c)
    else
      var lost := filler.Some? && filler.value.unknown;
      var fill := if filler.Some? && !lost then Lo(filler.value.value) else 0;
      if n.unknown || pcUnknown then Ok(Bumped(c, 1 + Flag(lost)))
      else Fill(k, false, Bumped(c, Flag(lost)), fill, AlignEntries(pc, n.value), ByteWidth)
  }

  /** ALIGN by an unknown amount, or at an unknown origin, leaves file and origins alone and asks for
      another pass, twice if its filler is unknown too. */
  lemma UndecidedAlignment(k: Setting, c: Counters, pc: nat, pcUnknown: bool, n: Arg, filler: Option<Arg>)
    requires n.value % LONG_MODULUS != 0 && (n.unknown || pcUnknown)
    ensures
      var r := AlignTo(k, c, pc, pcUnknown, n, filler);
      && r.Ok? && r.value.(sink := r.value.sink.(redo := c.sink.redo)) == c
      && r.value.sink.redo == c.sink.redo + if filler.Some? && filler.value.unknown then 2 else 1
  {}

  // ----- flushing in the middle of data -----

  /** The first output of a pass, with the origin unknown. */
  predicate WillRefuse(k: Setting, c: Counters) { c.sink.redo == 0 && !k.bss && c.sink.fisclear && k.unknown }

  function ThenGenerate(k: Setting, r: Result<Counters>, bytes: seq<byte>): Result<Counters> {
    match r
    case Ok(c) => Generate(k, c, bytes)
    case e => e
  }

  lemma EmitSplit(format: Format, fill: byte, s: Sink, e: Emission, b: seq<byte>)
    requires !Refused(s, e)
    ensures Emit(format, fill, s, e.(bytes := e.bytes + b)) == match Emit(format, fill, s, e)
      case Ok(s') => Emit(format, fill, s', e.(org := e.org + |e.bytes|, bytes := b))
      case r => r
  {
    if s.redo == 0 && !e.bss {
      var s1 := if s.fisclear then Header(format, s, e.org) else s;
      BodySplit(format, fill, s1, e, b);
    }
  }

  lemma BodySplit(format: Format, fill: byte, s: Sink, e: Emission, b: seq<byte>)
    ensures Body(format, fill, s, e.(bytes := e.bytes + b)) == match Body(format, fill, s, e)
      case Ok(s') => Body(format, fill, s', e.(org := e.org + |e.bytes|, bytes := b))
      case r => r
  {
    match format
    case Ras =>
      var s1 := if s.org == e.org then s
                else Header(Ras, s.(data := Overwrite(s.data, s.seekback, WordBytes(s.seglen))), e.org);
      assert (s1.data + e.bytes) + b == s1.data + (e.bytes + b);
    case _ =>
      if s.org <= e.org {
        var front := s.data + Repeat(fill, e.org - s.org);
        assert (front + e.bytes) + Repeat(fill, 0) + b == front + (e.bytes + b);
      }
  }

  /** Flushing the buffer between a and b is invisible: to the file, the origins, the
      counters, and to whether the run is aborted. The one exception is the first output of
      a pass at an unknown origin, where generate returns before it advances the origin or
      looks at the size limit. */
  lemma FlushInvisible(k: Setting, c: Counters, a: seq<byte>, b: seq<byte>)
    ensures ThenGenerate(k, Generate(k, c, a), b) == Generate(k, c, a + b) <==> !WillRefuse(k, c) || (b == [] && c.org <= k.maxFileSize)
  {
    if !WillRefuse(k, c) {
      FlushKept(k, c, a, b);
    } else {
      var c1 := c.(sink := c.sink.(fisclear := false, redo := 1));
      assert Generate(k, c, a + b) == Ok(c1) == Generate(k, c, a);
      assert Generate(k, c1, b).Ok? ==> Generate(k, c1, b).value.org == c.org + |b|;
    }
  }

  lemma FlushKept(k: Setting, c: Counters, a: seq<byte>, b: seq<byte>)
    requires !WillRefuse(k, c)
    ensures ThenGenerate(k, Generate(k, c, a), b) == Generate(k, c, a + b)
  {
    var e := Emission(c.org, k.unknown, k.bss, a);
    EmitSplit(k.format, k.fill, c.sink, e, b);
    assert e.(bytes := a + b) == Emission(c.org, k.unknown, k.bss, a + b);
    if Emit(k.format, k.fill, c.sink, e).Ok? {
      var s := Emit(k.format, k.fill, c.sink, e).value;
      assert !Refused(s, Emission(c.org + |a|, k.unknown, k.bss, b));
    }
  }

  /** Once a flush has gone through, no later one is refused. */
  lemma NeverRefusedAgain(k: Setting, c: Counters, a: seq<byte>)
    requires !WillRefuse(k, c) && Generate(k, c, a).Ok?
    ensures !WillRefuse(k, Generate(k, c, a).value)
  {}

  // ----- the pieces are one emission -----

  function ThenBytes(k: Setting, r: Result<(Counters, seq<byte>)>, more: seq<byte>): Result<Counters> {
    match r
    case Ok(p) => Generate(k, p.0, p.1 + more)
    case Abort => Abort
    case Corrupt => Corrupt
  }

  lemma {:induction false} CharsAre(k: Setting, msb: bool, c: Counters, pending: seq<byte>, chars: seq<byte>, w: Width, more: seq<byte>)
    requires !WillRefuse(k, c)
    decreases chars
    ensures ThenBytes(k, EmitChars(k, msb, c, pending, chars, w), more)
         == Generate(k, c, pending + (CharBytes(chars, w, msb) + more))
    ensures EmitChars(k, msb, c, pending, chars, w).Ok? ==> !WillRefuse(k, EmitChars(k, msb, c, pending, chars, w).value.0)
  {
    if chars == [] {
      assert [] + more == more;
    } else {
      var first, rest := Encoded(chars[0], w, msb), CharBytes(chars[1..], w, msb);
      assert (first + rest) + more == first + (rest + more);
      if MAXLINE <= |pending| + 4 {
        FlushKept(k, c, pending, first + (rest + more));
        if Generate(k, c, pending).Ok? {
          NeverRefusedAgain(k, c, pending);
          CharsAre(k, msb, Generate(k, c, pending).value, first, chars[1..], w, more);
        }
      } else {
        CharsAre(k, msb, c, pending + first, chars[1..], w, more);
        assert (pending + first) + (rest + more) == pending + (first + (rest + more));
      }
    }
  }

  /** DC: with every element known, no number written past the buffer, and unless it is the
      first output of the pass at an unknown origin, one emission of the bytes of the list. */
  lemma {:induction false} ItemsAre(k: Setting, msb: bool, c: Counters, pending: seq<byte>, items: seq<Item>, w: Width)
    requires !WillRefuse(k, c) && Unknowns(items) == 0
    decreases items
    ensures EmitItems(k, msb, c, pending, items, w) != Corrupt ==>
      EmitItems(k, msb, c, pending, items, w) == Generate(k, c, pending + DcBytes(items, w, msb))
  {
    if items == [] {
      assert pending + [] == pending;
    } else {
      var rest := DcBytes(items[1..], w, msb);
      match items[0]
      case Num(v, unknown) =>
        ItemsAre(k, msb, c, pending + Encoded(v, w, msb), items[1..], w);
        assert (pending + Encoded(v, w, msb)) + rest == pending + (Encoded(v, w, msb) + rest);
        assert Bumped(c, 0) == c;
      case Str(chars) =>
        CharsAre(k, msb, c, pending, chars, w, rest);
        var r := EmitChars(k, msb, c, pending, chars, w);
        if r.Ok? {
          ItemsAre(k, msb, r.value.0, r.value.1, items[1..], w);
        }
    }
  }

  /** How far the buffer is filled after n characters: a string flushes it in time. */
  function FilledBy(glen: nat, n: nat, w: Width): nat
    decreases n
  {
    if n == 0 then glen else FilledBy((if MAXLINE <= glen + 4 then 0 else glen) + SizeOf(w), n - 1, w)
  }

  /** Numbers do not flush, so what stands between two flushes must fit. */
  predicate RoomFor(glen: nat, items: seq<Item>, w: Width)
    decreases |items|
  {
    items == [] ||
    match items[0]
    case Str(chars) => RoomFor(FilledBy(glen, |chars|, w), items[1..], w)
    case Num(_, _) => glen + SizeOf(w) <= MAXLINE && RoomFor(glen + SizeOf(w), items[1..], w)
  }

  lemma {:induction false} CharsFill(k: Setting, msb: bool, c: Counters, pending: seq<byte>, chars: seq<byte>, w: Width)
    decreases chars
    ensures !EmitChars(k, msb, c, pending, chars, w).Corrupt?
    ensures EmitChars(k, msb, c, pending, chars, w).Ok? ==>
      |EmitChars(k, msb, c, pending, chars, w).value.1| == FilledBy(|pending|, |chars|, w)
  {
    if chars != [] {
      var first := Encoded(chars[0], w, msb);
      if MAXLINE > |pending| + 4 {
        CharsFill(k, msb, c, pending + first, chars[1..], w);
      } else if Generate(k, c, pending).Ok? {
        CharsFill(k, msb, Generate(k, c, pending).value, first, chars[1..], w);
      }
    }
  }

  /** Gen is overrun only by numbers that have no room between two flushes; and is, unless
      the run is aborted before. */
  lemma {:induction false} OverrunIffNoRoom(k: Setting, msb: bool, c: Counters, pending: seq<byte>, items: seq<Item>, w: Width)
    decreases items
    ensures EmitItems(k, msb, c, pending, items, w).Corrupt? ==> !RoomFor(|pending|, items, w)
    ensures EmitItems(k, msb, c, pending, items, w).Ok? ==> RoomFor(|pending|, items, w)
  {
    if items != [] {
      match items[0]
      case Num(v, unknown) =>
        OverrunIffNoRoom(k, msb, Bumped(c, Flag(unknown)), pending + Encoded(v, w, msb), items[1..], w);
      case Str(chars) =>
        CharsFill(k, msb, c, pending, chars, w);
        var r := EmitChars(k, msb, c, pending, chars, w);
        if r.Ok? {
          OverrunIffNoRoom(k, msb, r.value.0, r.value.1, items[1..], w);
        }
    }
  }

  /** DS and ALIGN: the blocks are one emission of the pattern. */
  lemma {:induction false} BlocksAre(k: Setting, c: Counters, bytes: seq<byte>)
    requires !WillRefuse(k, c)
    decreases |bytes|
    ensures EmitBlocks(k, c, bytes) == Generate(k, c, bytes)
  {
    if MAXLINE < |bytes| {
      var a, b := bytes[..MAXLINE], bytes[MAXLINE..];
      assert a + b == bytes;
      FlushKept(k, c, a, b);
      if Generate(k, c, a).Ok? {
        NeverRefusedAgain(k, c, a);
        BlocksAre(k, Generate(k, c, a).value, b);
      }
    }
  }

  lemma FillIsPattern(k: Setting, msb: bool, c: Counters, fill: int, entries: int, w: Width)
    requires !WillRefuse(k, c) && 0 < entries <= LONG_MAX / SizeOf(w)
    ensures Fill(k, msb, c, fill, entries, w) == Generate(k, c, Pattern(fill, w, msb, entries))
  {
    BlocksAre(k, c, Pattern(fill, w, msb, entries));
  }

  // ----- what every emission keeps -----

  /** Redo does not go down, and a relocated origin moves only while it is in effect. */
  predicate Grows(k: Setting, c: Counters, c': Counters) {
    c.sink.redo <= c'.sink.redo && (!k.rorgActive ==> c'.rorg == c.rorg)
  }

  lemma {:induction false} CharsGrow(k: Setting, msb: bool, c: Counters, pending: seq<byte>, chars: seq<byte>, w: Width)
    decreases chars
    ensures var r := EmitChars(k, msb, c, pending, chars, w); r.Ok? ==> Grows(k, c, r.value.0)
  {
    if chars != [] {
      if Generate(k, c, pending).Ok? {
        CharsGrow(k, msb, Generate(k, c, pending).value, Encoded(chars[0], w, msb), chars[1..], w);
      }
      CharsGrow(k, msb, c, pending + Encoded(chars[0], w, msb), chars[1..], w);
    }
  }

  /** Every unknown element of a DC list asks for another pass. */
  lemma {:induction false} ItemsGrow(k: Setting, msb: bool, c: Counters, pending: seq<byte>, items: seq<Item>, w: Width)
    decreases items
    ensures
      var r := EmitItems(k, msb, c, pending, items, w);
      r.Ok? ==> Grows(k, c, r.value) && c.sink.redo + Unknowns(items) <= r.value.sink.redo
  {
    if items != [] {
      match items[0]
      case Num(v, unknown) =>
        ItemsGrow(k, msb, Bumped(c, Flag(unknown)), pending + Encoded(v, w, msb), items[1..], w);
      case Str(chars) =>
        CharsGrow(k, msb, c, pending, chars, w);
        var r := EmitChars(k, msb, c, pending, chars, w);
        if r.Ok? {
          ItemsGrow(k, msb, r.value.0, r.value.1, items[1..], w);
        }
    }
  }

  lemma {:induction false} BlocksGrow(k: Setting, c: Counters, bytes: seq<byte>)
    decreases |bytes|
    ensures EmitBlocks(k, c, bytes).Ok? ==> Grows(k, c, EmitBlocks(k, c, bytes).value)
  {
    if MAXLINE < |bytes| && Generate(k, c, bytes[..MAXLINE]).Ok? {
      BlocksGrow(k, Generate(k, c, bytes[..MAXLINE]).value, bytes[MAXLINE..]);
    }
  }

  lemma FillGrows(k: Setting, msb: bool, c: Counters, fill: int, entries: int, w: Width)
    ensures Fill(k, msb, c, fill, entries, w).Ok? ==> Grows(k, c, Fill(k, msb, c, fill, entries, w).value)
  {
    if 0 < entries <= LONG_MAX / SizeOf(w) {
      BlocksGrow(k, c, Pattern(fill, w, msb, entries));
    }
  }

  /** No output goes into the file any more, or the first is about to be refused. */
  predicate Shut(k: Setting, c: Counters) { WillRefuse(k, c) || c.sink.redo != 0 }

  /** A fill that is the first output of a pass at an unknown origin writes nothing, and asks
      for another pass. */
  lemma {:induction false} BlocksRefused(k: Setting, c: Counters, bytes: seq<byte>)
    requires Shut(k, c)
    decreases |bytes|
    ensures EmitBlocks(k, c, bytes).Ok? ==>
      EmitBlocks(k, c, bytes).value.sink.data == c.sink.data && EmitBlocks(k, c, bytes).value.sink.redo != 0
  {
    if MAXLINE < |bytes| && Generate(k, c, bytes[..MAXLINE]).Ok? {
      BlocksRefused(k, Generate(k, c, bytes[..MAXLINE]).value, bytes[MAXLINE..]);
    }
  }

  /** The bytes ALIGN emits to bring an origin to a multiple of n. */
  function AlignGap(pc: nat, n: nat): nat
    requires 0 < n
  {
    if pc % n == 0 then 0 else n - pc % n
  }

  /** t is the least multiple of n not below pc. */
  ghost predicate LeastMultiple(t: nat, pc: nat, n: nat)
    requires 0 < n
  {
    t % n == 0 && pc <= t && forall m: nat | pc <= m < t :: m % n != 0
  }

  lemma AlignGapIsLeast(pc: nat, n: nat)
    requires 0 < n
    ensures LeastMultiple(pc + AlignGap(pc, n), pc, n)
  {
    var q, r, t := pc / n, pc % n, pc + AlignGap(pc, n);
    assert pc == n * q + r;
    if r != 0 {
      UniqueRemainder(t, n, q + 1, 0) by { assert n * (q + 1) == n * q + n; }
    }
    forall m: nat | pc <= m < t ensures m % n != 0 {
      UniqueRemainder(m, n, q, m - n * q);
    }
  }

  /** For a positive N that is the distance to the least multiple of N. */
  lemma AlignEntriesPositive(pc: nat, n: int)
    requires 0 < n <= LONG_MAX
    ensures n % LONG_MODULUS == n && AlignEntries(pc, n) == AlignGap(pc, n)
  {
    UniqueRemainder(n, LONG_MODULUS, 0, n);
    UniqueRemainder(n - pc % n, LONG_MODULUS, 0, n - pc % n);
  }

  /** Where output that goes through leaves the origins. */
  lemma GenerateAdvances(k: Setting, c: Counters, bytes: seq<byte>)
    requires !WillRefuse(k, c) && Generate(k, c, bytes).Ok?
    ensures Generate(k, c, bytes).value.org == c.org + |bytes|
    ensures k.rorgActive ==> Generate(k, c, bytes).value.rorg == c.rorg + |bytes|
    ensures Generate(k, c, bytes).value.sink.redo == c.sink.redo
  {}

  /** ALIGN of known operands at a known origin brings the origin to the least multiple of N
      not below it, with the filler (or zeros) in the gap. */
  lemma AlignReachesMultiple(k: Setting, c: Counters, n: Arg, filler: Option<Arg>)
    requires 0 < n.value <= LONG_MAX && !n.unknown && !WillRefuse(k, c) && (filler.Some? ==> !filler.value.unknown)
    ensures
      var pc := if k.rorgActive then c.rorg else c.org;
      var r := AlignTo(k, c, pc, false, n, filler);
      var gap := AlignGap(pc, n.value);
      && r == (if gap == 0 then Ok(c) else Generate(k, c, Repeat(if filler.Some? then Lo(filler.value.value) else 0, gap)))
      && (r.Ok? ==> LeastMultiple(if k.rorgActive then r.value.rorg else r.value.org, pc, n.value))
      && (r.Ok? ==> r.value.sink.redo == c.sink.redo)
  {
    var pc := if k.rorgActive then c.rorg else c.org;
    var gap, fill := AlignGap(pc, n.value), if filler.Some? then Lo(filler.value.value) else 0;
    AlignEntriesPositive(pc, n.value);
    AlignGapIsLeast(pc, n.value);
    assert Bumped(c, 0) == c;
    if gap != 0 {
      FillIsPattern(k, false, c, fill, gap, ByteWidth);
      ByteFill(fill, gap);
      if Generate(k, c, Repeat(fill, gap)).Ok? {
        GenerateAdvances(k, c, Repeat(fill, gap));
      }
    }
  }

  lemma {:induction false} ByteFill(fill: byte, n: nat)
    ensures Pattern(fill, ByteWidth, false, n) == Repeat(fill, n)
  {
    forall i | 0 <= i < n ensures Pattern(fill, ByteWidth, false, n)[i] == Repeat(fill, n)[i] {
      PatternAt(fill, ByteWidth, false, n, i);
    }
  }

  /** A negative N is a huge unsigned one: at the origin 0 nothing happens, and at the origins
      before its lower half the gap reads as negative, which is fatal. */
  lemma NegativeAlignment(k: Setting, c: Counters, pc: nat, n: Arg, filler: Option<Arg>)
    requires -LONG_MAX - 1 <= n.value < 0 && !n.unknown && pc <= n.value + LONG_MAX + 1
    ensures AlignTo(k, c, pc, false, n, filler)
         == if pc == 0 then Ok(Bumped(c, Flag(filler.Some? && filler.value.unknown))) else Abort
  {
    AlignEntriesNegative(pc, n.value);
  }

  lemma AlignEntriesNegative(pc: nat, n: int)
    requires -LONG_MAX - 1 <= n < 0 && pc <= n + LONG_MAX + 1
    ensures n % LONG_MODULUS != 0 && AlignEntries(pc, n) == if pc == 0 then 0 else n - pc
  {
    var u := n + LONG_MODULUS;
    UniqueRemainder(n, LONG_MODULUS, -1, u);
    UniqueRemainder(pc, u, 0, pc);
    assert n % LONG_MODULUS == u && pc % u == pc;
  }
}
