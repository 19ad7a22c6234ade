/** generate and closegenerate of src/ops.c as functions of the output file so far. */
module GenerationSpec {
  import opened Results
  import opened Files

  /** FORMAT_DEFAULT, FORMAT_RAS, FORMAT_RAW */
  datatype Format = Default | Ras | Raw

  /** The size of Gen. */
  const MAXLINE := 1024

  /** One call of generate with Glen bytes in Gen: where, and in what kind of segment. */
  datatype Emission = Emission(org: nat, unknown: bool, bss: bool, bytes: seq<byte>)

  /** The statics of generate and the output file (which between calls is positioned at
      its end). */
  datatype Sink = Sink(redo: nat, fisclear: bool, org: nat, seekback: nat, seglen: nat, data: seq<byte>)

  const FRESH := Sink(0, true, 0, 0, 0, [])

  function WordBytes(v: nat): (s: seq<byte>)
    ensures |s| == 2
  {
    [Lo(v), Hi(v)]
  }

  /** generate gives up without writing, or moving the origin, on the first output of a
      pass if the origin is unknown. */
  predicate Refused(s: Sink, e: Emission) { s.redo == 0 && !e.bss && s.fisclear && e.unknown }

  function Header(format: Format, s: Sink, org: nat): Sink {
    var s1 := s.(fisclear := false, org := org);
    match format
    case Raw => s1
    case Default => s1.(data := s1.data + WordBytes(org))
    case Ras => s1.(data := s1.data + WordBytes(org) + [0, 0], seekback := |s1.data| + 2, seglen := 0)
  }

  function Body(format: Format, fill: byte, s: Sink, e: Emission): Result<Sink> {
    match format
    case Ras =>
      var s1 := if s.org == e.org then s
                else Header(Ras, s.(data := Overwrite(s.data, s.seekback, WordBytes(s.seglen))), e.org);
      Ok(s1.(data := s1.data + e.bytes, seglen := s1.seglen + |e.bytes|, org := s1.org + |e.bytes|))
    case _ =>
      if e.org < s.org then Abort
      else Ok(s.(data := s.data + Repeat(fill, e.org - s.org) + e.bytes, org := e.org + |e.bytes|))
  }

  function Emit(format: Format, fill: byte, s: Sink, e: Emission): Result<Sink> {
    if s.redo != 0 || e.bss then Ok(s)
    else if Refused(s, e) then Ok(s.(fisclear := false, redo := 1))
    else Body(format, fill, if s.fisclear then Header(format, s, e.org) else s, e)
  }

  /** closegenerate */
  function Close(format: Format, s: Sink): Sink {
    if s.redo == 0 && format == Ras then s.(data := Overwrite(s.data, s.seekback, WordBytes(s.seglen))) else s
  }

  function EmitAll(format: Format, fill: byte, s: Sink, es: seq<Emission>): Result<Sink>
    decreases |es|
  {
    if es == [] then Ok(s)
    else
      match Emit(format, fill, s, es[0])
      case Ok(s') => EmitAll(format, fill, s', es[1..])
      case e => e
  }

  // ----- with the counters of the current segment -----

  /** What does not change while a statement emits its bytes. */
  datatype Setting = Setting(format: Format, fill: byte, maxFileSize: nat, unknown: bool, bss: bool, rorgActive: bool)

  datatype Counters = Counters(sink: Sink, org: nat, rorg: nat)

  function Generate(k: Setting, c: Counters, bytes: seq<byte>): Result<Counters> {
    var e := Emission(c.org, k.unknown, k.bss, bytes);
    match Emit(k.format, k.fill, c.sink, e)
    case Ok(s) =>
      if Refused(c.sink, e) then Ok(c.(sink := s))
      else if k.maxFileSize < c.org + |bytes| then Abort
      else Ok(Counters(s, c.org + |bytes|, if k.rorgActive then c.rorg + |bytes| else c.rorg))
    case Abort => Abort
    case Corrupt => Corrupt
  }
}
