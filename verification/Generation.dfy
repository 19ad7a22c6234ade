/** generate and closegenerate of src/ops.c with their statics, the output file they seek
    in, and the segment they advance. */
module Generation {
  import opened Results
  import opened Files
  import opened GenerationSpec

  class Segment {
    var org: nat
    var rorg: nat
    var unknown: bool
    var rorgUnknown: bool
    var bss: bool
    var rorgActive: bool

    constructor ()
      ensures org == 0 && rorg == 0 && unknown && rorgUnknown && !bss && !rorgActive
    {
      org, rorg, unknown, rorgUnknown, bss, rorgActive := 0, 0, true, true, false, false;
    }

    /** The origin in effect: the relocated one while RORG is active. */
    function Pc(): nat
      reads this
    {
      if rorgActive then rorg else org
    }

    predicate PcUnknown()
      reads this
    {
      if rorgActive then rorgUnknown else unknown
    }
  }

  class Generator {
    const F_format: Format
    const maxFileSize: nat
    const FI_temp: File
    const Gen: array<byte>
    var Glen: nat
    var OrgFill: byte
    var Redo: nat
    var Fisclear: bool
    var org: nat
    var Seekback: nat
    var Seglen: nat
    var Csegment: Segment

    ghost predicate Valid()
      reads this, FI_temp, Gen
    {
      && Gen.Length == MAXLINE && Glen <= MAXLINE
      && FI_temp.pos == |FI_temp.data|
      && (F_format == Ras && Redo == 0 && !Fisclear ==> Seekback + 2 <= |FI_temp.data|)
    }

    ghost function Settings(): Setting
      reads this, Csegment
    {
      Setting(F_format, OrgFill, maxFileSize, Csegment.unknown, Csegment.bss, Csegment.rorgActive)
    }

    ghost function State(): Counters
      reads this, FI_temp, Csegment
    {
      Counters(Sink(Redo, Fisclear, org, Seekback, Seglen, FI_temp.data), Csegment.org, Csegment.rorg)
    }

    constructor (format: Format, maxFileSize: nat, segment: Segment)
      ensures Valid() && fresh(FI_temp) && fresh(Gen) && Csegment == segment && F_format == format
      ensures this.maxFileSize == maxFileSize
      ensures State().sink == FRESH && OrgFill == 255
    {
      F_format, this.maxFileSize, Csegment := format, maxFileSize, segment;
      FI_temp := new File([]);
      Gen := new byte[MAXLINE](_ => 0);
      Glen, OrgFill, Redo, Fisclear, org, Seekback, Seglen := 0, 255, 0, true, 0, 0, 0;
    }

    method PutWord(v: nat)
      modifies FI_temp
      ensures FI_temp.data == Overwrite(old(FI_temp.data), old(FI_temp.pos), WordBytes(v))
      ensures FI_temp.pos == old(FI_temp.pos) + 2
    {
      FI_temp.Write(WordBytes(v));
    }

    /** Start a hunk at the current origin, its length still zero. */
    method StartHunk()
      requires FI_temp.pos == |FI_temp.data|
      modifies this`Seekback, this`Seglen, FI_temp
      ensures FI_temp.data == old(FI_temp.data) + WordBytes(org) + [0, 0] && FI_temp.pos == |FI_temp.data|
      ensures Seekback == |old(FI_temp.data)| + 2 && Seglen == 0
    {
      PutWord(org);
      Seekback := FI_temp.pos;
      Seglen := 0;
      FI_temp.Write([0, 0]);
    }

    /** Seek back to the length field of the hunk being written, and forward again. */
    method PatchLength()
      requires FI_temp.pos == |FI_temp.data| && Seekback + 2 <= |FI_temp.data|
      modifies FI_temp
      ensures FI_temp.data == Overwrite(old(FI_temp.data), Seekback, WordBytes(Seglen))
      ensures FI_temp.pos == old(FI_temp.pos)
    {
      var seekpos := FI_temp.pos;
      FI_temp.Seek(Seekback);
      PutWord(Seglen);
      FI_temp.Seek(seekpos);
    }

    /** putc of the fill byte until the output position reaches the segment's origin. */
    method FillGap()
      requires FI_temp.pos == |FI_temp.data| && org <= Csegment.org
      modifies this`org, FI_temp
      ensures FI_temp.data == old(FI_temp.data) + Repeat(OrgFill, Csegment.org - old(org)) && FI_temp.pos == |FI_temp.data|
      ensures org == Csegment.org
    {
      while Csegment.org != org
        invariant old(org) <= org <= Csegment.org
        invariant FI_temp.data == old(FI_temp.data) + Repeat(OrgFill, org - old(org)) && FI_temp.pos == |FI_temp.data|
        decreases Csegment.org - org
      {
        FI_temp.Write([OrgFill]);
        org := org + 1;
      }
    }

    method WriteGen()
      requires Valid()
      modifies FI_temp
      ensures FI_temp.data == old(FI_temp.data) + Gen[..Glen] && FI_temp.pos == |FI_temp.data|
    {
      FI_temp.Write(Gen[..Glen]);
    }

    /** The first output of a pass. */
    method WriteHeader()
      requires Valid()
      modifies this, FI_temp
      ensures Valid() && Redo == old(Redo) && Glen == old(Glen) && OrgFill == old(OrgFill) && Csegment == old(Csegment)
      ensures State().sink == Header(F_format, old(State().sink), Csegment.org)
    {
      Fisclear := false;
      org := Csegment.org;
      match F_format {
        case Raw =>
        case Default => PutWord(org);
        case Ras => StartHunk();
      }
    }

    /** In the RAS format a jump of the origin ends a hunk and starts the next. */
    method FollowOrigin()
      requires Valid() && Redo == 0 && !Fisclear && F_format == Ras
      modifies this, FI_temp
      ensures Valid() && Glen == old(Glen) && OrgFill == old(OrgFill) && Csegment == old(Csegment)
      ensures
        var s := old(State().sink);
        State().sink == if s.org == Csegment.org then s
                        else Header(Ras, s.(data := Overwrite(s.data, s.seekback, WordBytes(s.seglen))), Csegment.org)
    {
      if org != Csegment.org {
        org := Csegment.org;
        PatchLength();
        StartHunk();
      }
    }

    method WriteBody() returns (r: Outcome)
      requires Valid() && Redo == 0 && !Fisclear
      modifies this, FI_temp
      ensures Glen == old(Glen) && OrgFill == old(OrgFill) && Csegment == old(Csegment)
      ensures match Body(F_format, OrgFill, old(State().sink), Emission(Csegment.org, Csegment.unknown, Csegment.bss, old(Gen[..Glen])))
        case Ok(s) => r == Fine && Valid() && State().sink == s
        case _ => r == Aborted
    {
      match F_format {
        case Ras =>
          FollowOrigin();
          WriteGen();
          Seglen := Seglen + Glen;
        case _ =>
          if Csegment.org < org {
            return Aborted;
          }
          FillGap();
          WriteGen();
      }
      org := org + Glen;
      return Fine;
    }

    /** What generate does to the file. */
    method Output() returns (r: Outcome)
      requires Valid() && (Redo == 0 && !Csegment.bss && Fisclear ==> !Csegment.unknown)
      modifies this, FI_temp
      ensures Glen == old(Glen) && OrgFill == old(OrgFill) && Csegment == old(Csegment)
      ensures match Emit(F_format, OrgFill, old(State().sink), Emission(Csegment.org, Csegment.unknown, Csegment.bss, old(Gen[..Glen])))
        case Ok(s) => r == Fine && Valid() && State().sink == s
        case _ => r == Aborted
    {
      r := Fine;
      if Redo == 0 && !Csegment.bss {
        if Fisclear {
          WriteHeader();
        }
        r := WriteBody();
      }
    }

    method Generate() returns (r: Outcome)
      requires Valid()
      modifies this, FI_temp, Csegment`org, Csegment`rorg
      ensures match GenerationSpec.Generate(old(Settings()), old(State()), old(Gen[..Glen]))
        case Ok(c) => r == Fine && Valid() && State() == c
        case _ => r == Aborted
      ensures Glen == old(Glen) && Csegment == old(Csegment)
      ensures Settings() == old(Settings())
    {
      if Redo == 0 && !Csegment.bss && Fisclear && Csegment.unknown {
        Fisclear, Redo := false, Redo + 1;
        return Fine;
      }
      r := Output();
      if r == Aborted {
        return;
      }
      Csegment.org := Csegment.org + Glen;
      if Csegment.rorgActive {
        Csegment.rorg := Csegment.rorg + Glen;
      }
      return if maxFileSize < Csegment.org then Aborted else Fine;
    }

    method CloseGenerate()
      requires Valid()
      modifies this, FI_temp
      ensures State().sink == Close(F_format, old(State().sink))
    {
      if Redo == 0 && F_format == Ras {
        FI_temp.Seek(Seekback);
        PutWord(Seglen);
        FI_temp.SeekEnd();
      }
    }
  }
}
