/** Local labels: `.name` belongs to a subroutine or macro call, `name$` to the stretch after a
    global label. src/symbols.c makes them unique by prefixing the index of their scope. */
module LocalScopes {
  import opened Results

  // ----- names -----

  const MAX_SYM_LEN := 1024
  const MAXMACLEVEL := 32

  predicate IsDigit(c: char) { '0' <= c <= '9' }

  function Digit(n: nat): (c: char)
    requires n < 10
    ensures IsDigit(c)
  {
    "0123456789"[n]
  }

  /** %ld */
  function Decimal(n: nat): (s: string)
    ensures s != [] && forall i | 0 <= i < |s| :: IsDigit(s[i])
  {
    if n < 10 then [Digit(n)] else Decimal(n / 10) + [Digit(n % 10)]
  }

  /** Localindex and Localdollarindex, with the last index given out of either kind. */
  datatype Indices = Indices(local: nat, lastLocal: nat, dollar: nat, lastDollar: nat)

  function Truncated(name: string): string {
    if MAX_SYM_LEN < |name| then name[..MAX_SYM_LEN] else name
  }

  datatype Kind = Global | Dot | Dollar

  function KindOf(name: string): Kind
    requires name != []
  {
    if name[0] == '.' then Dot else if name[|name| - 1] == '$' then Dollar else Global
  }

  /** The index a name of this kind is prefixed with. */
  function IndexOf(i: Indices, k: Kind): nat {
    match k
    case Global => 0
    case Dot => i.local
    case Dollar => i.dollar
  }

  /** The name findsymbol and CreateSymbol look for in the hash table. */
  function Mangled(i: Indices, name: string): string
    requires name != []
  {
    var s := Truncated(name);
    match KindOf(s)
    case Global => s
    case Dot => Decimal(i.local) + s
    case Dollar => Decimal(i.dollar) + ("$" + s)
  }

  lemma {:induction false} DecimalInjective(m: nat, n: nat)
    requires Decimal(m) == Decimal(n)
    ensures m == n
    decreases m
  {
    var s, t := Decimal(m), Decimal(n);
    assert s[|s| - 1] == Digit(m % 10) && t[|t| - 1] == Digit(n % 10);
    if m < 10 {
      assert |s| == 1;
    } else if n >= 10 {
      assert s[..|s| - 1] == Decimal(m / 10) && t[..|t| - 1] == Decimal(n / 10);
      DecimalInjective(m / 10, n / 10);
    }
  }

  /** Digits followed by something else are split in only one way. */
  lemma FirstNonDigit(a: string, x: string, b: string, y: string)
    requires (forall i | 0 <= i < |a| :: IsDigit(a[i])) && (forall i | 0 <= i < |b| :: IsDigit(b[i]))
    requires x != [] && y != [] && !IsDigit(x[0]) && !IsDigit(y[0])
    requires a + x == b + y
    ensures a == b && x == y
  {
    var s := a + x;
    assert s[|a|] == x[0] && s[|b|] == y[0];
    assert forall i | 0 <= i < |a| :: s[i] == a[i];
    assert forall i | 0 <= i < |b| :: s[i] == b[i];
    assert |a| == |b|;
    assert a == s[..|a|] && b == s[..|b|] && x == s[|a|..] && y == s[|b|..];
  }

  /** Whether a name can be taken for a prefixed one. */
  predicate StartsWithDigit(name: string) { name != [] && IsDigit(name[0]) }

  /** Two names, each read where other indices are current, are the same symbol exactly when
      they are of one kind, have the same index, and agree in their first 1024 characters;
      global names that begin with a digit apart. */
  lemma MangledNamesDistinct(i: Indices, name: string, j: Indices, other: string)
    requires name != [] && other != []
    requires KindOf(Truncated(name)).Global? ==> !StartsWithDigit(name)
    requires KindOf(Truncated(other)).Global? ==> !StartsWithDigit(other)
    ensures Mangled(i, name) == Mangled(j, other) <==>
      && Truncated(name) == Truncated(other)
      && IndexOf(i, KindOf(Truncated(name))) == IndexOf(j, KindOf(Truncated(name)))
  {
    var s, t := Truncated(name), Truncated(other);
    if Mangled(i, name) == Mangled(j, other) {
      var x, y := if KindOf(s).Dollar? then "$" + s else s, if KindOf(t).Dollar? then "$" + t else t;
      var a := if KindOf(s).Global? then "" else Decimal(IndexOf(i, KindOf(s)));
      var b := if KindOf(t).Global? then "" else Decimal(IndexOf(j, KindOf(t)));
      FirstNonDigit(a, x, b, y);
      if KindOf(s).Dollar? {
        assert x[1..] == s;
      }
      if KindOf(t).Dollar? {
        assert y[1..] == t;
      }
      assert s == t;
      if !KindOf(s).Global? {
        DecimalInjective(IndexOf(i, KindOf(s)), IndexOf(j, KindOf(s)));
      }
    }
  }

  /** The exception is real: the global name `0.x` is the `.x` of the first scope. */
  lemma DigitNamesAlias(i: Indices)
    requires i.local == 0
    ensures Mangled(i, "0.x") == Mangled(i, ".x")
  {
    assert Decimal(0) == "0" && "0" + ".x" == "0.x";
  }

  // ----- scopes -----

  /** What a macro call saves. */
  datatype Frame = Frame(saveidx: nat, savedolidx: nat)

  datatype Scopes = Scopes(at: Indices, mlevel: nat, frames: seq<Frame>)

  /** Lines that move the indices; `name` is the label of the line, if it has one. */
  datatype Event = Label(name: string) | Subroutine(name: string) | MacroCall(name: string) | MacroExit

  const FIRST := Indices(0, 0, 0, 0)
  const START := Scopes(FIRST, 0, [])

  predicate IsGlobal(name: string) { name != [] && KindOf(name).Global? }

  /** The beginning of programlabel. */
  function OnLabel(i: Indices, name: string): Indices {
    if IsGlobal(name) then i.(dollar := i.lastDollar + 1, lastDollar := i.lastDollar + 1) else i
  }

  function OpenLocal(i: Indices): Indices { i.(local := i.lastLocal + 1, lastLocal := i.lastLocal + 1) }

  function OpenDollar(i: Indices): Indices { i.(dollar := i.lastDollar + 1, lastDollar := i.lastDollar + 1) }

  function Step(s: Scopes, e: Event): Result<Scopes> {
    match e
    case Label(name) => Ok(s.(at := OnLabel(s.at, name)))
    case Subroutine(name) => Ok(s.(at := OnLabel(OpenLocal(s.at), name)))
    case MacroCall(name) =>
      var i := OnLabel(s.at, name);
      if s.mlevel == MAXMACLEVEL then Abort
      else Ok(Scopes(OpenDollar(OpenLocal(i)), s.mlevel + 1, s.frames + [Frame(i.local, i.dollar)]))
    case MacroExit =>
      if s.frames == [] then Ok(s)
      else
        var f := s.frames[|s.frames| - 1];
        Ok(Scopes(s.at.(local := f.saveidx, dollar := f.savedolidx), if s.mlevel == 0 then 0 else s.mlevel - 1,
                  s.frames[..|s.frames| - 1]))
  }

  function Then(r: Result<Scopes>, e: Event): Result<Scopes> {
    match r
    case Ok(s) => Step(s, e)
    case f => f
  }

  /** The state after these lines of a pass. */
  function After(es: seq<Event>): Result<Scopes> {
    if es == [] then Ok(START) else Then(After(es[..|es| - 1]), es[|es| - 1])
  }

  // ----- scopes without indices -----

  /** The start of the pass, or the line that opened the scope (and whether by calling a
      macro rather than by its label). */
  datatype ScopeId = Outermost | OpenedAt(line: nat, byMacro: bool)

  /** The scopes a line is in, and those waiting below the macro calls around it. */
  datatype Place = Place(local: ScopeId, dollar: ScopeId, callers: seq<(ScopeId, ScopeId)>)

  function Labelled(p: Place, name: string, line: nat): Place {
    if IsGlobal(name) then p.(dollar := OpenedAt(line, false)) else p
  }

  function Visit(p: Place, e: Event, line: nat): Place {
    match e
    case Label(name) => Labelled(p, name, line)
    case Subroutine(name) => Labelled(p.(local := OpenedAt(line, false)), name, line)
    case MacroCall(name) =>
      var q := Labelled(p, name, line);
      Place(OpenedAt(line, true), OpenedAt(line, true), q.callers + [(q.local, q.dollar)])
    case MacroExit =>
      if p.callers == [] then p
      else
        var (l, d) := p.callers[|p.callers| - 1];
        Place(l, d, p.callers[..|p.callers| - 1])
  }

  /** The reference meaning: scopes opened and left, no indices. */
  function PlaceAfter(es: seq<Event>): Place {
    if es == [] then Place(Outermost, Outermost, []) else Visit(PlaceAfter(es[..|es| - 1]), es[|es| - 1], |es|)
  }

  // ----- an index stands for one scope -----

  function LocalOpened(e: Event, line: nat): seq<ScopeId> {
    match e
    case Subroutine(_) => [OpenedAt(line, false)]
    case MacroCall(_) => [OpenedAt(line, true)]
    case _ => []
  }

  function DollarOpened(e: Event, line: nat): seq<ScopeId> {
    if e.MacroExit? then []
    else (if IsGlobal(e.name) then [OpenedAt(line, false)] else []) + (if e.MacroCall? then [OpenedAt(line, true)] else [])
  }

  /** The scopes opened so far, at their indices. */
  function LocalIds(es: seq<Event>): seq<ScopeId> {
    if es == [] then [Outermost] else LocalIds(es[..|es| - 1]) + LocalOpened(es[|es| - 1], |es|)
  }

  function DollarIds(es: seq<Event>): seq<ScopeId> {
    if es == [] then [Outermost] else DollarIds(es[..|es| - 1]) + DollarOpened(es[|es| - 1], |es|)
  }

  /** Given out at most once, and no later than this line. */
  ghost predicate Unique(ids: seq<ScopeId>, line: nat) {
    && (forall i | 0 <= i < |ids| :: ids[i].OpenedAt? ==> ids[i].line <= line)
    && (forall i, j | 0 <= i < j < |ids| :: ids[i] != ids[j])
  }

  ghost predicate Names(ids: seq<ScopeId>, index: nat, id: ScopeId) { index < |ids| && ids[index] == id }

  ghost predicate Matches(s: Scopes, p: Place, locals: seq<ScopeId>, dollars: seq<ScopeId>) {
    && |locals| == s.at.lastLocal + 1 && |dollars| == s.at.lastDollar + 1
    && Names(locals, s.at.local, p.local) && Names(dollars, s.at.dollar, p.dollar)
    && s.mlevel == |s.frames| == |p.callers| <= MAXMACLEVEL
    && (forall i | 0 <= i < |s.frames| ::
         Names(locals, s.frames[i].saveidx, p.callers[i].0) && Names(dollars, s.frames[i].savedolidx, p.callers[i].1))
  }

  lemma UniqueGrows(ids: seq<ScopeId>, more: seq<ScopeId>, line: nat)
    requires Unique(ids, line)
    requires |more| <= 2 && forall i | 0 <= i < |more| :: more[i].OpenedAt? && more[i].line == line + 1
    requires |more| == 2 ==> more[0] != more[1]
    ensures Unique(ids + more, line + 1)
  {}

  lemma {:induction false} IdsUnique(es: seq<Event>)
    ensures Unique(LocalIds(es), |es|) && Unique(DollarIds(es), |es|)
  {
    if es != [] {
      var n := |es| - 1;
      IdsUnique(es[..n]);
      NextUnique(LocalIds(es[..n]), DollarIds(es[..n]), es[n], n);
    }
  }

  lemma NextUnique(locals: seq<ScopeId>, dollars: seq<ScopeId>, e: Event, line: nat)
    requires Unique(locals, line) && Unique(dollars, line)
    ensures Unique(locals + LocalOpened(e, line + 1), line + 1) && Unique(dollars + DollarOpened(e, line + 1), line + 1)
  {
    UniqueGrows(locals, LocalOpened(e, line + 1), line);
    UniqueGrows(dollars, DollarOpened(e, line + 1), line);
  }

  lemma StepMatches(s: Scopes, p: Place, locals: seq<ScopeId>, dollars: seq<ScopeId>, e: Event, line: nat)
    requires Matches(s, p, locals, dollars) && Step(s, e).Ok?
    ensures Matches(Step(s, e).value, Visit(p, e, line), locals + LocalOpened(e, line), dollars + DollarOpened(e, line))
  {
    match e
    case Label(name) =>
      assert locals + [] == locals;
      LabelMatches(s, p, locals, dollars, name, line);
    case Subroutine(name) =>
      var s1, p1 := s.(at := OpenLocal(s.at)), p.(local := OpenedAt(line, false));
      LabelMatches(s1, p1, locals + [OpenedAt(line, false)], dollars, name, line);
    case MacroCall(name) => MacroMatches(s, p, locals, dollars, name, line);
    case MacroExit =>
      assert locals + [] == locals && dollars + [] == dollars;
      ExitMatches(s, p, locals, dollars, line);
  }

  lemma ExitMatches(s: Scopes, p: Place, locals: seq<ScopeId>, dollars: seq<ScopeId>, line: nat)
    requires Matches(s, p, locals, dollars)
    ensures Matches(Step(s, MacroExit).value, Visit(p, MacroExit, line), locals, dollars)
  {}

  lemma MacroMatches(s: Scopes, p: Place, locals: seq<ScopeId>, dollars: seq<ScopeId>, name: string, line: nat)
    requires Matches(s, p, locals, dollars) && s.mlevel < MAXMACLEVEL
    ensures
      var e := MacroCall(name);
      Matches(Step(s, e).value, Visit(p, e, line), locals + [OpenedAt(line, true)], dollars + DollarOpened(e, line))
  {
    var first := if IsGlobal(name) then [OpenedAt(line, false)] else [];
    LabelMatches(s, p, locals, dollars, name, line);
    CallMatches(s.(at := OnLabel(s.at, name)), Labelled(p, name, line), locals, dollars + first, line);
    assert (dollars + first) + [OpenedAt(line, true)] == dollars + (first + [OpenedAt(line, true)]);
  }

  lemma LabelMatches(s: Scopes, p: Place, locals: seq<ScopeId>, dollars: seq<ScopeId>, name: string, line: nat)
    requires Matches(s, p, locals, dollars)
    ensures Matches(s.(at := OnLabel(s.at, name)), Labelled(p, name, line), locals,
                    dollars + if IsGlobal(name) then [OpenedAt(line, false)] else [])
  {}

  /** A macro call saves the current indices and opens both scopes. */
  lemma CallMatches(s: Scopes, p: Place, locals: seq<ScopeId>, dollars: seq<ScopeId>, line: nat)
    requires Matches(s, p, locals, dollars) && s.mlevel < MAXMACLEVEL
    ensures
      var id := OpenedAt(line, true);
      Matches(Scopes(OpenDollar(OpenLocal(s.at)), s.mlevel + 1, s.frames + [Frame(s.at.local, s.at.dollar)]),
              Place(id, id, p.callers + [(p.local, p.dollar)]), locals + [id], dollars + [id])
  {}

  lemma {:induction false} IndicesMatchScopes(es: seq<Event>)
    requires After(es).Ok?
    ensures Matches(After(es).value, PlaceAfter(es), LocalIds(es), DollarIds(es))
  {
    if es != [] {
      var n := |es| - 1;
      IndicesMatchScopes(es[..n]);
      StepMatches(After(es[..n]).value, PlaceAfter(es[..n]), LocalIds(es[..n]), DollarIds(es[..n]), es[n], |es|);
    }
  }

  lemma {:induction false} IdsKept(es: seq<Event>, n: nat)
    requires n <= |es|
    ensures LocalIds(es[..n]) <= LocalIds(es) && DollarIds(es[..n]) <= DollarIds(es)
  {
    if n == |es| {
      assert es[..n] == es;
    } else {
      IdsKept(es[..|es| - 1], n);
      assert es[..|es| - 1][..n] == es[..n];
    }
  }

  /** In any two places of a pass the current indices are equal exactly when the scopes are:
      an opened scope never gets an index used before, and after a macro call its caller's
      scopes have their old indices. */
  lemma IndexIsScope(es: seq<Event>, m: nat, n: nat)
    requires m <= n <= |es| && After(es[..m]).Ok? && After(es[..n]).Ok?
    ensures After(es[..m]).value.at.local == After(es[..n]).value.at.local <==>
      PlaceAfter(es[..m]).local == PlaceAfter(es[..n]).local
    ensures After(es[..m]).value.at.dollar == After(es[..n]).value.at.dollar <==>
      PlaceAfter(es[..m]).dollar == PlaceAfter(es[..n]).dollar
  {
    IndicesMatchScopes(es[..m]);
    IndicesMatchScopes(es[..n]);
    IdsUnique(es[..n]);
    IdsKept(es[..n], m);
    assert es[..n][..m] == es[..m];
  }

  function ScopeOf(p: Place, k: Kind): ScopeId {
    match k
    case Global => Outermost
    case Dot => p.local
    case Dollar => p.dollar
  }

  /** Local labels never alias: two names in a pass are one symbol exactly when they have the
      same text (to 1024 characters) in the same scope. */
  lemma LocalLabelsNeverAlias(es: seq<Event>, m: nat, name: string, n: nat, other: string)
    requires m <= n <= |es| && After(es[..m]).Ok? && After(es[..n]).Ok? && name != [] && other != []
    requires KindOf(Truncated(name)).Global? ==> !StartsWithDigit(name)
    requires KindOf(Truncated(other)).Global? ==> !StartsWithDigit(other)
    ensures Mangled(After(es[..m]).value.at, name) == Mangled(After(es[..n]).value.at, other) <==>
      && Truncated(name) == Truncated(other)
      && ScopeOf(PlaceAfter(es[..m]), KindOf(Truncated(name))) == ScopeOf(PlaceAfter(es[..n]), KindOf(Truncated(name)))
  {
    MangledNamesDistinct(After(es[..m]).value.at, name, After(es[..n]).value.at, other);
    IndexIsScope(es, m, n);
  }

  /** A scope is opened with an index that was current nowhere before in the pass. */
  lemma OpenedIndexIsNew(es: seq<Event>, m: nat)
    requires m < |es| && After(es[..m]).Ok? && After(es).Ok?
    ensures es[|es| - 1].Subroutine? || es[|es| - 1].MacroCall? ==>
      After(es[..m]).value.at.local != After(es).value.at.local
    ensures es[|es| - 1].MacroCall? || (!es[|es| - 1].MacroExit? && IsGlobal(es[|es| - 1].name)) ==>
      After(es[..m]).value.at.dollar != After(es).value.at.dollar
  {
    assert es[..|es|] == es;
    IndexIsScope(es, m, |es|);
    IndicesMatchScopes(es[..m]);
    IdsUnique(es[..m]);
  }

  lemma AfterNext(es: seq<Event>, n: nat)
    requires n < |es|
    ensures After(es[..n + 1]) == Then(After(es[..n]), es[n])
  {
    assert es[..n + 1][..n] == es[..n];
  }

  /** The frames below a depth that is never left. */
  lemma {:induction false} FramesKept(es: seq<Event>, n: nat, m: nat, depth: nat)
    requires n <= m <= |es|
    requires forall k | n <= k <= m :: After(es[..k]).Ok? && depth <= |After(es[..k]).value.frames|
    decreases m
    ensures After(es[..m]).value.frames[..depth] == After(es[..n]).value.frames[..depth]
  {
    if n < m {
      FramesKept(es, n, m - 1, depth);
      AfterNext(es, m - 1);
      StepKeeps(After(es[..m - 1]).value, es[m - 1], depth);
    }
  }

  lemma StepKeeps(s: Scopes, e: Event, depth: nat)
    requires Step(s, e).Ok? && depth <= |s.frames| && depth <= |Step(s, e).value.frames|
    ensures Step(s, e).value.frames[..depth] == s.frames[..depth]
  {}

  /** A macro call, whatever lines its body has, leaves its caller in the scopes it called
      from: the exit that brings the frames back to what they were restores both indices. */
  lemma ExitRestoresCaller(es: seq<Event>, n: nat)
    requires n + 1 < |es| && es[n].MacroCall?
    requires forall k | n <= k <= |es| :: After(es[..k]).Ok?
    requires forall k | n < k < |es| :: |After(es[..n]).value.frames| < |After(es[..k]).value.frames|
    requires |After(es[..|es|]).value.frames| == |After(es[..n]).value.frames|
    ensures
      var before, after := OnLabel(After(es[..n]).value.at, es[n].name), After(es[..|es|]).value;
      && after.at.local == before.local && after.at.dollar == before.dollar
      && after.frames == After(es[..n]).value.frames
  {
    var m, caller := |es| - 1, After(es[..n]).value;
    var at := OnLabel(caller.at, es[n].name);
    AfterNext(es, n);
    CallPushes(caller, es[n].name);
    FramesKept(es, n + 1, m, |caller.frames| + 1);
    AfterNext(es, m);
    assert es[..m + 1] == es;
    LastPopped(After(es[..m]).value, es[m], caller.frames, Frame(at.local, at.dollar));
  }

  lemma CallPushes(s: Scopes, name: string)
    requires Step(s, MacroCall(name)).Ok?
    ensures var at := OnLabel(s.at, name); Step(s, MacroCall(name)).value.frames == s.frames + [Frame(at.local, at.dollar)]
  {}

  /** The line that brings the frames back to what they were is an exit. */
  lemma LastPopped(s: Scopes, e: Event, frames: seq<Frame>, f: Frame)
    requires |frames| < |s.frames| && s.frames[..|frames| + 1] == frames + [f]
    requires Step(s, e).Ok? && |Step(s, e).value.frames| == |frames|
    ensures
      var after := Step(s, e).value;
      after.at.local == f.saveidx && after.at.dollar == f.savedolidx && after.frames == frames
  {
    assert e.MacroExit? && |s.frames| == |frames| + 1;
    assert s.frames == frames + [f];
  }

  // ----- the handlers -----

  class Locals {
    var Localindex: nat
    var Lastlocalindex: nat
    var Localdollarindex: nat
    var Lastlocaldollarindex: nat
    var Mlevel: nat
    /** The macro files on pIncfile, innermost last. */
    var frames: seq<Frame>

    ghost function State(): Scopes
      reads this
    {
      Scopes(Indices(Localindex, Lastlocalindex, Localdollarindex, Lastlocaldollarindex), Mlevel, frames)
    }

    constructor ()
      ensures State() == START
    {
      Localindex, Lastlocalindex, Localdollarindex, Lastlocaldollarindex, Mlevel, frames := 0, 0, 0, 0, 0, [];
    }

    /** The indices in effect. */
    function Current(): (i: Indices)
      reads this
      ensures i == State().at
    {
      Indices(Localindex, Lastlocalindex, Localdollarindex, Lastlocaldollarindex)
    }

    /** The beginning of programlabel. */
    method OnLabel(name: string)
      modifies this`Localdollarindex, this`Lastlocaldollarindex
      ensures Step(old(State()), Label(name)) == Ok(State())
    {
      if name == "" {
        return;
      }
      if name[0] != '.' && name[|name| - 1] != '$' {
        Lastlocaldollarindex := Lastlocaldollarindex + 1;
        Localdollarindex := Lastlocaldollarindex;
      }
    }

    method VSubroutine(name: string)
      modifies this
      ensures Step(old(State()), Subroutine(name)) == Ok(State())
    {
      Lastlocalindex := Lastlocalindex + 1;
      Localindex := Lastlocalindex;
      OnLabel(name);
    }

    /** `aborted`: too many macro calls inside each other. */
    method VExecmac(name: string) returns (aborted: bool)
      modifies this
      ensures Step(old(State()), MacroCall(name)) == if aborted then Abort else Ok(State())
    {
      OnLabel(name);
      if Mlevel == MAXMACLEVEL {
        return true;
      }
      Mlevel := Mlevel + 1;
      frames := frames + [Frame(Localindex, Localdollarindex)];
      Lastlocalindex := Lastlocalindex + 1;
      Localindex := Lastlocalindex;
      Lastlocaldollarindex := Lastlocaldollarindex + 1;
      Localdollarindex := Lastlocaldollarindex;
      return false;
    }

    method VEndm()
      requires Mlevel == |frames|
      modifies this
      ensures Step(old(State()), MacroExit) == Ok(State()) && Mlevel == |frames|
    {
      if frames != [] {
        var inc := frames[|frames| - 1];
        Mlevel := Mlevel - 1;
        Localindex := inc.saveidx;
        Localdollarindex := inc.savedolidx;
        frames := frames[..|frames| - 1];
      }
    }
  }
}
