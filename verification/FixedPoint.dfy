/** When a pass is a fixed point: the next one would do the same again. */
module FixedPoint {
  import opened Results
  import opened Operators
  import opened Expressions
  import M = ExpressionMachine
  import opened ExpressionProofs
  import opened DataSpec
  import opened LocalScopes
  import L = LineSpec
  import R = LineRefinement
  import opened PassSpec
  import opened PassFacts
  import opened NextPass
  import opened Symbols

  // ----- conditions on every line of a run -----

  function HoldsAt(lines: Lines, last: Syms): Account {
    (f: Reader, f1: Reader) => Reading(lines, f) ==> LineHolds(f, lines[f.pc], last)
  }

  function ReadableAt(lines: Lines, last: Syms): Account {
    (f: Reader, f1: Reader) => Reading(lines, f) ==> LineReadable(f, lines[f.pc], last)
  }

  function DecidedAt(lines: Lines, last: Syms): Account {
    (f: Reader, f1: Reader) => Reading(lines, f) ==> EquDecided(f, lines[f.pc], last)
  }

  function CountedAt(lines: Lines, last: Syms): Account {
    (f: Reader, f1: Reader) => Reading(lines, f) ==> EquDecided(f, lines[f.pc], last) && CountKnown(f, lines[f.pc])
  }

  function SettledAt(lines: Lines): Account {
    (f: Reader, f1: Reader) => Reading(lines, f) ==> EquKnown(f, lines[f.pc]) && CountKnown(f, lines[f.pc])
  }

  function EarlyAt(lines: Lines): Account {
    (f: Reader, f1: Reader) => Reading(lines, f) ==> EquKnown(f, lines[f.pc]) && Early(f, lines[f.pc])
  }

  function AnyAt(): Account { (f: Reader, f1: Reader) => true }

  /** However far it is read, every line of the run from f is so. */
  ghost predicate Throughout(c: Setup, lines: Lines, f: Reader, ok: Account) {
    forall n: nat :: Along(L.Stepper(Handlers(c), lines), ok, f, n)
  }

  /** Reading on from f and from g. */
  ghost predicate Together(next: Reader -> Reader, agree: Account, f: Reader, g: Reader, n: nat)
    decreases n
  {
    n == 0 || (agree(next(f), next(g)) && Together(next, agree, next(f), next(g), n - 1))
  }

  function SamePlace(): Account { (f: Reader, g: Reader) => g.pc == f.pc && g.ifs == f.ifs && g.loops == f.loops }

  /** The same lines are read, and with the same stacks. */
  ghost predicate SamePath(c: Setup, lines: Lines, f: Reader, g: Reader, n: nat) {
    Together(L.Stepper(Handlers(c), lines), SamePlace(), f, g, n)
  }

  /** The pass from g, in as many lines, has the outcome of s. */
  ghost predicate SameOutcome(c: Setup, lines: Lines, g: Reader, n: nat, s: Asm) {
    var r := L.Run(Handlers(c), lines, g, n).s;
    && r.Ok? && PassEnds(c, lines, g, n, r.value)
    && Quiet(r.value) && r.value.out == s.out && ClearRefs(r.value.syms) == ClearRefs(s.syms)
  }

  // ----- inductions over the lines of a run -----

  lemma {:induction false} AlongAny(next: Reader -> Reader, f: Reader, n: nat)
    decreases n
    ensures Along(next, AnyAt(), f, n)
  {
    if n > 0 {
      AlongAny(next, next(f), n - 1);
    }
  }

  lemma {:induction false} AlongBoth(next: Reader -> Reader, a: Account, b: Account, ok: Account, f: Reader, n: nat)
    requires Along(next, a, f, n) && Along(next, b, f, n)
    requires forall x: Reader :: a(x, next(x)) && b(x, next(x)) ==> ok(x, next(x))
    decreases n
    ensures Along(next, ok, f, n)
  {
    if n > 0 {
      AlongBoth(next, a, b, ok, next(f), n - 1);
    }
  }

  /** Backward: what holds at the end, and before a line if it holds after it, holds at the
      beginning. */
  lemma {:induction false} BackAlong(next: Reader -> Reader, good: Prospect, ok: Account, mark: Mark, f: Reader, n: nat)
    requires good(f, n) && Along(next, ok, f, n)
    requires forall x: Reader :: good(x, 0) ==> mark(x)
    requires forall x: Reader, k: nat :: good(x, k) && 0 < k ==>
      good(next(x), k - 1) && (ok(x, next(x)) && mark(next(x)) ==> mark(x))
    decreases n
    ensures mark(f)
  {
    if n > 0 {
      BackAlong(next, good, ok, mark, next(f), n - 1);
    }
  }

  /** Forward: what every step of a good run is told, it is told along it. */
  lemma {:induction false} AlongWhere(next: Reader -> Reader, good: Prospect, a: Account, ok: Account, f: Reader, n: nat)
    requires good(f, n) && Along(next, a, f, n)
    requires forall x: Reader, k: nat :: good(x, k) && 0 < k ==> good(next(x), k - 1) && (a(x, next(x)) ==> ok(x, next(x)))
    decreases n
    ensures Along(next, ok, f, n)
  {
    if n > 0 {
      AlongWhere(next, good, a, ok, next(f), n - 1);
    }
  }

  /** Two runs side by side: they stay the same as long as each line holds, and where one does
      not, the second run is doomed or no longer agrees with the first. */
  lemma {:induction false} SideBySide(
    next: Reader -> Reader, good: Prospect, holds: Account, decided: Account, same: Account, agree: Account, doomed: Mark,
    f: Reader, g: Reader, n: nat)
    requires good(f, n) && same(f, g)
    requires forall x: Reader, k: nat :: good(x, k) && 0 < k ==> good(next(x), k - 1)
    requires forall x: Reader, y: Reader, k: nat :: good(x, k) && 0 < k && same(x, y) ==>
      && (holds(x, next(x)) ==> same(next(x), next(y)))
      && (!holds(x, next(x)) && decided(x, next(x)) ==> doomed(next(y)) || !agree(next(x), next(y)))
    requires forall x: Reader, y: Reader :: same(x, y) ==> agree(x, y)
    requires forall y: Reader :: doomed(y) ==> doomed(next(y))
    decreases n
    ensures Along(next, holds, f, n) ==>
      && good(L.Repeatedly(next, f, n), 0) && same(L.Repeatedly(next, f, n), L.Repeatedly(next, g, n))
      && Together(next, agree, f, g, n)
    ensures Along(next, decided, f, n) && Together(next, agree, f, g, n) && !Along(next, holds, f, n) ==>
      doomed(L.Repeatedly(next, g, n))
  {
    if n > 0 {
      if holds(f, next(f)) {
        SideBySide(next, good, holds, decided, same, agree, doomed, next(f), next(g), n - 1);
      } else if doomed(next(g)) {
        StaysDoomed(next, doomed, next(g), n - 1);
      }
    }
  }

  lemma {:induction false} TogetherAny(next: Reader -> Reader, f: Reader, g: Reader, n: nat)
    decreases n
    ensures Together(next, AnyAt(), f, g, n)
  {
    if n > 0 {
      TogetherAny(next, next(f), next(g), n - 1);
    }
  }

  lemma {:induction false} StaysDoomed(next: Reader -> Reader, doomed: Mark, g: Reader, n: nat)
    requires doomed(g) && forall y: Reader :: doomed(y) ==> doomed(next(y))
    decreases n
    ensures doomed(L.Repeatedly(next, g, n))
  {
    if n > 0 {
      StaysDoomed(next, doomed, next(g), n - 1);
    }
  }

  // ----- a run that ends a quiet pass -----

  ghost function AheadAt(last: Syms, early: bool): Mark { (f: Reader) => Ahead(f.s, last, early) }

  function WhereEarly(lines: Lines, early: bool): Account { if early then EarlyAt(lines) else AnyAt() }

  lemma AheadAtEnd(c: Setup, lines: Lines, s: Asm, f: Reader, early: bool)
    requires RemainsAt(c, lines, s)(f, 0) && Quiet(s)
    ensures AheadAt(s.syms, early)(f)
  {
    assert L.Run(Handlers(c), lines, f, 0) == f;
  }

  lemma AheadAtStep(c: Setup, lines: Lines, s: Asm, f: Reader, f1: Reader, n: nat, early: bool)
    requires 0 < n && RemainsAt(c, lines, s)(f, n) && f1 == L.Stepper(Handlers(c), lines)(f)
    requires WhereEarly(lines, early)(f, f1) && AheadAt(s.syms, early)(f1)
    ensures AheadAt(s.syms, early)(f)
  {
    R.StepperIsNext(Handlers(c), lines, f);
    NextAhead(c, lines, f, s.syms, early);
  }

  /** Such a run in terms of what BackAlong asks for. */
  lemma Backward(c: Setup, lines: Lines, s: Asm, f: Reader, n: nat, early: bool)
    returns (next: Reader -> Reader, good: Prospect, ok: Account, mark: Mark)
    requires Remains(c, lines, s, f, n) && Quiet(s)
    ensures good(f, n) && (mark(f) ==> Ahead(f.s, s.syms, early))
    ensures Along(L.Stepper(Handlers(c), lines), WhereEarly(lines, early), f, n) ==> Along(next, ok, f, n)
    ensures forall x: Reader :: good(x, 0) ==> mark(x)
    ensures forall x: Reader, k: nat :: good(x, k) && 0 < k ==>
      good(next(x), k - 1) && (ok(x, next(x)) && mark(next(x)) ==> mark(x))
  {
    next, good, ok, mark := L.Stepper(Handlers(c), lines), RemainsAt(c, lines, s), WhereEarly(lines, early), AheadAt(s.syms, early);
    forall x: Reader | good(x, 0) ensures mark(x) {
      AheadAtEnd(c, lines, s, x, early);
    }
    forall x: Reader, k: nat | good(x, k) && 0 < k
      ensures good(next(x), k - 1) && (ok(x, next(x)) && mark(next(x)) ==> mark(x))
    {
      RemainsAtStep(c, lines, s, x, k);
      if ok(x, next(x)) && mark(next(x)) {
        AheadAtStep(c, lines, s, x, next(x), k, early);
      }
    }
  }

  /** In a pass that ends quiet, what was known at any line is so at the end; and what was
      read, if no EQU came after a use of its symbol. */
  lemma RunAhead(c: Setup, lines: Lines, s: Asm, f: Reader, n: nat, early: bool)
    requires Remains(c, lines, s, f, n) && Quiet(s)
    requires early ==> Along(L.Stepper(Handlers(c), lines), EarlyAt(lines), f, n)
    ensures Ahead(f.s, s.syms, early)
  {
    var next, good, ok, mark := Backward(c, lines, s, f, n, early);
    AlongAny(L.Stepper(Handlers(c), lines), f, n);
    BackAlong(next, good, ok, mark, f, n);
  }

  // ----- the next pass beside it -----

  ghost function SameAt(last: Syms): Account { (f: Reader, g: Reader) => Same(f, g, last) }

  function DoomedAt(): Mark { (g: Reader) => Doomed(g.s) }

  function DeadAt(): Mark { (g: Reader) => !g.s.Ok? }

  /** How much is known of the pass. Where the operands of EQU and REPEAT are, the next pass
      can only be ended; elsewhere it may ask for another one, or, where a REPEAT was undecided,
      take another way. */
  datatype Mode = Undecided | Counted | Settled

  function Assumed(lines: Lines, last: Syms, mode: Mode): Account {
    match mode
    case Undecided => DecidedAt(lines, last)
    case Counted => CountedAt(lines, last)
    case Settled => SettledAt(lines)
  }

  function Agreeing(mode: Mode): Account { if mode.Undecided? then SamePlace() else AnyAt() }

  function Failing(mode: Mode): Mark { if mode.Settled? then DeadAt() else DoomedAt() }

  lemma StepVerdict(c: Setup, lines: Lines, s: Asm, f: Reader, g: Reader, n: nat, mode: Mode)
    requires 0 < n && RemainsAt(c, lines, s)(f, n) && Quiet(s) && SameAt(s.syms)(f, g)
    ensures
      var (f1, g1) := (L.Stepper(Handlers(c), lines)(f), L.Stepper(Handlers(c), lines)(g));
      && (HoldsAt(lines, s.syms)(f, f1) ==> SameAt(s.syms)(f1, g1))
      && (!HoldsAt(lines, s.syms)(f, f1) && Assumed(lines, s.syms, mode)(f, f1) ==>
          Failing(mode)(g1) || !Agreeing(mode)(f1, g1))
  {
    var f1, g1 := L.Next(Handlers(c), lines, f), L.Next(Handlers(c), lines, g);
    R.StepperIsNext(Handlers(c), lines, f);
    R.StepperIsNext(Handlers(c), lines, g);
    RemainsStep(c, lines, s, f, f1, n);
    RunAhead(c, lines, s, f1, n - 1, false);
    NextFollows(c, lines, f, f1, g, g1, s.syms);
    if mode.Settled? && Reading(lines, f) && EquKnown(f, lines[f.pc]) {
      NextSettled(c, lines, f, s.syms);
    }
  }

  lemma StepFailing(c: Setup, lines: Lines, g: Reader, mode: Mode)
    ensures Failing(mode)(g) ==> Failing(mode)(L.Stepper(Handlers(c), lines)(g))
  {
    R.StepperIsNext(Handlers(c), lines, g);
    NextOrderly(c, lines, g);
  }

  lemma StepsVerdict(c: Setup, lines: Lines, s: Asm, next: Reader -> Reader, good: Prospect, same: Account, mode: Mode)
    requires Quiet(s) && next == L.Stepper(Handlers(c), lines) && good == RemainsAt(c, lines, s) && same == SameAt(s.syms)
    ensures forall x: Reader, k: nat :: good(x, k) && 0 < k ==> good(next(x), k - 1)
    ensures forall x: Reader, y: Reader, k: nat :: good(x, k) && 0 < k && same(x, y) ==>
      && (HoldsAt(lines, s.syms)(x, next(x)) ==> same(next(x), next(y)))
      && (!HoldsAt(lines, s.syms)(x, next(x)) && Assumed(lines, s.syms, mode)(x, next(x)) ==>
          Failing(mode)(next(y)) || !Agreeing(mode)(next(x), next(y)))
  {
    forall x: Reader, k: nat | good(x, k) && 0 < k ensures good(next(x), k - 1) {
      RemainsAtStep(c, lines, s, x, k);
    }
    forall x: Reader, y: Reader, k: nat | good(x, k) && 0 < k && same(x, y)
      ensures HoldsAt(lines, s.syms)(x, next(x)) ==> same(next(x), next(y))
      ensures !HoldsAt(lines, s.syms)(x, next(x)) && Assumed(lines, s.syms, mode)(x, next(x)) ==>
        Failing(mode)(next(y)) || !Agreeing(mode)(next(x), next(y))
    {
      StepVerdict(c, lines, s, x, y, k, mode);
    }
  }

  lemma Forward(c: Setup, lines: Lines, s: Asm, f: Reader, g: Reader, n: nat, mode: Mode)
    returns (next: Reader -> Reader, good: Prospect, holds: Account, decided: Account, same: Account, agree: Account, doomed: Mark)
    requires Remains(c, lines, s, f, n) && Quiet(s) && Same(f, g, s.syms)
    ensures good(f, n) && same(f, g)
    ensures Along(next, holds, f, n) <==> Along(L.Stepper(Handlers(c), lines), HoldsAt(lines, s.syms), f, n)
    ensures Along(next, decided, f, n) <==> Along(L.Stepper(Handlers(c), lines), Assumed(lines, s.syms, mode), f, n)
    ensures Together(next, agree, f, g, n) <==> Together(L.Stepper(Handlers(c), lines), Agreeing(mode), f, g, n)
    ensures doomed(L.Repeatedly(next, g, n)) ==> Failing(mode)(L.Run(Handlers(c), lines, g, n))
    ensures good(L.Repeatedly(next, f, n), 0) && same(L.Repeatedly(next, f, n), L.Repeatedly(next, g, n)) ==>
      SameOutcome(c, lines, g, n, s)
    ensures forall x: Reader, k: nat :: good(x, k) && 0 < k ==> good(next(x), k - 1)
    ensures forall x: Reader, y: Reader, k: nat :: good(x, k) && 0 < k && same(x, y) ==>
      && (holds(x, next(x)) ==> same(next(x), next(y)))
      && (!holds(x, next(x)) && decided(x, next(x)) ==> doomed(next(y)) || !agree(next(x), next(y)))
    ensures forall x: Reader, y: Reader :: same(x, y) ==> agree(x, y)
    ensures forall y: Reader :: doomed(y) ==> doomed(next(y))
  {
    next, good, same := L.Stepper(Handlers(c), lines), RemainsAt(c, lines, s), SameAt(s.syms);
    holds, decided, agree, doomed := HoldsAt(lines, s.syms), Assumed(lines, s.syms, mode), Agreeing(mode), Failing(mode);
    StepsVerdict(c, lines, s, next, good, same, mode);
    forall y: Reader | doomed(y) ensures doomed(next(y)) {
      StepFailing(c, lines, y, mode);
    }
    SameAtEnd(c, lines, s, f, g, n);
  }

  lemma SameAtEnd(c: Setup, lines: Lines, s: Asm, f: Reader, g: Reader, n: nat)
    requires PassEnds(c, lines, f, n, s) && Quiet(s)
    ensures
      var (f1, g1) := (L.Run(Handlers(c), lines, f, n), L.Run(Handlers(c), lines, g, n));
      RemainsAt(c, lines, s)(f1, 0) && SameAt(s.syms)(f1, g1) ==> SameOutcome(c, lines, g, n, s)
  {
    var f1, g1 := L.Run(Handlers(c), lines, f, n), L.Run(Handlers(c), lines, g, n);
    if RemainsAt(c, lines, s)(f1, 0) && SameAt(s.syms)(f1, g1) {
      SameRefsCleared(s, g1.s.value);
    }
  }

  lemma SameRefsCleared(s: Asm, r: Asm)
    requires Mirrors(s, r, s.syms)
    ensures ClearRefs(r.syms) == ClearRefs(s.syms)
  {
    forall x ensures x in r.syms <==> x in s.syms ensures x in r.syms ==> r.syms[x].arg == s.syms[x].arg {
      ValueIn(r.syms, s.syms, x);
    }
  }

  lemma {:induction false} AlongEver(next: Reader -> Reader, ended: Mark, ok: Account, f: Reader, n: nat, m: nat)
    requires Along(next, ok, f, n) && ended(L.Repeatedly(next, f, n))
    requires forall x: Reader :: ended(x) ==> next(x) == x && ok(x, x)
    decreases m
    ensures Along(next, ok, f, m)
  {
    if m > 0 {
      AlongEver(next, ended, ok, next(f), if n == 0 then 0 else n - 1, m - 1);
    }
  }

  function EndedAt(lines: Lines): Mark { (f: Reader) => |lines| <= f.pc }

  /** Nothing is claimed of a state in which the file has been read. */
  ghost predicate OnlyLines(lines: Lines, ok: Account) { forall x: Reader :: EndedAt(lines)(x) ==> ok(x, x) }

  /** What is true of the lines of a pass up to its end is true of them all. */
  lemma UpToTheEnd(c: Setup, lines: Lines, f: Reader, n: nat, s: Asm, ok: Account)
    requires PassEnds(c, lines, f, n, s) && OnlyLines(lines, ok)
    ensures Throughout(c, lines, f, ok) <==> Along(L.Stepper(Handlers(c), lines), ok, f, n)
  {
    var next := L.Stepper(Handlers(c), lines);
    if Along(next, ok, f, n) {
      forall x: Reader | EndedAt(lines)(x) ensures next(x) == x {
        R.StepperIsNext(Handlers(c), lines, x);
      }
      forall m: nat ensures Along(next, ok, f, m) {
        AlongEver(next, EndedAt(lines), ok, f, n, m);
      }
    }
  }

  lemma Beside(c: Setup, lines: Lines, s: Asm, f: Reader, g: Reader, n: nat, mode: Mode)
    requires Remains(c, lines, s, f, n) && Quiet(s) && Same(f, g, s.syms)
    ensures
      var next := L.Stepper(Handlers(c), lines);
      var holds := Along(next, HoldsAt(lines, s.syms), f, n);
      && (holds ==> SameOutcome(c, lines, g, n, s) && Together(next, Agreeing(mode), f, g, n))
      && (!holds && Along(next, Assumed(lines, s.syms, mode), f, n) && Together(next, Agreeing(mode), f, g, n) ==>
          Failing(mode)(L.Run(Handlers(c), lines, g, n)))
  {
    var next, good, holds, decided, same, agree, doomed := Forward(c, lines, s, f, g, n, mode);
    SideBySide(next, good, holds, decided, same, agree, doomed, f, g, n);
  }

  // ----- the theorems -----

  /** From any line of a pass that ends quiet, at a known origin or before the first ORG, and
      for a next pass at the same line with the symbols this one leaves: it goes the same way to
      the same outcome if and only if every line holds. */
  lemma SecondPassSame(c: Setup, lines: Lines, f: Reader, g: Reader, n: nat, s: Asm)
    requires Placeable(lines, f) && PassEnds(c, lines, f, n, s) && Quiet(s) && Same(f, g, s.syms)
    ensures Throughout(c, lines, f, HoldsAt(lines, s.syms)) ==> SameOutcome(c, lines, g, n, s) && SamePath(c, lines, f, g, n)
    ensures Throughout(c, lines, f, DecidedAt(lines, s.syms)) && SameOutcome(c, lines, g, n, s) && SamePath(c, lines, f, g, n) ==>
      Throughout(c, lines, f, HoldsAt(lines, s.syms))
  {
    UpToTheEnd(c, lines, f, n, s, HoldsAt(lines, s.syms));
    UpToTheEnd(c, lines, f, n, s, DecidedAt(lines, s.syms));
    Beside(c, lines, s, f, g, n, Undecided);
  }

  lemma {:induction false} NoneFail(next: Reader -> Reader, doomed: Mark, g: Reader, n: nat, m: nat)
    requires doomed(L.Repeatedly(next, g, n)) && next(L.Repeatedly(next, g, m)) == L.Repeatedly(next, g, m)
    requires forall y: Reader :: doomed(y) ==> doomed(next(y))
    decreases n, m
    ensures doomed(L.Repeatedly(next, g, m))
  {
    if n == 0 {
      StaysDoomed(next, doomed, g, m);
    } else if m == 0 {
      Stands(next, g, n);
    } else {
      NoneFail(next, doomed, next(g), n - 1, m - 1);
    }
  }

  lemma {:induction false} Stands(next: Reader -> Reader, g: Reader, n: nat)
    requires next(g) == g
    decreases n
    ensures L.Repeatedly(next, g, n) == g
  {
    if n > 0 {
      Stands(next, g, n - 1);
    }
  }

  /** The next pass, however long it is, fails where a line does not hold and no REPEAT was
      undecided. */
  lemma FailsAtTheEnd(c: Setup, lines: Lines, s: Asm, f: Reader, g: Reader, n: nat, m: nat, mode: Mode)
    requires Placeable(lines, f) && PassEnds(c, lines, f, n, s) && Quiet(s) && Same(f, g, s.syms)
    requires !mode.Undecided? && Throughout(c, lines, f, Assumed(lines, s.syms, mode))
    requires !Throughout(c, lines, f, HoldsAt(lines, s.syms)) && |lines| <= L.Run(Handlers(c), lines, g, m).pc
    ensures Failing(mode)(L.Run(Handlers(c), lines, g, m))
  {
    var next := L.Stepper(Handlers(c), lines);
    UpToTheEnd(c, lines, f, n, s, HoldsAt(lines, s.syms));
    TogetherAny(next, f, g, n);
    Beside(c, lines, s, f, g, n, mode);
    forall y: Reader | Failing(mode)(y) ensures Failing(mode)(next(y)) {
      StepFailing(c, lines, y, mode);
    }
    R.StepperIsNext(Handlers(c), lines, L.Run(Handlers(c), lines, g, m));
    NoneFail(next, Failing(mode), g, n, m);
  }

  /** And where the operands of EQU and REPEAT are known, the next pass either has the same
      outcome or is ended, by an operand that cannot be read with the last symbols. */
  lemma SecondPassReads(c: Setup, lines: Lines, f: Reader, g: Reader, n: nat, s: Asm)
    requires Placeable(lines, f) && PassEnds(c, lines, f, n, s) && Quiet(s) && Same(f, g, s.syms)
    requires Throughout(c, lines, f, SettledAt(lines))
    ensures SameOutcome(c, lines, g, n, s) <==> Throughout(c, lines, f, ReadableAt(lines, s.syms))
    ensures SameOutcome(c, lines, g, n, s) <==> L.Run(Handlers(c), lines, g, n).s.Ok?
  {
    SettledHolds(c, lines, f, n, s);
    UpToTheEnd(c, lines, f, n, s, HoldsAt(lines, s.syms));
    TogetherAny(L.Stepper(Handlers(c), lines), f, g, n);
    Beside(c, lines, s, f, g, n, Settled);
  }

  /** In a settled pass a line holds if it can be read. */
  lemma SettledHolds(c: Setup, lines: Lines, f: Reader, n: nat, s: Asm)
    requires Placeable(lines, f) && PassEnds(c, lines, f, n, s) && Quiet(s) && Throughout(c, lines, f, SettledAt(lines))
    ensures Throughout(c, lines, f, ReadableAt(lines, s.syms)) <==> Throughout(c, lines, f, HoldsAt(lines, s.syms))
  {
    UpToTheEnd(c, lines, f, n, s, HoldsAt(lines, s.syms));
    UpToTheEnd(c, lines, f, n, s, ReadableAt(lines, s.syms));
    HoldsIfRead(c, lines, s, f, n);
  }

  lemma SettledStep(c: Setup, lines: Lines, s: Asm, f: Reader, n: nat)
    requires 0 < n && RemainsAt(c, lines, s)(f, n) && Quiet(s) && SettledAt(lines)(f, L.Stepper(Handlers(c), lines)(f))
    ensures
      var f1 := L.Stepper(Handlers(c), lines)(f);
      ReadableAt(lines, s.syms)(f, f1) <==> HoldsAt(lines, s.syms)(f, f1)
  {
    var f1 := L.Next(Handlers(c), lines, f);
    R.StepperIsNext(Handlers(c), lines, f);
    RemainsStep(c, lines, s, f, f1, n);
    RunAhead(c, lines, s, f1, n - 1, false);
    if Reading(lines, f) {
      NextSettled(c, lines, f, s.syms);
    }
  }

  lemma {:induction false} HoldsIfRead(c: Setup, lines: Lines, s: Asm, f: Reader, n: nat)
    requires Remains(c, lines, s, f, n) && Quiet(s) && Along(L.Stepper(Handlers(c), lines), SettledAt(lines), f, n)
    decreases n
    ensures
      var next := L.Stepper(Handlers(c), lines);
      Along(next, ReadableAt(lines, s.syms), f, n) <==> Along(next, HoldsAt(lines, s.syms), f, n)
  {
    if n > 0 {
      var next := L.Stepper(Handlers(c), lines);
      RemainsAtStep(c, lines, s, f, n);
      AlongUnfolds(next, SettledAt(lines), f, n);
      AlongUnfolds(next, ReadableAt(lines, s.syms), f, n);
      AlongUnfolds(next, HoldsAt(lines, s.syms), f, n);
      SettledStep(c, lines, s, f, n);
      HoldsIfRead(c, lines, s, next(f), n - 1);
    }
  }

  lemma TwoPasses(c: Setup, lines: Lines, syms: Syms, org: nat, n: nat, s: Asm, org': nat)
    requires BeginsWithOrg(lines) && PassEnds(c, lines, Begin(syms, org), n, s)
    ensures Placeable(lines, Begin(syms, org)) && Same(Begin(syms, org), Begin(ClearRefs(s.syms), org'), s.syms)
  {
    assert Values(ClearRefs(s.syms)) == Values(s.syms);
  }

  /** When the final pass is a fixed point. Whatever the symbols of the pass before it, let a
      pass over a program that sets its origin first ask for no other, with every ORG operand
      known, and with no symbol that an EQU defines left unknown. Then another pass (from the
      symbols it leaves, with the origin anywhere) reads the same lines, writes the same file,
      asks for no other and leaves the same values, if and only if every line holds: read with
      the symbols this pass leaves, its operands can be read, an EQU gives what its symbol has,
      and a REPEAT that was passed over is passed over. Where the operand of every REPEAT was
      known, it reads the same lines of itself. */
  lemma FinalPassIsFixedPoint(c: Setup, lines: Lines, syms: Syms, org: nat, n: nat, s: Asm, org': nat)
    requires BeginsWithOrg(lines) && PassEnds(c, lines, Begin(syms, org), n, s) && Quiet(s)
    requires Throughout(c, lines, Begin(syms, org), DecidedAt(lines, s.syms))
    ensures
      var (f, g) := (Begin(syms, org), Begin(ClearRefs(s.syms), org'));
      && (SameOutcome(c, lines, g, n, s) && SamePath(c, lines, f, g, n) <==> Throughout(c, lines, f, HoldsAt(lines, s.syms)))
      && (Throughout(c, lines, f, CountedAt(lines, s.syms)) ==>
          (SameOutcome(c, lines, g, n, s) <==> Throughout(c, lines, f, HoldsAt(lines, s.syms))))
  {
    var f, g := Begin(syms, org), Begin(ClearRefs(s.syms), org');
    TwoPasses(c, lines, syms, org, n, s, org');
    SecondPassSame(c, lines, f, g, n, s);
    if Throughout(c, lines, f, CountedAt(lines, s.syms)) && !Throughout(c, lines, f, HoldsAt(lines, s.syms)) && SameOutcome(c, lines, g, n, s) {
      FailsAtTheEnd(c, lines, s, f, g, n, n, Counted);
    }
  }

  /** With symbols left unknown the lines that hold are still enough. */
  lemma HoldingPassIsFixedPoint(c: Setup, lines: Lines, syms: Syms, org: nat, n: nat, s: Asm, org': nat)
    requires BeginsWithOrg(lines) && PassEnds(c, lines, Begin(syms, org), n, s) && Quiet(s)
    requires Throughout(c, lines, Begin(syms, org), HoldsAt(lines, s.syms))
    ensures SameOutcome(c, lines, Begin(ClearRefs(s.syms), org'), n, s)
  {
    TwoPasses(c, lines, syms, org, n, s, org');
    SecondPassSame(c, lines, Begin(syms, org), Begin(ClearRefs(s.syms), org'), n, s);
  }

  /** If the operands of EQU and REPEAT were known, late EQUs or not, a next pass with another
      outcome is one that ends at an operand which divides by zero; and the pass is a fixed point
      if and only if none of its operands does so when it is read with the last symbols. */
  lemma SettledPassIsFixedPoint(c: Setup, lines: Lines, syms: Syms, org: nat, n: nat, s: Asm, org': nat)
    requires BeginsWithOrg(lines) && PassEnds(c, lines, Begin(syms, org), n, s) && Quiet(s)
    requires Throughout(c, lines, Begin(syms, org), SettledAt(lines))
    ensures
      var (f, g) := (Begin(syms, org), Begin(ClearRefs(s.syms), org'));
      && (SameOutcome(c, lines, g, n, s) <==> Throughout(c, lines, f, ReadableAt(lines, s.syms)))
      && (SameOutcome(c, lines, g, n, s) <==> L.Run(Handlers(c), lines, g, n).s.Ok?)
  {
    TwoPasses(c, lines, syms, org, n, s, org');
    SecondPassReads(c, lines, Begin(syms, org), Begin(ClearRefs(s.syms), org'), n, s);
  }

  // ----- operands that cannot be read -----

  /** Somewhere in the tree a known value is divided by a known zero. */
  predicate DividesByZero(table: M.Table, t: Tree) {
    match t
    case Leaf(_) => false
    case Unary(_, e) => DividesByZero(table, e)
    case Group(e) => DividesByZero(table, e)
    case Binary(op, l, r) =>
      || DividesByZero(table, l) || DividesByZero(table, r)
      || ((op.Div? || op.Mod?) && KnownValue(table, l) && EvalTree(table, M.MAX_RECURSION, r) == Ok(Arg(0, false)))
  }

  predicate KnownValue(table: M.Table, t: Tree) {
    EvalTree(table, M.MAX_RECURSION, t).Ok? && !EvalTree(table, M.MAX_RECURSION, t).value.unknown
  }

  lemma {:induction false} ReadUnlessDivided(table: M.Table, t: Tree)
    requires Plain(table)
    ensures EvalTree(table, M.MAX_RECURSION, t).Ok? <==> !DividesByZero(table, t)
  {
    match t
    case Leaf(_) =>
    case Unary(_, e) => ReadUnlessDivided(table, e);
    case Group(e) => ReadUnlessDivided(table, e);
    case Binary(_, l, r) =>
      ReadUnlessDivided(table, l);
      ReadUnlessDivided(table, r);
  }

  lemma {:induction false} ItemsUnlessDivided(table: M.Table, es: seq<Element>)
    requires Plain(table)
    ensures EvalItems(table, es).Ok? <==> forall e <- es :: e.Expr? ==> !DividesByZero(table, e.t)
  {
    if es != [] {
      ItemsUnlessDivided(table, es[1..]);
      assert forall e :: e in es <==> e == es[0] || e in es[1..];
      if es[0].Expr? {
        ReadUnlessDivided(table, es[0].t);
      }
    }
  }

  /** The operands of a statement can be read with the last symbols if and only if none of them,
      in its scope and at its origin, divides by zero. */
  lemma ReadableIffUndivided(s: Asm, es: seq<Element>, last: Syms)
    ensures Evaluate(AtEnd(s, last), es).Ok? <==>
      forall e <- LocalizeAll(s.at, es) :: e.Expr? ==> !DividesByZero(Env(last, s.out), e.t)
  {
    ItemsUnlessDivided(Env(last, s.out), LocalizeAll(s.at, es));
  }

  /** No `/` and no `%`. */
  predicate Undivided(t: Tree) {
    match t
    case Leaf(_) => true
    case Unary(_, e) => Undivided(e)
    case Group(e) => Undivided(e)
    case Binary(op, l, r) => !op.Div? && !op.Mod? && Undivided(l) && Undivided(r)
  }

  predicate UndividedStatement(t: Statement) { forall e <- ElementsOf(t) :: e.Expr? ==> Undivided(e.t) }

  lemma {:induction false} NeverDivides(table: M.Table, at: Indices, t: Tree)
    requires Undivided(t)
    ensures !DividesByZero(table, Localize(at, t))
  {
    match t
    case Leaf(_) =>
    case Unary(_, e) => NeverDivides(table, at, e);
    case Group(e) => NeverDivides(table, at, e);
    case Binary(_, l, r) =>
      NeverDivides(table, at, l);
      NeverDivides(table, at, r);
  }

  lemma UndividedReads(s: Asm, es: seq<Element>, last: Syms)
    requires forall e <- es :: e.Expr? ==> Undivided(e.t)
    ensures Evaluate(AtEnd(s, last), es).Ok?
  {
    var us := LocalizeAll(s.at, es);
    forall e | e in us && e.Expr? ensures !DividesByZero(Env(last, s.out), e.t) {
      var i :| 0 <= i < |us| && us[i] == e;
      assert es[i].Expr?;
      NeverDivides(Env(last, s.out), s.at, es[i].t);
    }
    ReadableIffUndivided(s, es, last);
  }

  lemma UndividedLine(f: Reader, line: L.Line<Statement>, last: Syms)
    requires UndividedStatement(line.t)
    ensures LineReadable(f, line, last)
  {
    if Executed(f, line) {
      var s, t := f.s.value, line.t;
      UndividedReads(s, ElementsOf(t), last);
      UndividedReads(ProgramLabel(s, t.name), ElementsOf(t), last);
    }
  }

  lemma {:induction false} UndividedRun(next: Reader -> Reader, lines: Lines, last: Syms, f: Reader, n: nat)
    requires forall line <- lines :: UndividedStatement(line.t)
    decreases n
    ensures Along(next, ReadableAt(lines, last), f, n)
  {
    if n > 0 {
      if Reading(lines, f) {
        UndividedLine(f, lines[f.pc], last);
      }
      UndividedRun(next, lines, last, next(f), n - 1);
    }
  }

  /** So a program without `/` and `%` needs no condition on late EQUs. */
  lemma UndividedIsFixedPoint(c: Setup, lines: Lines, syms: Syms, org: nat, n: nat, s: Asm, org': nat)
    requires BeginsWithOrg(lines) && PassEnds(c, lines, Begin(syms, org), n, s) && Quiet(s)
    requires Throughout(c, lines, Begin(syms, org), SettledAt(lines)) && forall line <- lines :: UndividedStatement(line.t)
    ensures SameOutcome(c, lines, Begin(ClearRefs(s.syms), org'), n, s)
  {
    forall m: nat ensures Along(L.Stepper(Handlers(c), lines), ReadableAt(lines, s.syms), Begin(syms, org), m) {
      UndividedRun(L.Stepper(Handlers(c), lines), lines, s.syms, Begin(syms, org), m);
    }
    SettledPassIsFixedPoint(c, lines, syms, org, n, s, org');
  }

  // ----- programs without late EQUs -----

  lemma EarlyStep(c: Setup, lines: Lines, s: Asm, f: Reader, n: nat)
    requires 0 < n && RemainsAt(c, lines, s)(f, n) && Quiet(s) && Along(L.Stepper(Handlers(c), lines), EarlyAt(lines), f, n)
    ensures HoldsAt(lines, s.syms)(f, L.Stepper(Handlers(c), lines)(f))
  {
    AlongUnfolds(L.Stepper(Handlers(c), lines), EarlyAt(lines), f, n);
    RemainsAtStep(c, lines, s, f, n);
    RunAhead(c, lines, s, L.Stepper(Handlers(c), lines)(f), n - 1, true);
    EarlyHolds(c, lines, f, s.syms);
  }

  lemma EarlyHolds(c: Setup, lines: Lines, f: Reader, last: Syms)
    requires Placeable(lines, f) && Ahead(L.Stepper(Handlers(c), lines)(f).s, last, true)
    requires EarlyAt(lines)(f, L.Stepper(Handlers(c), lines)(f))
    ensures HoldsAt(lines, last)(f, L.Stepper(Handlers(c), lines)(f))
  {
    R.StepperIsNext(Handlers(c), lines, f);
    if Reading(lines, f) {
      NextEarly(c, lines, f, last);
    }
  }

  lemma {:induction false} HoldsIfEarly(c: Setup, lines: Lines, s: Asm, f: Reader, n: nat)
    requires Remains(c, lines, s, f, n) && Quiet(s) && Along(L.Stepper(Handlers(c), lines), EarlyAt(lines), f, n)
    decreases n
    ensures Along(L.Stepper(Handlers(c), lines), HoldsAt(lines, s.syms), f, n)
  {
    if n > 0 {
      var next := L.Stepper(Handlers(c), lines);
      RemainsAtStep(c, lines, s, f, n);
      AlongUnfolds(next, EarlyAt(lines), f, n);
      AlongUnfolds(next, HoldsAt(lines, s.syms), f, n);
      EarlyStep(c, lines, s, f, n);
      HoldsIfEarly(c, lines, s, next(f), n - 1);
    }
  }

  /** If the operands of EQUs were known and no EQU came after a use of its symbol, the pass is a
      fixed point, whatever its REPEATs: all its lines hold. */
  lemma EarlyPassIsFixedPoint(c: Setup, lines: Lines, syms: Syms, org: nat, n: nat, s: Asm, org': nat)
    requires BeginsWithOrg(lines) && PassEnds(c, lines, Begin(syms, org), n, s) && Quiet(s)
    requires Throughout(c, lines, Begin(syms, org), EarlyAt(lines))
    ensures Throughout(c, lines, Begin(syms, org), HoldsAt(lines, s.syms))
    ensures SameOutcome(c, lines, Begin(ClearRefs(s.syms), org'), n, s)
  {
    TwoPasses(c, lines, syms, org, n, s, org');
    HoldsIfEarly(c, lines, s, Begin(syms, org), n);
    UpToTheEnd(c, lines, Begin(syms, org), n, s, HoldsAt(lines, s.syms));
    HoldingPassIsFixedPoint(c, lines, syms, org, n, s, org');
  }

  // ----- programs without EQU -----

  /** Labels, data, instructions, IF and REPEAT, and ORG with a number. */
  predicate Straightforward(t: Statement) {
    !t.op.Equ? && (t.op.Org? ==> t.op.t.Leaf? && t.op.t.atom.Number?)
  }

  ghost predicate AsPlaced(s: State, s': State) { s'.Ok? ==> s.Ok? && s'.value.placed == s.value.placed }

  lemma NumberKnown(s: Asm, t: Tree)
    requires t.Leaf? && t.atom.Number?
    ensures EvalOne(s, t).Ok? ==> !EvalOne(s, t).value.1.unknown
  {
    OneItem(s, t);
    var us := LocalizeAll(s.at, [Expr(t)]);
    assert us[0] == Expr(t) && us[1..] == [];
    assert EvalItems(Env(s.syms, s.out), us[1..]) == Ok([]);
  }

  lemma DataPlaced(s: Asm, name: string, es: seq<Element>, o: Result<Out>)
    requires Evaluate(ProgramLabel(s, name), es).Ok?
    ensures AsPlaced(Ok(s), WithOut(Evaluate(ProgramLabel(s, name), es).value.0, o))
  {}

  lemma ExecutePlaced(c: Setup, s: Asm, t: Statement)
    requires Straightforward(t)
    ensures AsPlaced(Ok(s), Execute(c, s, t))
  {
    match t.op
    case Org(e) => NumberKnown(s, e);
    case Dc(es, w) =>
      var r := Evaluate(ProgramLabel(s, t.name), es);
      if r.Ok? {
        DataPlaced(s, t.name, es, EmitDc(c, r.value.0.out, r.value.1, w));
      }
    case Ds(count, filler, w) =>
      var r := Evaluate(ProgramLabel(s, t.name), Amounts(count, filler));
      if r.Ok? {
        var w1 := if w == Swapped then ByteWidth else w;
        DataPlaced(s, t.name, Amounts(count, filler), FillDs(c, r.value.0.out, r.value.1, w1));
      }
    case Mnem(i) =>
      var r := Evaluate(ProgramLabel(s, t.name), Elements(i.args));
      if r.Ok? {
        DataPlaced(s, t.name, Elements(i.args), EmitInsn(c, BumpOut(r.value.0.out, Unknowns(r.value.1)), i, Args(r.value.1)));
      }
    case _ =>
  }

  lemma HandlePlaced(c: Setup, line: L.Line<Statement>, f: Reader)
    requires f.ifs != [] && Straightforward(line.t)
    ensures AsPlaced(f.s, L.Handle(Handlers(c), line, f).s)
  {
    var t := line.t;
    assert Handlers(c).plain(f.s, t) == OnPlain(c, f.s, t);
    assert Handlers(c).define(f.s, t) == OnDefine(f.s, t);
    assert Handlers(c).eval(Handlers(c).define(f.s, t), t) == Decide(f.s, t);
    if line.Plain? && f.s.Ok? {
      ExecutePlaced(c, f.s.value, t);
    }
  }

  lemma {:induction false} RunPlaced(c: Setup, lines: Lines, f: Reader, n: nat)
    requires forall line <- lines :: Straightforward(line.t)
    decreases n
    ensures AsPlaced(f.s, L.Run(Handlers(c), lines, f, n).s)
  {
    if n > 0 {
      var f1 := L.Next(Handlers(c), lines, f);
      R.RunUnfolds(Handlers(c), lines, f, n);
      R.NextHandles(Handlers(c), lines, f);
      if Reading(lines, f) {
        HandlePlaced(c, lines[f.pc], f.(pc := f.pc + 1));
      }
      RunPlaced(c, lines, f1, n - 1);
    }
  }

  lemma {:induction false} NoEquIsEarly(next: Reader -> Reader, lines: Lines, f: Reader, n: nat)
    requires forall line <- lines :: Straightforward(line.t)
    decreases n
    ensures Along(next, EarlyAt(lines), f, n)
  {
    if n > 0 {
      assert Reading(lines, f) ==> lines[f.pc] in lines;
      NoEquIsEarly(next, lines, next(f), n - 1);
    }
  }

  /** For a program of labels, DC, DS, instructions, SUBROUTINE, IF and REPEAT, and ORG with
      numbers, beginning with an ORG, Redo = 0 is enough: the pass is a fixed point. */
  lemma RedoZeroIsFixedPoint(c: Setup, lines: Lines, syms: Syms, org: nat, n: nat, s: Asm, org': nat)
    requires BeginsWithOrg(lines) && forall line <- lines :: Straightforward(line.t)
    requires PassEnds(c, lines, Begin(syms, org), n, s) && Redo(s) == 0
    ensures SameOutcome(c, lines, Begin(ClearRefs(s.syms), org'), n, s)
  {
    RunPlaced(c, lines, Begin(syms, org), n);
    forall m: nat ensures Along(L.Stepper(Handlers(c), lines), EarlyAt(lines), Begin(syms, org), m) {
      NoEquIsEarly(L.Stepper(Handlers(c), lines), lines, Begin(syms, org), m);
    }
    EarlyPassIsFixedPoint(c, lines, syms, org, n, s, org');
  }
}
