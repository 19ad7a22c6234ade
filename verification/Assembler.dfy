/** The loop over the passes of src/main.c, on the hash table and the expression stacks that
    outlive a pass. */
module Assembler {
  import opened Results
  import E = Evaluator
  import opened Files
  import T = SymbolTable
  import L = LineSpec
  import R = LineRefinement
  import opened PassSpec
  import opened Symbols
  import opened PassFacts
  import opened NextPass
  import opened FixedPoint
  import P = PassOutput
  import opened StatementHandlers
  import opened LineReader

  // ----- the pass loop -----

  /** What the structure of a file says that one pass over it does. */
  function OnePass(c: Setup, b: L.Block<Statement>, syms: Syms, org: nat): State {
    L.Exec(Handlers(c), b, Begin(syms, org).s)
  }

  lemma PassOfBlock(c: Setup, b: L.Block<Statement>, syms: Syms, org: nat) returns (n: nat)
    ensures L.Run(Handlers(c), L.Lines(b), Begin(syms, org), n) ==
      L.Flat(|L.Lines(b)|, [L.TOP_LEVEL], [], OnePass(c, b, syms, org))
  {
    R.FileRefines(Handlers(c), b, Begin(syms, org).s);
    n :| L.Run(Handlers(c), L.Lines(b), Begin(syms, org), n) ==
      L.Flat(|L.Lines(b)|, [L.TOP_LEVEL], [], OnePass(c, b, syms, org));
  }

  /** The outcome of a pass. */
  predicate SameEnd(r: State, s: Asm) {
    r.Ok? && Quiet(r.value) && r.value.out == s.out && ClearRefs(r.value.syms) == ClearRefs(s.syms)
  }

  lemma SameEndOfBlock(c: Setup, b: L.Block<Statement>, syms: Syms, org: nat, n: nat, s: Asm)
    ensures SameOutcome(c, L.Lines(b), Begin(syms, org), n, s) ==> SameEnd(OnePass(c, b, syms, org), s)
  {
    if SameOutcome(c, L.Lines(b), Begin(syms, org), n, s) {
      var m := PassOfBlock(c, b, syms, org);
      R.OneEnd(Handlers(c), L.Lines(b), Begin(syms, org), m, n);
    }
  }

  lemma FailingBlock(c: Setup, b: L.Block<Statement>, syms: Syms, org: nat, n: nat, s: Asm, org': nat, mode: Mode)
    requires BeginsWithOrg(L.Lines(b)) && PassEnds(c, L.Lines(b), Begin(syms, org), n, s) && Quiet(s) && !mode.Undecided?
    requires Throughout(c, L.Lines(b), Begin(syms, org), Assumed(L.Lines(b), s.syms, mode))
    requires !Throughout(c, L.Lines(b), Begin(syms, org), HoldsAt(L.Lines(b), s.syms))
    ensures
      var again := OnePass(c, b, ClearRefs(s.syms), org');
      if mode.Settled? then !again.Ok? else Doomed(again)
  {
    var lines, f, g := L.Lines(b), Begin(syms, org), Begin(ClearRefs(s.syms), org');
    TwoPasses(c, lines, syms, org, n, s, org');
    var m := PassOfBlock(c, b, ClearRefs(s.syms), org');
    FailsAtTheEnd(c, lines, s, f, g, n, m, mode);
  }

  /** The fixed point for well-nested files, with no line counted: the structured meaning of the
      file, applied again to the symbols a quiet pass leaves, gives the same output and symbols
      if every line of the pass holds, and only if, where no symbol of an EQU is left unknown
      and the operands of its REPEATs were known. */
  lemma BlockIsFixedPoint(c: Setup, b: L.Block<Statement>, syms: Syms, org: nat, s: Asm, org': nat)
    requires BeginsWithOrg(L.Lines(b)) && OnePass(c, b, syms, org) == Ok(s) && Quiet(s)
    ensures
      var (lines, f, again) := (L.Lines(b), Begin(syms, org), OnePass(c, b, ClearRefs(s.syms), org'));
      && (Throughout(c, lines, f, HoldsAt(lines, s.syms)) ==> SameEnd(again, s))
      && (Throughout(c, lines, f, CountedAt(lines, s.syms)) && SameEnd(again, s) ==> Throughout(c, lines, f, HoldsAt(lines, s.syms)))
  {
    var lines, f := L.Lines(b), Begin(syms, org);
    var n := PassOfBlock(c, b, syms, org);
    if Throughout(c, lines, f, HoldsAt(lines, s.syms)) {
      HoldingPassIsFixedPoint(c, lines, syms, org, n, s, org');
      SameEndOfBlock(c, b, ClearRefs(s.syms), org', n, s);
    } else if Throughout(c, lines, f, CountedAt(lines, s.syms)) {
      FailingBlock(c, b, syms, org, n, s, org', Mode.Counted);
    }
  }

  /** And where the operands of its EQUs and REPEATs were known, another pass gives the same
      output and symbols or divides by zero: the latter if and only if some operand does so when
      it is read with the last symbols. */
  lemma SettledBlockIsFixedPoint(c: Setup, b: L.Block<Statement>, syms: Syms, org: nat, s: Asm, org': nat)
    requires BeginsWithOrg(L.Lines(b)) && OnePass(c, b, syms, org) == Ok(s) && Quiet(s)
    requires Throughout(c, L.Lines(b), Begin(syms, org), SettledAt(L.Lines(b)))
    ensures
      var (lines, f, again) := (L.Lines(b), Begin(syms, org), OnePass(c, b, ClearRefs(s.syms), org'));
      && (SameEnd(again, s) <==> Throughout(c, lines, f, ReadableAt(lines, s.syms)))
      && (SameEnd(again, s) <==> again.Ok?)
  {
    var lines, f := L.Lines(b), Begin(syms, org);
    var n := PassOfBlock(c, b, syms, org);
    SettledPassIsFixedPoint(c, lines, syms, org, n, s, org');
    SettledHolds(c, lines, f, n, s);
    if Throughout(c, lines, f, HoldsAt(lines, s.syms)) {
      BlockIsFixedPoint(c, b, syms, org, s, org');
    } else {
      FailingBlock(c, b, syms, org, n, s, org', Mode.Settled);
    }
  }

  /** The file read from its beginning to its end. */
  method ReadAll(hand: Handler, lines: Lines, ghost b: L.Block<Statement>) returns (r: Outcome)
    requires hand.Whole(1) && lines == L.Lines(b) && FittingLines(lines)
    modifies hand.Repr
    ensures
      var spec := L.Exec(Handlers(hand.c), b, Ok(old(hand.now)));
      r == OutcomeOf(spec) && (r.Fine? ==> hand.Whole(1) && Ok(hand.now) == spec)
    ensures fresh(hand.Repr - old(hand.Repr))
  {
    assert Opened(OfHandler, 0);
    var lister := new Lister(hand, lines);
    r := lister.ReadFile(b);
  }

  /** A pass from its beginning to its end, where the output is closed. */
  method PassOn(hand: Handler, lines: Lines, ghost b: L.Block<Statement>)
    returns (r: Outcome, redo: nat, file: seq<byte>, org': nat, ghost last: Asm)
    requires hand.Whole(1) && lines == L.Lines(b) && FittingLines(lines)
    modifies hand.Repr
    ensures
      var spec := L.Exec(Handlers(hand.c), b, Ok(old(hand.now)));
      && r == OutcomeOf(spec)
      && (r.Fine? ==>
          && Ok(last) == spec && redo == Redo(last) && org' == last.out.org && file == P.FileOf(hand.c, last)
          && hand.table.Whole(1) && hand.stacks.Idle(1) && hand.table.entries == last.syms
          && hand.table.nodes <= hand.Repr)
    ensures fresh(hand.Repr - old(hand.Repr))
  {
    r := ReadAll(hand, lines, b);
    redo, file, org', last := 0, [], 0, hand.now;
    if r.Fine? {
      redo, file, org' := hand.Finish();
    }
  }

  /** One pass of MainShadow over the symbols that are in the table: what it leaves there, the
      output file if it is the last one, and where the next would begin. */
  method Pass(c: Setup, table: T.Table, stacks: E.ExpressionStacks, lines: Lines, ghost b: L.Block<Statement>, org: nat)
    returns (r: Outcome, redo: nat, file: seq<byte>, org': nat, ghost last: Asm)
    requires table.Whole(1) && stacks.Idle(1) && lines == L.Lines(b) && FittingLines(lines)
    modifies table, table.SHash, table.nodes, stacks, stacks.Argstack, stacks.Opdis, stacks.Oppri
    ensures r == OutcomeOf(OnePass(c, b, old(table.entries), org))
    ensures r.Fine? ==>
      && OnePass(c, b, old(table.entries), org) == Ok(last)
      && redo == Redo(last) && org' == last.out.org && file == P.FileOf(c, last)
      && table.Whole(1) && stacks.Idle(1) && table.entries == last.syms
      && fresh(table.nodes - old(table.nodes))
  {
    var hand := new Handler(c, table, stacks, org);
    r, redo, file, org', last := PassOn(hand, lines, b);
  }

  /** What Redo_why and Redo_eval come to in a pass; what they count is not part of this model. */
  datatype Tally = Tally(why: nat, evals: nat)

  /** How far the passes may go on: at most max of them; and unless all is set, not after two
      that asked for the same. */
  datatype Limits = Limits(max: nat, all: bool, tally: nat -> Tally)

  /** Redo, and the tally, of the pass before. */
  datatype Asked = Asked(redo: nat, tally: Tally)

  /** The last pass of a run. */
  datatype Final = Final(start: Reader, end: Asm)

  type PassFunction = (Syms, nat) -> State

  /** Passes over the symbols each leaves to the next, until one ends with Redo = 0. */
  function Passes(f: PassFunction, limits: Limits, prior: Option<Asked>, pass: nat, syms: Syms, org: nat): Option<Final>
    decreases limits.max - pass
  {
    match f(syms, org)
    case Ok(s) =>
      var asked := Asked(Redo(s), limits.tally(pass));
      if Redo(s) == 0 then Some(Final(Begin(syms, org), s))
      else if (!limits.all && prior == Some(asked)) || limits.max <= pass then None
      else Passes(f, limits, Some(asked), pass + 1, ClearRefs(s.syms), s.out.org)
    case _ => None
  }

  function PassOver(c: Setup, b: L.Block<Statement>): PassFunction {
    (syms: Syms, org: nat) => OnePass(c, b, syms, org)
  }

  /** The run ends with a pass of Redo = 0. */
  lemma {:induction false} LastPass(f: PassFunction, limits: Limits, prior: Option<Asked>, pass: nat, syms: Syms, org: nat)
    returns (before: Syms, from: nat)
    requires Passes(f, limits, prior, pass, syms, org).Some?
    decreases limits.max - pass
    ensures
      var last := Passes(f, limits, prior, pass, syms, org).value;
      last.start == Begin(before, from) && f(before, from) == Ok(last.end) && Redo(last.end) == 0
  {
    var s := f(syms, org).value;
    if Redo(s) == 0 {
      before, from := syms, org;
    } else {
      before, from := LastPass(f, limits, Some(Asked(Redo(s), limits.tally(pass))), pass + 1, ClearRefs(s.syms), s.out.org);
    }
  }

  /** The k-th pass over the symbols the ones before left, counted from 1. */
  function Nth(f: PassFunction, syms: Syms, org: nat, k: nat): State
    decreases k
  {
    if k <= 1 then f(syms, org)
    else
      match f(syms, org)
      case Ok(s) => Nth(f, ClearRefs(s.syms), s.out.org, k - 1)
      case e => e
  }

  function AskedBy(limits: Limits, r: State, pass: nat): Option<Asked> {
    if r.Ok? then Some(Asked(Redo(r.value), limits.tally(pass))) else None
  }

  /** The j-th of these passes, the first of which has number `pass`, is followed by another. */
  ghost predicate GoesOn(f: PassFunction, limits: Limits, prior: Option<Asked>, pass: nat, syms: Syms, org: nat, j: nat)
    requires 1 <= j
  {
    var r := Nth(f, syms, org, j);
    var before := if j == 1 then prior else AskedBy(limits, Nth(f, syms, org, j - 1), pass + j - 2);
    && r.Ok? && Redo(r.value) != 0 && pass + j - 1 < limits.max
    && (limits.all || before != AskedBy(limits, r, pass + j - 1))
  }

  ghost predicate FinishesAt(f: PassFunction, limits: Limits, prior: Option<Asked>, pass: nat, syms: Syms, org: nat, k: nat) {
    && 1 <= k && Nth(f, syms, org, k).Ok? && Redo(Nth(f, syms, org, k).value) == 0
    && forall j | 1 <= j < k :: GoesOn(f, limits, prior, pass, syms, org, j)
  }

  lemma GoesOnLater(f: PassFunction, limits: Limits, prior: Option<Asked>, pass: nat, syms: Syms, org: nat, j: nat)
    requires f(syms, org).Ok? && 1 < j
    ensures
      var s := f(syms, org).value;
      GoesOn(f, limits, prior, pass, syms, org, j) <==>
      GoesOn(f, limits, AskedBy(limits, Ok(s), pass), pass + 1, ClearRefs(s.syms), s.out.org, j - 1)
  {
    var s := f(syms, org).value;
    assert Nth(f, syms, org, j) == Nth(f, ClearRefs(s.syms), s.out.org, j - 1);
    assert 2 < j ==> Nth(f, syms, org, j - 1) == Nth(f, ClearRefs(s.syms), s.out.org, j - 2);
  }

  lemma FinishesLater(f: PassFunction, limits: Limits, prior: Option<Asked>, pass: nat, syms: Syms, org: nat, k: nat)
    requires f(syms, org).Ok? && 1 <= k && GoesOn(f, limits, prior, pass, syms, org, 1)
    ensures
      var s := f(syms, org).value;
      FinishesAt(f, limits, prior, pass, syms, org, k + 1) <==>
      FinishesAt(f, limits, AskedBy(limits, Ok(s), pass), pass + 1, ClearRefs(s.syms), s.out.org, k)
  {
    var s := f(syms, org).value;
    var (next, asked) := (pass + 1, AskedBy(limits, Ok(s), pass));
    if FinishesAt(f, limits, prior, pass, syms, org, k + 1) {
      forall i | 1 <= i < k ensures GoesOn(f, limits, asked, next, ClearRefs(s.syms), s.out.org, i) {
        GoesOnLater(f, limits, prior, pass, syms, org, i + 1);
      }
    }
    if FinishesAt(f, limits, asked, next, ClearRefs(s.syms), s.out.org, k) {
      forall j | 1 <= j < k + 1 ensures GoesOn(f, limits, prior, pass, syms, org, j) {
        if j > 1 {
          GoesOnLater(f, limits, prior, pass, syms, org, j);
        }
      }
    }
  }

  lemma {:induction false} FinishesThere(f: PassFunction, limits: Limits, prior: Option<Asked>, pass: nat, syms: Syms, org: nat, k: nat)
    requires 1 <= k
    decreases k
    ensures FinishesAt(f, limits, prior, pass, syms, org, k) ==>
      var last := Passes(f, limits, prior, pass, syms, org);
      last.Some? && Nth(f, syms, org, k) == Ok(last.value.end)
  {
    if FinishesAt(f, limits, prior, pass, syms, org, k) && k > 1 {
      assert GoesOn(f, limits, prior, pass, syms, org, 1);
      var s := f(syms, org).value;
      FinishesLater(f, limits, prior, pass, syms, org, k - 1);
      FinishesThere(f, limits, AskedBy(limits, Ok(s), pass), pass + 1, ClearRefs(s.syms), s.out.org, k - 1);
    }
  }

  lemma {:induction false} FinishedAt(f: PassFunction, limits: Limits, prior: Option<Asked>, pass: nat, syms: Syms, org: nat)
    returns (k: nat)
    requires Passes(f, limits, prior, pass, syms, org).Some?
    decreases limits.max - pass
    ensures FinishesAt(f, limits, prior, pass, syms, org, k)
  {
    var s := f(syms, org).value;
    if Redo(s) == 0 {
      k := 1;
    } else {
      k := FinishedAt(f, limits, Some(Asked(Redo(s), limits.tally(pass))), pass + 1, ClearRefs(s.syms), s.out.org);
      FinishesLater(f, limits, prior, pass, syms, org, k);
      k := k + 1;
    }
  }

  /** A run has a last pass if and only if one of its passes ends with Redo = 0 while every pass
      before it asked for another, was not the last one allowed, and did not ask for the same as
      the one before; and the last pass is that one. */
  lemma FinishesIff(f: PassFunction, limits: Limits, syms: Syms, org: nat)
    ensures
      var last := Passes(f, limits, None, 1, syms, org);
      && (last.Some? <==> exists k: nat :: FinishesAt(f, limits, None, 1, syms, org, k))
      && forall k: nat :: FinishesAt(f, limits, None, 1, syms, org, k) ==> last.Some? && Nth(f, syms, org, k) == Ok(last.value.end)
  {
    forall k: nat | FinishesAt(f, limits, None, 1, syms, org, k)
      ensures
        var last := Passes(f, limits, None, 1, syms, org);
        last.Some? && Nth(f, syms, org, k) == Ok(last.value.end)
    {
      FinishesThere(f, limits, None, 1, syms, org, k);
    }
    if Passes(f, limits, None, 1, syms, org).Some? {
      var k := FinishedAt(f, limits, None, 1, syms, org);
    }
  }

  /** The stop after two passes that asked for the same only stops: a run that ends with a last
      pass has the same one without it, and with more passes allowed. */
  lemma {:induction false} StopOnlyStops(
    f: PassFunction, limits: Limits, more: Limits, prior: Option<Asked>, pass: nat, syms: Syms, org: nat)
    requires Passes(f, limits, prior, pass, syms, org).Some?
    requires more.all && limits.max <= more.max && more.tally == limits.tally
    decreases limits.max - pass
    ensures Passes(f, more, prior, pass, syms, org) == Passes(f, limits, prior, pass, syms, org)
  {
    var s := f(syms, org).value;
    if Redo(s) != 0 {
      StopOnlyStops(f, limits, more, Some(Asked(Redo(s), limits.tally(pass))), pass + 1, ClearRefs(s.syms), s.out.org);
    }
  }

  /** f is the pass over the lines of b, which fit; folded up. */
  ghost predicate IsPass(f: PassFunction, c: Setup, lines: Lines, b: L.Block<Statement>, n: nat)
    decreases n
  {
    n == 0 ||
    (&& (forall key: nat :: Opened(OfRun, key) ==> f == PassOver(c, b) && lines == L.Lines(b) && FittingLines(lines))
     && IsPass(f, c, lines, b, n - 1))
  }

  /** Once a run has ended with a pass whose ORGs were known, one more pass would write the same
      file and leave the same symbols, wherever it begins, if every line of that pass holds. */
  lemma RunIsFixedPoint(c: Setup, b: L.Block<Statement>, limits: Limits, syms: Syms, last: Final, org': nat)
    requires BeginsWithOrg(L.Lines(b)) && Passes(PassOver(c, b), limits, None, 1, syms, 0) == Some(last) && last.end.placed
    ensures
      var (lines, s, again) := (L.Lines(b), last.end, OnePass(c, b, ClearRefs(last.end.syms), org'));
      && (Throughout(c, lines, last.start, HoldsAt(lines, s.syms)) ==> SameEnd(again, s))
      && (Throughout(c, lines, last.start, CountedAt(lines, s.syms)) && SameEnd(again, s) ==>
          Throughout(c, lines, last.start, HoldsAt(lines, s.syms)))
      && (Throughout(c, lines, last.start, SettledAt(lines)) ==>
          (SameEnd(again, s) <==> Throughout(c, lines, last.start, ReadableAt(lines, s.syms))))
  {
    var before, from := LastPass(PassOver(c, b), limits, None, 1, syms, 0);
    BlockIsFixedPoint(c, b, before, from, last.end, org');
    if Throughout(c, L.Lines(b), last.start, SettledAt(L.Lines(b))) {
      SettledBlockIsFixedPoint(c, b, before, from, last.end, org');
    }
  }

  /** One more pass of f after s would write the same file. */
  ghost predicate Repeats(f: PassFunction, c: Setup, s: Asm) {
    var again := f(ClearRefs(s.syms), s.out.org);
    again.Ok? && Redo(again.value) == 0 && P.FileOf(c, again.value) == P.FileOf(c, s)
  }

  /** Every line of the last pass holds. */
  ghost predicate AllHold(c: Setup, lines: Lines, last: Final) {
    BeginsWithOrg(lines) && last.end.placed && Throughout(c, lines, last.start, HoldsAt(lines, last.end.syms))
  }

  lemma LastRepeats(f: PassFunction, c: Setup, lines: Lines, b: L.Block<Statement>, limits: Limits, syms: Syms, last: Final)
    requires IsPass(f, c, lines, b, 1) && Passes(f, limits, None, 1, syms, 0) == Some(last)
    ensures AllHold(c, lines, last) ==> Repeats(f, c, last.end)
  {
    assert Opened(OfRun, 0);
    if AllHold(c, lines, last) {
      RunIsFixedPoint(c, b, limits, syms, last, last.end.out.org);
    }
  }

  method Clear(table: T.Table)
    requires table.Whole(1)
    modifies table, table.nodes
    ensures table.entries == ClearRefs(old(table.entries)) && table.nodes == old(table.nodes)
    ensures table.Whole(1)
  {
    assert Opened(OfTable, 0);
    table.Clearrefs();
  }

  /** What a pass means for the run: it is over, with or without its last pass, or goes on. */
  datatype Verdict = Finished | Failed | Again

  /** One pass; `goal` is what the run comes to. */
  method Round(c: Setup, table: T.Table, stacks: E.ExpressionStacks, lines: Lines, ghost b: L.Block<Statement>, org: nat,
               limits: Limits, before: Option<Asked>, pass: nat, ghost f: PassFunction, ghost goal: Option<Final>)
    returns (v: Verdict, file: seq<byte>, org': nat, asked: Option<Asked>, ghost last: Final)
    requires table.Whole(1) && stacks.Idle(1)
    requires IsPass(f, c, lines, b, 1) && goal == Passes(f, limits, before, pass, table.entries, org)
    modifies table, table.SHash, table.nodes, stacks, stacks.Argstack, stacks.Opdis, stacks.Oppri
    ensures v.Finished? ==> goal == Some(last) && Redo(last.end) == 0 && file == P.FileOf(c, last.end)
    ensures v.Failed? ==> goal == None
    ensures v.Again? ==> table.Whole(1) && stacks.Idle(1) && fresh(table.nodes - old(table.nodes))
    ensures v.Again? ==> pass < limits.max && goal == Passes(f, limits, asked, pass + 1, ClearRefs(table.entries), org')
  {
    ghost var start := Begin(table.entries, org);
    assert f(table.entries, org) == OnePass(c, b, table.entries, org) && lines == L.Lines(b) && FittingLines(lines) by {
      assert Opened(OfRun, 0);
    }
    var r, redo;
    ghost var end;
    r, redo, file, org', end := Pass(c, table, stacks, lines, b, org);
    last := Final(start, end);
    asked := Some(Asked(redo, limits.tally(pass)));
    if !r.Fine? {
      v := Failed;
    } else if redo == 0 {
      v := Finished;
    } else if !limits.all && before == asked {
      v := Failed;
    } else {
      v := if limits.max <= pass then Failed else Again;
    }
  }

  /** The loop over the passes. */
  method PassLoop(c: Setup, table: T.Table, stacks: E.ExpressionStacks, lines: Lines, ghost b: L.Block<Statement>,
                  limits: Limits, ghost f: PassFunction, ghost goal: Option<Final>)
    returns (finished: bool, file: seq<byte>, ghost last: Final)
    requires table.Whole(1) && stacks.Idle(1)
    requires IsPass(f, c, lines, b, 1) && goal == Passes(f, limits, None, 1, table.entries, 0)
    modifies table, table.SHash, table.nodes, stacks, stacks.Argstack, stacks.Opdis, stacks.Oppri
    ensures goal == if finished then Some(last) else None
    ensures finished ==> Redo(last.end) == 0 && file == P.FileOf(c, last.end)
    ensures finished && AllHold(c, lines, last) ==> Repeats(f, c, last.end)
  {
    ghost var syms := table.entries;
    var org, pass := 0, 1;
    var asked: Option<Asked> := None;
    while true
      invariant table.Whole(1) && stacks.Idle(1) && fresh(table.nodes - old(table.nodes))
      invariant goal == Passes(f, limits, asked, pass, table.entries, org)
      decreases limits.max - pass
    {
      var v;
      v, file, org, asked, last := Round(c, table, stacks, lines, b, org, limits, asked, pass, f, goal);
      if v.Finished? {
        LastRepeats(f, c, lines, b, limits, syms, last);
        return true, file, last;
      }
      if v.Failed? {
        return false, [], last;
      }
      pass := pass + 1;
      Clear(table);
    }
  }

  /** MainShadow: passes until one ends with Redo = 0, or two asked for the same, or there were
      too many. The symbols given on the command line are in the table already. The file of a
      finished run is that of its last pass, which another pass would repeat if every line of it
      holds. */
  method Assemble(c: Setup, table: T.Table, stacks: E.ExpressionStacks, lines: Lines, ghost b: L.Block<Statement>,
                  limits: Limits)
    returns (finished: bool, file: seq<byte>, ghost last: Final)
    requires table.Whole(1) && stacks.Idle(1) && lines == L.Lines(b) && FittingLines(lines)
    modifies table, table.SHash, table.nodes, stacks, stacks.Argstack, stacks.Opdis, stacks.Oppri
    ensures Passes(PassOver(c, b), limits, None, 1, old(table.entries), 0) == if finished then Some(last) else None
    ensures finished ==> Redo(last.end) == 0 && file == P.FileOf(c, last.end)
    ensures finished && AllHold(c, lines, last) ==> Repeats(PassOver(c, b), c, last.end)
  {
    ghost var f := PassOver(c, b);
    finished, file, last := PassLoop(c, table, stacks, lines, b, limits, f, Passes(f, limits, None, 1, table.entries, 0));
  }
}
