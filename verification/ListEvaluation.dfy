/** The lists that statements evaluate, through the stack machine. */
module ListEvaluation {
  import opened Results
  import opened Operators
  import opened Expressions
  import M = ExpressionMachine
  import E = Evaluator
  import opened ExpressionProofs
  import opened Files
  import opened DataSpec
  import opened LocalScopes
  import opened PassSpec
  import opened PassFacts

  /** The value stackarg gives a string: its characters, most significant first. */
  function CharsValue(chars: seq<byte>): int {
    if chars == [] then 0 else ToLong(256 * CharsValue(chars[..|chars| - 1]) + chars[|chars| - 1])
  }

  function TreeOf(e: Element): Tree {
    match e
    case Chars(chars) => Leaf(Number(CharsValue(chars)))
    case Expr(t) => t
  }

  function TreesOf(es: seq<Element>): (ts: seq<Tree>)
    ensures |ts| == |es|
  {
    seq(|es|, i requires 0 <= i < |es| => TreeOf(es[i]))
  }

  function TokensOf(es: seq<Element>): seq<Token> {
    if es == [] then [] else FlattenList(TreesOf(es))
  }

  /** An element taken from the argument stack; one with characters keeps them. */
  function ItemOf(e: Element, v: Arg): Item { if e.Chars? then Str(e.chars) else Num(v.value, v.unknown) }

  /** The list of an eval that took these arguments; no elements read as one 0. */
  function ItemsOf(es: seq<Element>, taken: seq<Arg>): seq<Item>
    requires |taken| == |es| || es == []
  {
    if es == [] then [Num(0, false)] else seq(|es|, i requires 0 <= i < |es| => ItemOf(es[i], taken[i]))
  }

  /** Written as precedence asks, and within the operator stack. */
  predicate Fitting(e: Element) { Canonical(TreeOf(e)) && OpNeed(map[], 0, TreeOf(e)) <= M.MAXOPS }

  ghost predicate AllFitting(es: seq<Element>) { forall e <- es :: Fitting(e) }

  lemma {:induction false} NeedOfPlain(table: M.Table, rec: nat, t: Tree)
    requires Plain(table)
    ensures OpNeed(table, rec, t) == OpNeed(map[], 0, t)
  {
    match t
    case Leaf(_) =>
    case Group(e) => NeedOfPlain(table, rec, e);
    case Unary(_, e) => NeedOfPlain(table, rec, e);
    case Binary(_, l, r) =>
      NeedOfPlain(table, rec, l);
      NeedOfPlain(table, rec, r);
  }

  lemma {:induction false} LocalizeFits(at: Indices, t: Tree)
    ensures TreePriority(Localize(at, t)) == TreePriority(t)
    ensures Canonical(Localize(at, t)) == Canonical(t)
    ensures OpNeed(map[], 0, Localize(at, t)) == OpNeed(map[], 0, t)
  {
    match t
    case Leaf(_) =>
    case Group(e) => LocalizeFits(at, e);
    case Unary(_, e) => LocalizeFits(at, e);
    case Binary(_, l, r) =>
      LocalizeFits(at, l);
      LocalizeFits(at, r);
  }

  lemma LocalizedFitting(at: Indices, es: seq<Element>)
    requires AllFitting(es)
    ensures AllFitting(LocalizeAll(at, es))
  {
    forall i | 0 <= i < |es| ensures Fitting(LocalizeAll(at, es)[i]) {
      assert Fitting(es[i]);
      if es[i].Expr? {
        LocalizeFits(at, es[i].t);
      }
    }
  }

  lemma {:induction false} ItemsFromTrees(table: M.Table, es: seq<Element>)
    requires es != []
    ensures match EvalTrees(table, M.MAX_RECURSION, TreesOf(es))
      case Ok(vs) => |vs| == |es| && EvalItems(table, es) == Ok(ItemsOf(es, vs))
      case Abort => EvalItems(table, es) == Abort
  {
    var rest := es[1..];
    assert TreesOf(es)[1..] == TreesOf(rest);
    if rest != [] {
      ItemsFromTrees(table, rest);
    }
    match EvalTrees(table, M.MAX_RECURSION, TreesOf(es)) {
      case Abort =>
        if EvalTree(table, M.MAX_RECURSION, TreeOf(es[0])).Ok? {
          assert EvalTrees(table, M.MAX_RECURSION, TreesOf(rest)).Abort? && rest != [];
          assert EvalItems(table, rest) == Abort;
        }
      case Ok(vs) =>
        var tail := EvalTrees(table, M.MAX_RECURSION, TreesOf(rest)).value;
        assert vs == [vs[0]] + tail;
        assert ItemsOf(es, vs) == [ItemOf(es[0], vs[0])] + (if rest == [] then [] else ItemsOf(rest, tail));
    }
  }

  /** eval on the tokens of a list, where no symbol is an EQM. */
  lemma ListByMachine(table: M.Table, slots: M.Slots, es: seq<Element>) returns (slots': M.Slots)
    requires Plain(table) && AllFitting(es)
    ensures
      var r := M.Eval(table, M.MAX_RECURSION, AT_REST, slots, TokensOf(es));
      match EvalItems(table, es)
      case Ok(items) =>
        && r.Ok? && r.value.m == AT_REST && r.value.slots == slots'
        && (|r.value.taken| == |es| || es == [])
        && ItemsOf(es, r.value.taken) == if items == [] then [Num(0, false)] else items
      case Abort => r == Abort
      case Corrupt => false
  {
    if es == [] {
      slots' := slots;
      NoTokens(table, slots);
    } else {
      forall t <- TreesOf(es) ensures Canonical(t) && Fits(table, M.MAX_RECURSION, AT_REST, t) {
        var i :| 0 <= i < |es| && t == TreeOf(es[i]);
        assert Fitting(es[i]);
        NeedOfPlain(table, M.MAX_RECURSION, t);
      }
      slots' := EvalListTokens(table, M.MAX_RECURSION, AT_REST, slots, TreesOf(es));
      ItemsFromTrees(table, es);
    }
  }

  lemma NoTokens(table: M.Table, slots: M.Slots)
    ensures M.Eval(table, M.MAX_RECURSION, AT_REST, slots, []) == Ok(M.Progress(AT_REST, slots, [Arg(0, false)]))
  {
    var s := M.Progress(M.Above(AT_REST), slots, []);
    assert M.Run(table, M.MAX_RECURSION, s, []) == Ok(s);
    assert [] + [Arg(0, false)] == [Arg(0, false)];
  }

  /** What a statement evaluates is what eval computes from the text of its operands, with
      the symbols of the pass, whatever earlier lines left in Opdis. */
  lemma EvaluateIsMachine(s: Asm, es: seq<Element>, slots: M.Slots) returns (slots': M.Slots)
    requires AllFitting(es)
    ensures
      var us := LocalizeAll(s.at, es);
      var r := M.Eval(Env(s.syms, s.out), M.MAX_RECURSION, AT_REST, slots, TokensOf(us));
      match Evaluate(s, es)
      case Ok(p) =>
        && r.Ok? && r.value.m == AT_REST && r.value.slots == slots'
        && (|r.value.taken| == |us| || us == []) && p.1 == ItemsOf(us, r.value.taken)
      case Abort => r == Abort
      case Corrupt => false
  {
    LocalizedFitting(s.at, es);
    slots' := ListByMachine(Env(s.syms, s.out), slots, LocalizeAll(s.at, es));
  }

  /** The same on the stacks themselves. */
  method EvalList(stacks: E.ExpressionStacks, env: M.Table, es: seq<Element>) returns (r: Result<seq<Item>>)
    requires stacks.Idle(1)
    requires Plain(env) && AllFitting(es)
    modifies stacks, stacks.Argstack, stacks.Opdis, stacks.Oppri
    ensures match EvalItems(env, es)
      case Ok(items) =>
        && r == Ok(if items == [] then [Num(0, false)] else items)
        && stacks.Idle(1)
      case Abort => r == Abort
      case Corrupt => r == Corrupt
  {
    ghost var slots := ListByMachine(env, stacks.Opdis[..], es);
    var list := stacks.Eval(env, TokensOf(es));
    if !list.Ok? {
      return Failure(OutcomeOf(list));
    }
    return Ok(ItemsOf(es, list.value));
  }
}
