/** Which symbol a name in an operand stands for, wherever in the operand it is written. */
module OperandNames {
  import opened Results
  import opened Operators
  import opened Expressions
  import M = ExpressionMachine
  import opened ExpressionProofs
  import opened DataSpec
  import opened LocalScopes
  import opened Symbols
  import opened PassSpec
  import opened PassFacts
  import opened ListEvaluation


  // ----- names in text -----

  /** The text with every name x replaced by what f makes of it. */
  function Renamed(f: string -> Atom, ts: seq<Token>): (r: seq<Token>)
    ensures |r| == |ts|
  {
    seq(|ts|, i requires 0 <= i < |ts| => if IsName(ts[i]) then Operand(f(ts[i].atom.name)) else ts[i])
  }

  predicate IsName(token: Token) { token.Operand? && token.atom.Ref? }

  predicate Written(x: string, ts: seq<Token>) { Operand(Ref(x)) in ts }

  lemma RenamedParts(f: string -> Atom, a: seq<Token>, b: seq<Token>)
    ensures Renamed(f, a + b) == Renamed(f, a) + Renamed(f, b)
  {}

  lemma RenamedOne(f: string -> Atom, token: Token)
    ensures Renamed(f, [token]) == [if IsName(token) then Operand(f(token.atom.name)) else token]
  {
    assert Renamed(f, [token])[0] == if IsName(token) then Operand(f(token.atom.name)) else token;
  }

  lemma RenamedBehind(f: string -> Atom, token: Token, ts: seq<Token>)
    requires !IsName(token)
    ensures Renamed(f, [token] + ts) == [token] + Renamed(f, ts)
  {
    RenamedParts(f, [token], ts);
    RenamedOne(f, token);
  }

  lemma RenamedInside(f: string -> Atom, ts: seq<Token>)
    ensures Renamed(f, [Open] + (ts + [Close])) == [Open] + (Renamed(f, ts) + [Close])
  {
    RenamedBehind(f, Open, ts + [Close]);
    RenamedParts(f, ts, [Close]);
    RenamedOne(f, Close);
  }

  lemma RenamedAround(f: string -> Atom, a: seq<Token>, token: Token, b: seq<Token>)
    requires !IsName(token)
    ensures Renamed(f, a + ([token] + b)) == Renamed(f, a) + ([token] + Renamed(f, b))
  {
    RenamedParts(f, a, [token] + b);
    RenamedBehind(f, token, b);
  }

  function Symbol(at: Indices): string -> Atom { (x: string) => Ref(Key(at, x)) }

  /** The names of a tree are those written in its text. */
  lemma {:induction false} RefsAreWritten(t: Tree, x: string)
    ensures x in Refs(t) <==> Written(x, Flatten(t))
  {
    match t
    case Leaf(_) =>
    case Unary(_, e) => RefsAreWritten(e, x);
    case Group(e) => RefsAreWritten(e, x);
    case Binary(_, l, r) =>
      RefsAreWritten(l, x);
      RefsAreWritten(r, x);
  }

  /** Every name of an operand is looked up under its key in the current scopes: below unary
      operators, in brackets, on either side of a binary operator. */
  lemma {:induction false} LocalizedText(at: Indices, t: Tree)
    ensures Flatten(Localize(at, t)) == Renamed(Symbol(at), Flatten(t))
  {
    var f := Symbol(at);
    match t
    case Leaf(atom) => RenamedOne(f, Operand(atom));
    case Unary(op, e) =>
      LocalizedText(at, e);
      RenamedBehind(f, Prefix(op), Flatten(e));
    case Group(e) =>
      LocalizedText(at, e);
      RenamedInside(f, Flatten(e));
    case Binary(op, l, r) =>
      LocalizedText(at, l);
      LocalizedText(at, r);
      RenamedAround(f, Flatten(l), Infix(op), Flatten(r));
  }

  /** So it is in a list of operands: the text that eval is given is the text of the line with
      its names replaced by their keys. */
  lemma {:induction false} LocalizedList(at: Indices, es: seq<Element>)
    ensures TokensOf(LocalizeAll(at, es)) == Renamed(Symbol(at), TokensOf(es))
  {
    if es != [] {
      var us := LocalizeAll(at, es);
      assert TreesOf(us)[1..] == TreesOf(us[1..]) && TreesOf(es)[1..] == TreesOf(es[1..]);
      assert us[1..] == LocalizeAll(at, es[1..]);
      LocalizedElement(at, es[0]);
      if |es| > 1 {
        LocalizedList(at, es[1..]);
        RenamedAround(Symbol(at), Flatten(TreeOf(es[0])), Comma, TokensOf(es[1..]));
      }
    }
  }

  lemma LocalizedElement(at: Indices, e: Element)
    ensures Flatten(TreeOf(LocalizeAll(at, [e])[0])) == Renamed(Symbol(at), Flatten(TreeOf(e)))
  {
    match e
    case Expr(t) => LocalizedText(at, t);
    case Chars(chars) => RenamedOne(Symbol(at), Operand(Number(CharsValue(chars))));
  }

  /** So the symbols an operand reads are the keys of its names. */
  lemma LocalizedNames(at: Indices, t: Tree)
    ensures Refs(Localize(at, t)) == set x | x in Refs(t) :: Key(at, x)
  {
    var ts := Flatten(t);
    LocalizedText(at, t);
    forall y ensures y in Refs(Localize(at, t)) <==> exists x :: x in Refs(t) && y == Key(at, x) {
      RefsAreWritten(Localize(at, t), y);
      if y in Refs(Localize(at, t)) {
        var i :| 0 <= i < |ts| && Renamed(Symbol(at), ts)[i] == Operand(Ref(y));
        assert IsName(ts[i]) && ts[i] == Operand(Ref(ts[i].atom.name));
        RefsAreWritten(t, ts[i].atom.name);
      }
      if x :| x in Refs(t) && y == Key(at, x) {
        RefsAreWritten(t, x);
        var i :| 0 <= i < |ts| && ts[i] == Operand(Ref(x));
        assert Renamed(Symbol(at), ts)[i] == Operand(Ref(y));
      }
    }
  }

  // ----- a label in an operand -----

  /** t with another operand in place of a name. */
  function With(t: Tree, name: string, a: Atom): Tree {
    match t
    case Leaf(Ref(x)) => if x == name then Leaf(a) else t
    case Leaf(Number(_)) => t
    case Unary(op, e) => Unary(op, With(e, name, a))
    case Binary(op, l, r) => Binary(op, With(l, name, a), With(r, name, a))
    case Group(e) => Group(With(e, name, a))
  }

  function Instead(name: string, a: Atom): string -> Atom { (x: string) => if x == name then a else Ref(x) }

  /** It is put in wherever the name is written. */
  lemma {:induction false} WithText(t: Tree, name: string, a: Atom)
    ensures Flatten(With(t, name, a)) == Renamed(Instead(name, a), Flatten(t))
  {
    var f := Instead(name, a);
    match t
    case Leaf(atom) => RenamedOne(f, Operand(atom));
    case Unary(op, e) =>
      WithText(e, name, a);
      RenamedBehind(f, Prefix(op), Flatten(e));
    case Group(e) =>
      WithText(e, name, a);
      RenamedInside(f, Flatten(e));
    case Binary(op, l, r) =>
      WithText(l, name, a);
      WithText(r, name, a);
      RenamedAround(f, Flatten(l), Infix(op), Flatten(r));
  }

  /** What an operand of one token evaluates to. */
  function AtomValue(table: M.Table, rec: nat, at: Indices, a: Atom): Result<Arg> {
    EvalTree(table, rec, Localize(at, Leaf(a)))
  }

  /** An operand may be replaced by another of the same value. */
  lemma {:induction false} SameInPlace(table: M.Table, rec: nat, at: Indices, t: Tree, name: string, a: Atom)
    requires AtomValue(table, rec, at, Ref(name)) == AtomValue(table, rec, at, a)
    ensures EvalTree(table, rec, Localize(at, t)) == EvalTree(table, rec, Localize(at, With(t, name, a)))
  {
    match t
    case Leaf(_) =>
    case Unary(_, e) => SameInPlace(table, rec, at, e, name, a);
    case Group(e) => SameInPlace(table, rec, at, e, name, a);
    case Binary(_, l, r) =>
      SameInPlace(table, rec, at, l, name, a);
      SameInPlace(table, rec, at, r, name, a);
  }

  function AllWith(es: seq<Element>, name: string, a: Atom): seq<Element> {
    seq(|es|, i requires 0 <= i < |es| => if es[i].Expr? then Expr(With(es[i].t, name, a)) else es[i])
  }

  lemma {:induction false} SameItems(table: M.Table, at: Indices, es: seq<Element>, name: string, a: Atom)
    requires AtomValue(table, M.MAX_RECURSION, at, Ref(name)) == AtomValue(table, M.MAX_RECURSION, at, a)
    ensures EvalItems(table, LocalizeAll(at, es)) == EvalItems(table, LocalizeAll(at, AllWith(es, name, a)))
  {
    if es != [] {
      assert LocalizeAll(at, es)[1..] == LocalizeAll(at, es[1..]);
      assert LocalizeAll(at, AllWith(es, name, a))[1..] == LocalizeAll(at, AllWith(es[1..], name, a));
      SameItems(table, at, es[1..], name, a);
      if es[0].Expr? {
        SameInPlace(table, M.MAX_RECURSION, at, es[0].t, name, a);
      }
    }
  }

  /** The values of a list of operands. */
  function ValuesOf(s: Asm, es: seq<Element>): Result<seq<Item>> {
    match Evaluate(s, es)
    case Ok(p) => Ok(p.1)
    case Abort => Abort
    case Corrupt => Corrupt
  }

  /** At a label, operands built from its name, under any operators and brackets, have the
      values they have with `.`, the origin, in its place. */
  lemma LabelIsTheOrigin(s: Asm, name: string, es: seq<Element>)
    requires name != ""
    ensures var s1 := ProgramLabel(s, name); ValuesOf(s1, es) == ValuesOf(s1, AllWith(es, name, Ref(".")))
  {
    var s1 := ProgramLabel(s, name);
    var table := Env(s1.syms, s1.out);
    assert AtomValue(table, M.MAX_RECURSION, s1.at, Ref(".")) == Ok(Pc(s1.out));
    if name != "." {
      assert table[Key(s1.at, name)] == M.Value(Pc(s1.out));
    }
    SameItems(table, s1.at, es, name, Ref("."));
  }

  /** And from then on, while the symbol keeps its value: in any state whose scopes give the name
      the same key, they have the values they have with that origin, as a number, in its place. */
  lemma LabelKeepsItsOrigin(s: Asm, name: string, later: Asm, es: seq<Element>)
    requires name != "" && name != "." && !s.out.unknown
    requires
      var s1 := ProgramLabel(s, name);
      var key := Key(s1.at, name);
      Key(later.at, name) == key && key in later.syms && later.syms[key].arg == s1.syms[key].arg
    ensures ValuesOf(later, es) == ValuesOf(later, AllWith(es, name, Number(ToLong(s.out.org))))
  {
    var s1 := ProgramLabel(s, name);
    var table, key := Env(later.syms, later.out), Key(s1.at, name);
    KeyIsNotDot(s1.at, name);
    assert s1.syms[key].arg == Pc(s.out);
    assert table[key] == M.Value(Arg(ToLong(s.out.org), false));
    SameItems(table, later.at, es, name, Number(ToLong(s.out.org)));
  }

  /** After an EQU its name stands for the value of its operand. */
  lemma EquIsItsValue(s: Asm, name: string, e: Tree, es: seq<Element>)
    requires name != "" && name != "." && name != "*" && EvalOne(s, e).Ok? && !EvalOne(s, e).value.1.unknown
    ensures
      var s1 := VEqu(s, name, e);
      s1.Ok? && ValuesOf(s1.value, es) == ValuesOf(s1.value, AllWith(es, name, Number(EvalOne(s, e).value.1.value)))
  {
    var s1 := VEqu(s, name, e).value;
    KeyIsNotDot(s1.at, name);
    assert Env(s1.syms, s1.out)[Key(s1.at, name)] == M.Value(EvalOne(s, e).value.1);
    SameItems(Env(s1.syms, s1.out), s1.at, es, name, Number(EvalOne(s, e).value.1.value));
  }

  // ----- when another pass is asked for -----

  /** A label asks for another pass if and only if its symbol is there and was read in this pass
      with another value than it has now, or with none, or had another known value in the pass
      before. */
  lemma LabelRedo(s: Asm, name: string)
    requires name != "" && name != "."
    ensures
      var key := Key(OnLabel(s.at, name), name);
      var read := if key in s.syms && s.syms[key].ref then Some(s.syms[key].arg) else None;
      var asks :=
        || (read.Some? && (s.out.unknown || read.value != Arg(ToLong(s.out.org), false)))
        || (key in s.syms && !s.syms[key].arg.unknown && !s.out.unknown && s.syms[key].arg.value != ToLong(s.out.org));
      Redo(ProgramLabel(s, name)) == Redo(s) + if asks then 1 else 0
  {}

  /** An EQU does if and only if it changes a known value. */
  lemma EquRedo(s: Asm, name: string, e: Tree)
    requires name != "" && name != "." && name != "*" && VEqu(s, name, e).Ok?
    ensures
      var (s1, v) := EvalOne(s, e).value;
      var asks := Key(s1.at, name) in s1.syms && !s1.syms[Key(s1.at, name)].arg.unknown && v != s1.syms[Key(s1.at, name)].arg;
      Redo(VEqu(s, name, e).value) == Redo(s1) + if asks then 1 else 0
  {}
}
