/** Expressions as token lists and as precedence trees.

    Tokens are already told apart: whether a `-` is unary is decided before
    this model begins (src/exp.c, `Lastwasop`). */
module Expressions {
  import opened Results
  import opened Operators

  datatype Atom = Number(value: int) | Ref(name: string)

  datatype Token =
    | Operand(atom: Atom)
    | Prefix(unary: UnaryOp)
    | Infix(binary: BinaryOp)
    | Open
    | Close
    | Comma

  /** An expression tree; `Group` is a bracketed subexpression. */
  datatype Tree =
    | Leaf(atom: Atom)
    | Unary(uop: UnaryOp, arg: Tree)
    | Binary(bop: BinaryOp, left: Tree, right: Tree)
    | Group(body: Tree)

  function TreePriority(t: Tree): (p: nat)
    ensures 10 <= p <= UNARY_PRIORITY
  {
    if t.Binary? then Priority(t.bop) else UNARY_PRIORITY
  }

  /** The tree is the one precedence asks for: a right operand binds strictly tighter
      than its operator (equal priorities associate to the left), a left operand at least
      as tight, and a unary operator takes one primary. */
  predicate Canonical(t: Tree) {
    match t
    case Leaf(_) => true
    case Unary(_, e) => TreePriority(e) == UNARY_PRIORITY && Canonical(e)
    case Binary(op, l, r) =>
      && Priority(op) <= TreePriority(l) && Priority(op) < TreePriority(r)
      && Canonical(l) && Canonical(r)
    case Group(e) => Canonical(e)
  }

  function Flatten(t: Tree): (ts: seq<Token>)
    ensures 0 < |ts|
  {
    match t
    case Leaf(a) => [Operand(a)]
    case Unary(op, e) => [Prefix(op)] + Flatten(e)
    case Binary(op, l, r) => Flatten(l) + ([Infix(op)] + Flatten(r))
    case Group(e) => [Open] + (Flatten(e) + [Close])
  }

  // ----- which token lists are expressions -----

  /** One scan without priorities: `operandNext` says an operand is due, `depth`
      counts open brackets. */
  predicate Scan(ts: seq<Token>, operandNext: bool, depth: nat) {
    if ts == [] then !operandNext && depth == 0
    else
      match ts[0]
      case Operand(_) => operandNext && Scan(ts[1..], false, depth)
      case Prefix(_) => operandNext && Scan(ts[1..], true, depth)
      case Open => operandNext && Scan(ts[1..], true, depth + 1)
      case Infix(_) => !operandNext && Scan(ts[1..], true, depth)
      case Close => !operandNext && 0 < depth && Scan(ts[1..], false, depth - 1)
      case Comma => false
  }

  predicate WellFormed(ts: seq<Token>) { Scan(ts, true, 0) }

  // ----- the precedence tree of a token list -----

  /** Puts `op u` to the right of t, as deep on the right spine as the priority of op goes. */
  function Insert(t: Tree, op: BinaryOp, u: Tree): (r: Tree)
    requires Canonical(t) && Canonical(u) && TreePriority(u) == UNARY_PRIORITY
    ensures Canonical(r)
    ensures Flatten(r) == Flatten(t) + [Infix(op)] + Flatten(u)
    ensures TreePriority(r) == if TreePriority(t) < Priority(op) then TreePriority(t) else Priority(op)
  {
    if t.Binary? && Priority(t.bop) < Priority(op) then
      Binary(t.bop, t.left, Insert(t.right, op, u))
    else
      assert Flatten(Binary(op, t, u)) == Flatten(t) + [Infix(op)] + Flatten(u);
      Binary(op, t, u)
  }

  function ParsePrimary(ts: seq<Token>): (r: Option<(Tree, seq<Token>)>)
    decreases |ts|, 0
    ensures r.Some? ==> Canonical(r.value.0) && TreePriority(r.value.0) == UNARY_PRIORITY
    ensures r.Some? ==> Flatten(r.value.0) + r.value.1 == ts
  {
    if ts == [] then None
    else
      match ts[0]
      case Operand(a) => Some((Leaf(a), ts[1..]))
      case Prefix(op) =>
        (match ParsePrimary(ts[1..])
         case None => None
         case Some((e, rest)) =>
           assert Flatten(Unary(op, e)) + rest == [ts[0]] + (Flatten(e) + rest);
           Some((Unary(op, e), rest)))
      case Open =>
        (match ParseExpression(ts[1..])
         case None => None
         case Some((e, rest)) =>
           if rest == [] || rest[0] != Close then None else
           assert Flatten(Group(e)) + rest[1..] == [ts[0]] + (Flatten(e) + rest);
           Some((Group(e), rest[1..])))
      case _ => None
  }

  function ParseExpression(ts: seq<Token>): (r: Option<(Tree, seq<Token>)>)
    decreases |ts|, 1
    ensures r.Some? ==> Canonical(r.value.0) && Flatten(r.value.0) + r.value.1 == ts
  {
    match ParsePrimary(ts)
    case None => None
    case Some((u, rest)) => ParseTail(u, rest)
  }

  lemma Joined(a: seq<Token>, b: seq<Token>, rest: seq<Token>, ts: seq<Token>)
    requires ts != [] && b + rest == ts[1..]
    ensures a + [ts[0]] + b + rest == a + ts
  {
    assert a + [ts[0]] + b + rest == a + ([ts[0]] + (b + rest));
  }

  /** Reads `op primary` pairs onto t. */
  function ParseTail(t: Tree, ts: seq<Token>): (r: Option<(Tree, seq<Token>)>)
    requires Canonical(t)
    decreases |ts|, 0
    ensures r.Some? ==> Canonical(r.value.0) && Flatten(r.value.0) + r.value.1 == Flatten(t) + ts
  {
    if ts == [] || !ts[0].Infix? then Some((t, ts))
    else
      match ParsePrimary(ts[1..])
      case None => None
      case Some((u, rest)) =>
        var t' := Insert(t, ts[0].binary, u);
        Joined(Flatten(t), Flatten(u), rest, ts);
        ParseTail(t', rest)
  }

  /** The precedence tree of a whole token list, if it is an expression. */
  function Parse(ts: seq<Token>): (r: Option<Tree>)
    ensures r.Some? ==> Canonical(r.value) && Flatten(r.value) == ts
  {
    match ParseExpression(ts)
    case Some((t, rest)) => if rest == [] then Some(t) else None
    case None => None
  }

  // ----- every well-formed list has a tree, and only those do -----

  lemma {:induction false} PrimaryComplete(ts: seq<Token>, depth: nat)
    requires Scan(ts, true, depth)
    decreases |ts|, 0
    ensures ParsePrimary(ts).Some? && Scan(ParsePrimary(ts).value.1, false, depth)
  {
    match ts[0]
    case Operand(_) =>
    case Prefix(_) => PrimaryComplete(ts[1..], depth);
    case Open => ExpressionComplete(ts[1..], depth + 1);
  }

  lemma {:induction false} ExpressionComplete(ts: seq<Token>, depth: nat)
    requires Scan(ts, true, depth)
    decreases |ts|, 1
    ensures ParseExpression(ts).Some?
    ensures var rest := ParseExpression(ts).value.1; Scan(rest, false, depth) && (rest == [] || rest[0] == Close)
  {
    PrimaryComplete(ts, depth);
    var (u, rest) := ParsePrimary(ts).value;
    TailComplete(u, rest, depth);
  }

  lemma {:induction false} TailComplete(t: Tree, ts: seq<Token>, depth: nat)
    requires Canonical(t) && Scan(ts, false, depth)
    decreases |ts|, 0
    ensures ParseTail(t, ts).Some?
    ensures var rest := ParseTail(t, ts).value.1; Scan(rest, false, depth) && (rest == [] || rest[0] == Close)
  {
    if ts != [] && ts[0].Infix? {
      PrimaryComplete(ts[1..], depth);
      var (u, rest) := ParsePrimary(ts[1..]).value;
      TailComplete(Insert(t, ts[0].binary, u), rest, depth);
    }
  }

  lemma {:induction false} ScanFlatten(t: Tree, rest: seq<Token>, depth: nat)
    ensures Scan(Flatten(t) + rest, true, depth) == Scan(rest, false, depth)
    decreases t
  {
    match t
    case Leaf(_) => assert (Flatten(t) + rest)[1..] == rest;
    case Unary(op, e) =>
      assert (Flatten(t) + rest)[1..] == Flatten(e) + rest;
      ScanFlatten(e, rest, depth);
    case Binary(op, l, r) =>
      var tail := [Infix(op)] + (Flatten(r) + rest);
      assert Flatten(t) + rest == Flatten(l) + tail;
      ScanFlatten(l, tail, depth);
      assert tail[1..] == Flatten(r) + rest;
      ScanFlatten(r, rest, depth);
    case Group(e) =>
      assert (Flatten(t) + rest)[1..] == Flatten(e) + ([Close] + rest);
      ScanFlatten(e, [Close] + rest, depth + 1);
      assert ([Close] + rest)[1..] == rest;
  }

  /** The token lists that are expressions are exactly those with a precedence tree. */
  lemma ParseIffWellFormed(ts: seq<Token>)
    ensures WellFormed(ts) <==> Parse(ts).Some?
  {
    if WellFormed(ts) {
      ExpressionComplete(ts, 0);
    }
    if Parse(ts).Some? {
      assert Flatten(Parse(ts).value) + [] == ts;
      ScanFlatten(Parse(ts).value, [], 0);
    }
  }

  // ----- and the tree is the only one -----

  /** A right spine with a hole at its end. */
  datatype Spine = Hole | Arm(op: BinaryOp, left: Tree, below: Spine)

  function Plug(k: Spine, t: Tree): Tree {
    match k
    case Hole => t
    case Arm(op, l, below) => Binary(op, l, Plug(below, t))
  }

  predicate LooserThan(k: Spine, p: nat) {
    match k
    case Hole => true
    case Arm(op, _, below) => Priority(op) < p && LooserThan(below, p)
  }

  function Deeper(k: Spine, op: BinaryOp, l: Tree): Spine {
    match k
    case Hole => Arm(op, l, Hole)
    case Arm(o, l', below) => Arm(o, l', Deeper(below, op, l))
  }

  lemma {:induction false} DeeperPlugs(k: Spine, op: BinaryOp, l: Tree, t: Tree, p: nat)
    ensures Plug(Deeper(k, op, l), t) == Plug(k, Binary(op, l, t))
    ensures LooserThan(k, p) && Priority(op) < p ==> LooserThan(Deeper(k, op, l), p)
  {
    if k.Arm? { DeeperPlugs(k.below, op, l, t, p); }
  }

  lemma {:induction false} LooserAlsoThan(k: Spine, p: nat, q: nat)
    requires LooserThan(k, p) && p <= q
    ensures LooserThan(k, q)
  {
    if k.Arm? { LooserAlsoThan(k.below, p, q); }
  }

  /** Only the priority of what fills the hole decides whether a spine stays canonical. */
  lemma {:induction false} Replug(k: Spine, t: Tree, u: Tree)
    requires Canonical(Plug(k, t)) && Canonical(u) && LooserThan(k, TreePriority(u))
    ensures Canonical(Plug(k, u)) && Canonical(t)
  {
    if k.Arm? { Replug(k.below, t, u); }
  }

  lemma {:induction false} InsertPlugged(k: Spine, t: Tree, op: BinaryOp, u: Tree)
    requires Canonical(Plug(k, t)) && Canonical(t) && Canonical(u) && TreePriority(u) == UNARY_PRIORITY
    requires LooserThan(k, Priority(op))
    ensures Insert(Plug(k, t), op, u) == Plug(k, Insert(t, op, u))
  {
    if k.Arm? { InsertPlugged(k.below, t, op, u); }
  }

  /** Reading the tokens of t under any looser spine rebuilds t in the hole. */
  lemma {:induction false} ReadBack(t: Tree, k: Spine, rest: seq<Token>)
    requires Canonical(t) && Canonical(Plug(k, t)) && LooserThan(k, TreePriority(t))
    decreases t
    ensures var r := ParsePrimary(Flatten(t) + rest);
      r.Some? && Canonical(Plug(k, r.value.0)) && ParseTail(Plug(k, r.value.0), r.value.1) == ParseTail(Plug(k, t), rest)
    ensures TreePriority(t) == UNARY_PRIORITY ==> ParsePrimary(Flatten(t) + rest) == Some((t, rest))
  {
    match t
    case Leaf(_) => assert (Flatten(t) + rest)[1..] == rest;
    case Unary(op, e) => ReadBackUnary(t, rest);
    case Group(e) => ReadBackGroup(t, rest);
    case Binary(op, l, r) => ReadBackBinary(t, k, rest);
  }

  lemma {:induction false} ReadBackUnary(t: Tree, rest: seq<Token>)
    requires t.Unary? && Canonical(t)
    decreases t, 0
    ensures ParsePrimary(Flatten(t) + rest) == Some((t, rest))
  {
    assert (Flatten(t) + rest)[1..] == Flatten(t.arg) + rest;
    ReadBack(t.arg, Hole, rest);
  }

  lemma {:induction false} ReadBackGroup(t: Tree, rest: seq<Token>)
    requires t.Group? && Canonical(t)
    decreases t, 0
    ensures ParsePrimary(Flatten(t) + rest) == Some((t, rest))
  {
    var inner := [Close] + rest;
    assert (Flatten(t) + rest)[1..] == Flatten(t.body) + inner;
    ReadBack(t.body, Hole, inner);
    assert ParseExpression(Flatten(t.body) + inner) == Some((t.body, inner));
    assert inner[1..] == rest;
  }

  lemma {:induction false} ReadBackBinary(t: Tree, k: Spine, rest: seq<Token>)
    requires t.Binary? && Canonical(t) && Canonical(Plug(k, t)) && LooserThan(k, TreePriority(t))
    decreases t, 0
    ensures var r := ParsePrimary(Flatten(t) + rest);
      r.Some? && Canonical(Plug(k, r.value.0)) && ParseTail(Plug(k, r.value.0), r.value.1) == ParseTail(Plug(k, t), rest)
  {
    var Binary(op, l, r) := t;
    var tail := [Infix(op)] + (Flatten(r) + rest);
    assert Flatten(t) + rest == Flatten(l) + tail;
    assert tail[1..] == Flatten(r) + rest;
    LooserAlsoThan(k, Priority(op), TreePriority(l));
    Replug(k, t, l);
    ReadBack(l, k, tail);

    var k' := Deeper(k, op, l);
    DeeperPlugs(k, op, l, r, TreePriority(r));
    LooserAlsoThan(k, Priority(op), TreePriority(r));
    ReadBack(r, k', rest);
    var (u, rest') := ParsePrimary(Flatten(r) + rest).value;
    DeeperPlugs(k, op, l, u, 0);
    InsertPlugged(k, l, op, u);
  }

  /** Canonical trees and well-formed token lists are in bijection. */
  lemma ParseFlatten(t: Tree)
    requires Canonical(t)
    ensures Parse(Flatten(t)) == Some(t)
  {
    ReadBack(t, Hole, []);
    assert Flatten(t) + [] == Flatten(t);
  }
}
