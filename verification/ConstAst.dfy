/** Constant expressions: evaluation that resolves constant leaves in place, copying, and the test for
    expressions that are constant at compile time. */
module ConstAst {
  import opened Common

  /** The operators whose operands are all evaluated first. */
  datatype Operator =
    | Add | Sub | Mul | Pow | Div | Mod | Sl | Sr | Concat | BwOr | BwAnd | BwXor | BoolXor
    | Identical | NotIdentical | Equal | NotEqual | Smaller | SmallerOrEqual | FetchDim | BwNot | BoolNot

  datatype Kind = Binary(op: Operator) | Unary(op: Operator) | And | Or | Select | UnaryPlus | UnaryMinus | InitArray

  datatype Value = Bool(b: bool) | Long(n: int) | Str(s: string) | Array(items: seq<(Value, Value)>)

  /** A leaf holds a value, or a constant still to be looked up. */
  datatype Zval = Known(v: Value) | Named(name: string)

  datatype Scope = NoScope | Class(id: nat)

  /** A tree, with NULL children; what its leaves hold is kept apart, because evaluation overwrites it. */
  datatype Ast = Const(leaf: nat) | Node(kind: Kind, children: seq<Option<Ast>>)

  type Leaves = map<nat, Zval>

  /** The operators and the constant lookup of the engine. */
  datatype Engine = Engine(
    binary: (Operator, Value, Value) -> Value,
    unary: (Operator, Value) -> Value,
    isTrue: Value -> bool,
    addElement: (Value, Option<Value>, Value) -> Value,
    lookUp: (string, Scope) -> Value)

  // ---------------------------------------------------------------- the pure meaning

  /** The children that a node of its kind is created with. */
  ghost predicate Arity(kind: Kind, cs: seq<Option<Ast>>) {
    match kind
    case Binary(_) => |cs| == 2 && cs[0].Some? && cs[1].Some?
    case Unary(_) => |cs| == 1 && cs[0].Some?
    case And => |cs| == 2 && cs[0].Some? && cs[1].Some?
    case Or => |cs| == 2 && cs[0].Some? && cs[1].Some?
    case Select => |cs| == 3 && cs[0].Some? && cs[2].Some?
    case UnaryPlus => |cs| == 1 && cs[0].Some?
    case UnaryMinus => |cs| == 1 && cs[0].Some?
    case InitArray => |cs| % 2 == 0 && forall i :: 0 <= i < |cs| && i % 2 == 1 ==> cs[i].Some?
  }

  /** A tree as the parser builds it, with its leaves in `ls`. */
  ghost predicate Formed(t: Ast, ls: Leaves) {
    match t
    case Const(i) => i in ls
    case Node(kind, cs) => Arity(kind, cs) && forall k :: 0 <= k < |cs| && cs[k].Some? ==> Formed(cs[k].value, ls)
  }

  /** Leaf `i` belongs to `t`. */
  ghost predicate Within(t: Ast, i: nat) {
    match t
    case Const(j) => i == j
    case Node(_, cs) => exists k :: 0 <= k < |cs| && cs[k].Some? && Within(cs[k].value, i)
  }

  function Leaf(e: Engine, z: Zval, scope: Scope): Value {
    match z
    case Known(v) => v
    case Named(name) => e.lookUp(name, scope)
  }

  /** The value of an expression, with short-circuit operators and nothing overwritten. */
  ghost function Eval(e: Engine, t: Ast, ls: Leaves, scope: Scope): Value
    requires Formed(t, ls)
    decreases t, if t.Node? then |t.children| + 1 else 0
  {
    match t
    case Const(i) => Leaf(e, ls[i], scope)
    case Node(kind, cs) =>
      match kind
      case Binary(op) => e.binary(op, Eval(e, cs[0].value, ls, scope), Eval(e, cs[1].value, ls, scope))
      case Unary(op) => e.unary(op, Eval(e, cs[0].value, ls, scope))
      case And => Bool(e.isTrue(Eval(e, cs[0].value, ls, scope)) && e.isTrue(Eval(e, cs[1].value, ls, scope)))
      case Or => Bool(e.isTrue(Eval(e, cs[0].value, ls, scope)) || e.isTrue(Eval(e, cs[1].value, ls, scope)))
      case Select =>
        var v := Eval(e, cs[0].value, ls, scope);
        if !e.isTrue(v) then Eval(e, cs[2].value, ls, scope)
        else if cs[1].None? then v else Eval(e, cs[1].value, ls, scope)
      case UnaryPlus => e.binary(Add, Long(0), Eval(e, cs[0].value, ls, scope))
      case UnaryMinus => e.binary(Sub, Long(0), Eval(e, cs[0].value, ls, scope))
      case InitArray => Elements(e, t, ls, scope, |cs|)
  }

  /** The array of the elements before child `n`. */
  ghost function Elements(e: Engine, t: Ast, ls: Leaves, scope: Scope, n: nat): Value
    requires t.Node? && t.kind == InitArray && n <= |t.children| && n % 2 == 0 && Formed(t, ls)
    decreases t, n
  {
    if n == 0 then Array([])
    else
      var k, v := t.children[n - 2], t.children[n - 1];
      e.addElement(Elements(e, t, ls, scope, n - 2),
                   if k.None? then None else Some(Eval(e, k.value, ls, scope)), Eval(e, v.value, ls, scope))
  }

  lemma NextElement(e: Engine, t: Ast, ls: Leaves, scope: Scope, i: nat)
    requires t.Node? && t.kind == InitArray && i < |t.children| && i % 2 == 0 && Formed(t, ls)
    ensures i + 2 <= |t.children| && (i + 2) % 2 == 0 && t.children[i + 1].Some?
    ensures Elements(e, t, ls, scope, i + 2) ==
            e.addElement(Elements(e, t, ls, scope, i),
                         if t.children[i].None? then None else Some(Eval(e, t.children[i].value, ls, scope)),
                         Eval(e, t.children[i + 1].value, ls, scope))
  {
    assert (i + 1) % 2 == 1;
  }

  /** The meanings of a tree in two memories agree if those of all its leaves do. */
  lemma {:induction false} Agree(e: Engine, e': Engine, t: Ast, ls: Leaves, ls': Leaves, scope: Scope, scope': Scope)
    requires e' == e.(lookUp := e'.lookUp) && Formed(t, ls)
    requires forall i :: Within(t, i) && i in ls ==> i in ls' && Leaf(e', ls'[i], scope') == Leaf(e, ls[i], scope)
    ensures Formed(t, ls') && Eval(e', t, ls', scope') == Eval(e, t, ls, scope)
    decreases t, if t.Node? then |t.children| + 1 else 0
  {
    match t
    case Const(i) => assert Within(t, i);
    case Node(kind, cs) =>
      forall k: nat | k < |cs| ensures SameChild(e, e', t, t, ls, ls', scope, scope', k) {
        if cs[k].Some? {
          forall i | Within(cs[k].value, i) ensures Within(t, i) { }
          Agree(e, e', cs[k].value, ls, ls', scope, scope');
        }
      }
      forall k: nat | k < |cs| && cs[k].Some?
        ensures Formed(cs[k].value, ls') && Eval(e', cs[k].value, ls', scope') == Eval(e, cs[k].value, ls, scope)
      {
        assert SameChild(e, e', t, t, ls, ls', scope, scope', k);
      }
      if kind == InitArray { AgreeElements(e, e', t, t, ls, ls', scope, scope', |cs|); }
  }

  /** The child `k` of `t` under one reading means what that of `c` means under the other. */
  ghost predicate SameChild(e: Engine, e': Engine, t: Ast, c: Ast, ls: Leaves, ls': Leaves, scope: Scope,
                            scope': Scope, k: nat)
    requires t.Node? && c.Node? && k < |t.children| == |c.children|
  {
    && (t.children[k].None? <==> c.children[k].None?)
    && (t.children[k].Some? ==>
          && Formed(t.children[k].value, ls) && Formed(c.children[k].value, ls')
          && Eval(e', c.children[k].value, ls', scope') == Eval(e, t.children[k].value, ls, scope))
  }

  lemma {:induction false} AgreeElements(e: Engine, e': Engine, t: Ast, c: Ast, ls: Leaves, ls': Leaves,
                                         scope: Scope, scope': Scope, n: nat)
    requires e' == e.(lookUp := e'.lookUp) && t.Node? && c.Node? && t.kind == InitArray == c.kind
    requires |t.children| == |c.children| && n <= |t.children| && n % 2 == 0 && Formed(t, ls) && Formed(c, ls')
    requires forall k: nat {:trigger SameChild(e, e', t, c, ls, ls', scope, scope', k)} :: k < |t.children| ==>
               SameChild(e, e', t, c, ls, ls', scope, scope', k)
    ensures Elements(e', c, ls', scope', n) == Elements(e, t, ls, scope, n)
    decreases t, n
  {
    if n > 0 {
      AgreeElements(e, e', t, c, ls, ls', scope, scope', n - 2);
      assert SameChild(e, e', t, c, ls, ls', scope, scope', n - 2);
      assert SameChild(e, e', t, c, ls, ls', scope, scope', n - 1);
      AgreeElement(e, e', t, c, ls, ls', scope, scope', n - 2);
    }
  }

  lemma AgreeElement(e: Engine, e': Engine, t: Ast, c: Ast, ls: Leaves, ls': Leaves, scope: Scope, scope': Scope,
                     i: nat)
    requires e' == e.(lookUp := e'.lookUp) && t.Node? && c.Node? && t.kind == InitArray == c.kind
    requires |t.children| == |c.children| && i + 2 <= |t.children| && i % 2 == 0 && Formed(t, ls) && Formed(c, ls')
    requires SameChild(e, e', t, c, ls, ls', scope, scope', i) && SameChild(e, e', t, c, ls, ls', scope, scope', i + 1)
    requires Elements(e', c, ls', scope', i) == Elements(e, t, ls, scope, i)
    ensures Elements(e', c, ls', scope', i + 2) == Elements(e, t, ls, scope, i + 2)
  {
    NextElement(e, t, ls, scope, i);
    NextElement(e', c, ls', scope', i);
  }

  // ---------------------------------------------------------------- overwriting

  /** `ls'` is `ls` after some leaves of `t` were resolved under `scope`; without a class scope none is. */
  ghost predicate Resolves(e: Engine, ls: Leaves, ls': Leaves, t: Ast, scope: Scope) {
    && ls'.Keys == ls.Keys
    && forall i :: i in ls ==>
         ls'[i] == ls[i] || (Within(t, i) && scope != NoScope && ls'[i] == Known(Leaf(e, ls[i], scope)))
  }

  /** Resolving leaves, whichever they are, changes no value under the same scope. */
  lemma SameMeaning(e: Engine, t: Ast, ls: Leaves, ls': Leaves, u: Ast, scope: Scope)
    requires Resolves(e, ls, ls', u, scope) && Formed(t, ls)
    ensures Formed(t, ls') && Eval(e, t, ls', scope) == Eval(e, t, ls, scope)
  {
    Agree(e, e, t, ls, ls', scope, scope);
  }

  lemma ChildWithin(t: Ast, k: nat)
    requires t.Node? && k < |t.children| && t.children[k].Some?
    ensures forall i :: Within(t.children[k].value, i) ==> Within(t, i)
  {
    forall i | Within(t.children[k].value, i) ensures Within(t, i) { }
  }

  /** The leaves that evaluation looks at: those of an operand that a short-circuit operator skips are not. */
  ghost function Reads(e: Engine, t: Ast, ls: Leaves, scope: Scope): set<nat>
    requires Formed(t, ls)
    decreases t, if t.Node? then |t.children| + 1 else 0
  {
    match t
    case Const(i) => {i}
    case Node(kind, cs) =>
      match kind
      case Binary(_) => Reads(e, cs[0].value, ls, scope) + Reads(e, cs[1].value, ls, scope)
      case And =>
        Reads(e, cs[0].value, ls, scope) +
        if e.isTrue(Eval(e, cs[0].value, ls, scope)) then Reads(e, cs[1].value, ls, scope) else {}
      case Or =>
        Reads(e, cs[0].value, ls, scope) +
        if e.isTrue(Eval(e, cs[0].value, ls, scope)) then {} else Reads(e, cs[1].value, ls, scope)
      case Select =>
        Reads(e, cs[0].value, ls, scope) +
        if !e.isTrue(Eval(e, cs[0].value, ls, scope)) then Reads(e, cs[2].value, ls, scope)
        else if cs[1].None? then {} else Reads(e, cs[1].value, ls, scope)
      case InitArray => ReadsBefore(e, t, ls, scope, |cs|)
      case _ => Reads(e, cs[0].value, ls, scope)
  }

  /** Those of the children before `n`. */
  ghost function ReadsBefore(e: Engine, t: Ast, ls: Leaves, scope: Scope, n: nat): set<nat>
    requires t.Node? && n <= |t.children| && Formed(t, ls)
    decreases t, n
  {
    if n == 0 then {}
    else
      ReadsBefore(e, t, ls, scope, n - 1) +
      if t.children[n - 1].None? then {} else Reads(e, t.children[n - 1].value, ls, scope)
  }

  /** The leaves `at` resolved, if there is a class scope. */
  ghost function ResolvedAt(e: Engine, ls: Leaves, scope: Scope, at: set<nat>): Leaves {
    map i | i in ls :: if i in at && scope != NoScope then Known(Leaf(e, ls[i], scope)) else ls[i]
  }

  lemma ResolvedMore(e: Engine, ls: Leaves, scope: Scope, at: set<nat>, more: set<nat>)
    ensures ResolvedAt(e, ResolvedAt(e, ls, scope, at), scope, more) == ResolvedAt(e, ls, scope, at + more)
  {
  }

  lemma {:induction false} ReadsWithin(e: Engine, t: Ast, ls: Leaves, scope: Scope)
    requires Formed(t, ls)
    ensures forall i :: i in Reads(e, t, ls, scope) ==> Within(t, i)
    decreases t, if t.Node? then |t.children| + 1 else 0
  {
    if t.Node? {
      forall k, i | 0 <= k < |t.children| && t.children[k].Some? && i in Reads(e, t.children[k].value, ls, scope)
        ensures Within(t, i)
      {
        ReadsWithin(e, t.children[k].value, ls, scope);
        ChildWithin(t, k);
      }
      if t.kind == InitArray { BeforeWithin(e, t, ls, scope, |t.children|); }
    }
  }

  lemma {:induction false} BeforeWithin(e: Engine, t: Ast, ls: Leaves, scope: Scope, n: nat)
    requires t.Node? && n <= |t.children| && Formed(t, ls)
    requires forall k, i :: 0 <= k < |t.children| && t.children[k].Some? ==>
               i in Reads(e, t.children[k].value, ls, scope) ==> Within(t, i)
    ensures forall i :: i in ReadsBefore(e, t, ls, scope, n) ==> Within(t, i)
    decreases t, n
  {
    if n > 0 { BeforeWithin(e, t, ls, scope, n - 1); }
  }

  /** Which leaves are looked at does not depend on which are resolved already. */
  lemma {:induction false} SameReads(e: Engine, t: Ast, ls: Leaves, ls': Leaves, u: Ast, scope: Scope)
    requires Resolves(e, ls, ls', u, scope) && Formed(t, ls)
    ensures Formed(t, ls') && Reads(e, t, ls', scope) == Reads(e, t, ls, scope)
    decreases t, if t.Node? then |t.children| + 1 else 0
  {
    SameMeaning(e, t, ls, ls', u, scope);
    if t.Node? {
      forall k | 0 <= k < |t.children| && t.children[k].Some?
        ensures Formed(t.children[k].value, ls')
        ensures Reads(e, t.children[k].value, ls', scope) == Reads(e, t.children[k].value, ls, scope)
        ensures Eval(e, t.children[k].value, ls', scope) == Eval(e, t.children[k].value, ls, scope)
      {
        SameReads(e, t.children[k].value, ls, ls', u, scope);
        SameMeaning(e, t.children[k].value, ls, ls', u, scope);
      }
      if t.kind == InitArray { SameBefore(e, t, ls, ls', scope, |t.children|); }
    }
  }

  lemma {:induction false} SameBefore(e: Engine, t: Ast, ls: Leaves, ls': Leaves, scope: Scope, n: nat)
    requires t.Node? && n <= |t.children| && Formed(t, ls) && Formed(t, ls')
    requires forall k :: 0 <= k < |t.children| && t.children[k].Some? ==>
               Reads(e, t.children[k].value, ls', scope) == Reads(e, t.children[k].value, ls, scope)
    ensures ReadsBefore(e, t, ls', scope, n) == ReadsBefore(e, t, ls, scope, n)
    decreases t, n
  {
    if n > 0 { SameBefore(e, t, ls, ls', scope, n - 1); }
  }

  /** The leaves of `t` in `at` resolved, and no other. */
  lemma ResolvedResolves(e: Engine, ls: Leaves, t: Ast, scope: Scope, at: set<nat>)
    requires forall i :: i in at ==> Within(t, i)
    ensures Resolves(e, ls, ResolvedAt(e, ls, scope, at), t, scope)
  {
  }

  // ---------------------------------------------------------------- copies and compile-time constants

  /** No leaf is lost or changed. */
  ghost predicate Kept(ls: Leaves, ls': Leaves) {
    forall i :: i in ls ==> i in ls' && ls'[i] == ls[i]
  }

  /** `c` has the shape of `t`, and its leaves hold the same. */
  ghost predicate Mirrors(t: Ast, c: Ast, ls: Leaves)
    decreases t, 0
  {
    match t
    case Const(i) => c.Const? && i in ls && c.leaf in ls && ls[c.leaf] == ls[i]
    case Node(kind, cs) =>
      && c.Node? && c.kind == kind && |c.children| == |cs|
      && forall k :: 0 <= k < |cs| ==>
           (cs[k].None? <==> c.children[k].None?) && (cs[k].Some? ==> Mirrors(cs[k].value, c.children[k].value, ls))
  }

  ghost predicate MirrorsOption(t: Option<Ast>, c: Option<Ast>, ls: Leaves) {
    (t.None? <==> c.None?) && (t.Some? ==> Mirrors(t.value, c.value, ls))
  }

  lemma {:induction false} MirrorsKept(t: Ast, c: Ast, ls: Leaves, ls': Leaves)
    requires Mirrors(t, c, ls) && Kept(ls, ls')
    ensures Mirrors(t, c, ls')
    decreases t
  {
    if t.Node? {
      forall k | 0 <= k < |t.children| && t.children[k].Some?
        ensures Mirrors(t.children[k].value, c.children[k].value, ls')
      {
        MirrorsKept(t.children[k].value, c.children[k].value, ls, ls');
      }
    }
  }

  lemma StillMirrors(t: Option<Ast>, c: Option<Ast>, ls: Leaves, ls': Leaves)
    requires MirrorsOption(t, c, ls) && Kept(ls, ls')
    ensures MirrorsOption(t, c, ls')
  {
    if t.Some? { MirrorsKept(t.value, c.value, ls, ls'); }
  }

  lemma {:induction false} StillFormed(t: Ast, ls: Leaves, ls': Leaves)
    requires Formed(t, ls) && Kept(ls, ls')
    ensures Formed(t, ls')
    decreases t
  {
    if t.Node? {
      forall k | 0 <= k < |t.children| && t.children[k].Some? ensures Formed(t.children[k].value, ls') {
        StillFormed(t.children[k].value, ls, ls');
      }
    }
  }

  /** A copy evaluates to the same value under every scope. */
  lemma {:induction false} CopyMeansTheSame(e: Engine, t: Ast, c: Ast, ls: Leaves, scope: Scope)
    requires Mirrors(t, c, ls) && Formed(t, ls)
    ensures Formed(c, ls) && Eval(e, c, ls, scope) == Eval(e, t, ls, scope)
    decreases t, if t.Node? then |t.children| + 1 else 0
  {
    if t.Node? {
      forall k | 0 <= k < |t.children| && t.children[k].Some?
        ensures Formed(c.children[k].value, ls)
        ensures Eval(e, c.children[k].value, ls, scope) == Eval(e, t.children[k].value, ls, scope)
      {
        CopyMeansTheSame(e, t.children[k].value, c.children[k].value, ls, scope);
      }
      if t.kind == InitArray {
        forall k: nat | k < |t.children| ensures SameChild(e, e, t, c, ls, ls, scope, scope, k) { }
        AgreeElements(e, e, t, c, ls, ls, scope, scope, |t.children|);
      }
    }
  }

  /** Every leaf holds a value. */
  ghost predicate AllKnown(t: Ast, ls: Leaves) {
    forall i :: Within(t, i) && i in ls ==> ls[i].Known?
  }

  /** A compile-time constant has one value, whatever the scope and the constants are. */
  lemma KnownIsScopeFree(e: Engine, e': Engine, t: Ast, ls: Leaves, scope: Scope, scope': Scope)
    requires e' == e.(lookUp := e'.lookUp) && Formed(t, ls) && AllKnown(t, ls)
    ensures Eval(e', t, ls, scope') == Eval(e, t, ls, scope)
  {
    Agree(e, e', t, ls, ls, scope, scope');
  }

  /** The leaves in memory. */
  class Memory {
    const engine: Engine
    var leaves: Leaves

    constructor (engine: Engine)
      ensures this.engine == engine && leaves == map[]
    {
      this.engine := engine;
      leaves := map[];
    }

    /** A leaf: with a class scope a constant is replaced by its value, without one only the result is. */
    method EvaluateLeaf(i: nat, scope: Scope) returns (r: Value)
      requires i in leaves
      modifies this
      ensures r == Leaf(engine, old(leaves)[i], scope) && leaves == ResolvedAt(engine, old(leaves), scope, {i})
    {
      if scope != NoScope {
        if leaves[i].Named? {
          leaves := leaves[i := Known(engine.lookUp(leaves[i].name, scope))];
        }
        r := leaves[i].v;
      } else {
        r := if leaves[i].Named? then engine.lookUp(leaves[i].name, scope) else leaves[i].v;
      }
    }

    /** Child `k` of `t`, after the leaves `at` of `t` were resolved under the same scope. */
    method EvaluateChild(t: Ast, k: nat, scope: Scope, ghost ls: Leaves, ghost at: set<nat>)
      returns (r: Value, ghost at': set<nat>)
      requires t.Node? && k < |t.children| && t.children[k].Some? && Formed(t, ls)
      requires (forall i :: i in at ==> Within(t, i)) && leaves == ResolvedAt(engine, ls, scope, at)
      modifies this
      ensures r == Eval(engine, t.children[k].value, ls, scope)
      ensures at' == at + Reads(engine, t.children[k].value, ls, scope)
      ensures (forall i :: i in at' ==> Within(t, i)) && leaves == ResolvedAt(engine, ls, scope, at')
      decreases t, 0
    {
      var u := t.children[k].value;
      ResolvedResolves(engine, ls, t, scope, at);
      SameMeaning(engine, u, ls, leaves, t, scope);
      SameReads(engine, u, ls, leaves, t, scope);
      ReadsWithin(engine, u, ls, scope);
      ChildWithin(t, k);
      ResolvedMore(engine, ls, scope, at, Reads(engine, u, ls, scope));
      r := Evaluate(u, scope);
      at' := at + Reads(engine, u, ls, scope);
    }

    /** `zend_ast_evaluate`: the value of the expression; only the constants that it looks at are resolved. */
    method Evaluate(t: Ast, scope: Scope) returns (r: Value)
      requires Formed(t, leaves)
      modifies this
      ensures r == Eval(engine, t, old(leaves), scope)
      ensures leaves == ResolvedAt(engine, old(leaves), scope, Reads(engine, t, old(leaves), scope))
      ensures Resolves(engine, old(leaves), leaves, t, scope)
      decreases t, 4
    {
      ghost var ls := leaves;
      if t.Const? {
        r := EvaluateLeaf(t.leaf, scope);
      } else if t.kind == InitArray {
        r := EvaluateArray(t, scope);
      } else {
        r := EvaluateNode(t, scope);
      }
      ReadsWithin(engine, t, ls, scope);
      ResolvedResolves(engine, ls, t, scope, Reads(engine, t, ls, scope));
    }

    /** An operator. */
    method EvaluateNode(t: Ast, scope: Scope) returns (r: Value)
      requires t.Node? && t.kind != InitArray && Formed(t, leaves)
      modifies this
      ensures r == Eval(engine, t, old(leaves), scope)
      ensures leaves == ResolvedAt(engine, old(leaves), scope, Reads(engine, t, old(leaves), scope))
      decreases t, 3
    {
      ghost var ls, at := leaves, {};
      assert leaves == ResolvedAt(engine, ls, scope, at);
      r, at := EvaluateChild(t, 0, scope, ls, at);
      assert at == Reads(engine, t.children[0].value, ls, scope);
      match t.kind
      case Binary(op) =>
        var op2;
        op2, at := EvaluateChild(t, 1, scope, ls, at);
        r := engine.binary(op, r, op2);
      case Unary(op) =>
        r := engine.unary(op, r);
      case And =>
        if engine.isTrue(r) {
          r, at := EvaluateChild(t, 1, scope, ls, at);
          r := Bool(engine.isTrue(r));
        } else {
          r := Bool(false);
        }
      case Or =>
        if engine.isTrue(r) {
          r := Bool(true);
        } else {
          r, at := EvaluateChild(t, 1, scope, ls, at);
          r := Bool(engine.isTrue(r));
        }
      case Select =>
        if !engine.isTrue(r) {
          r, at := EvaluateChild(t, 2, scope, ls, at);
        } else if t.children[1].Some? {
          r, at := EvaluateChild(t, 1, scope, ls, at);
        }
      case UnaryPlus =>
        r := engine.binary(Add, Long(0), r);
      case UnaryMinus =>
        r := engine.binary(Sub, Long(0), r);
    }

    /** The loop over keys and values. */
    method EvaluateArray(t: Ast, scope: Scope) returns (r: Value)
      requires t.Node? && t.kind == InitArray && Formed(t, leaves)
      modifies this
      ensures r == Eval(engine, t, old(leaves), scope)
      ensures leaves == ResolvedAt(engine, old(leaves), scope, Reads(engine, t, old(leaves), scope))
      decreases t, 2
    {
      ghost var ls, at := leaves, {};
      assert leaves == ResolvedAt(engine, ls, scope, at);
      r := Array([]);
      var i := 0;
      while i < |t.children|
        invariant i <= |t.children| && i % 2 == 0
        invariant r == Elements(engine, t, ls, scope, i) && leaves == ResolvedAt(engine, ls, scope, at)
        invariant at == ReadsBefore(engine, t, ls, scope, i) && forall i :: i in at ==> Within(t, i)
      {
        NextElement(engine, t, ls, scope, i);
        var key, expr;
        key, expr, at := EvaluateElement(t, i, scope, ls, at);
        r := engine.addElement(r, key, expr);
        i := i + 2;
      }
    }

    /** The key, if there is one, and then the value of the element at child `i`. */
    method EvaluateElement(t: Ast, i: nat, scope: Scope, ghost ls: Leaves, ghost at: set<nat>)
      returns (key: Option<Value>, expr: Value, ghost at': set<nat>)
      requires t.Node? && i + 1 < |t.children| && t.children[i + 1].Some? && Formed(t, ls)
      requires at == ReadsBefore(engine, t, ls, scope, i)
      requires (forall i :: i in at ==> Within(t, i)) && leaves == ResolvedAt(engine, ls, scope, at)
      modifies this
      ensures key == if t.children[i].None? then None else Some(Eval(engine, t.children[i].value, ls, scope))
      ensures expr == Eval(engine, t.children[i + 1].value, ls, scope)
      ensures at' == ReadsBefore(engine, t, ls, scope, i + 2)
      ensures (forall i :: i in at' ==> Within(t, i)) && leaves == ResolvedAt(engine, ls, scope, at')
      decreases t, 1
    {
      key := None;
      at' := at;
      if t.children[i].Some? {
        var op1;
        op1, at' := EvaluateChild(t, i, scope, ls, at);
        key := Some(op1);
      }
      assert at' == ReadsBefore(engine, t, ls, scope, i + 1);
      expr, at' := EvaluateChild(t, i + 1, scope, ls, at');
    }

    /** An unused leaf. */
    method FreshLeaf() returns (j: nat)
      ensures j !in leaves
    {
      j := 0;
      ghost var left := leaves.Keys;
      while j in leaves
        invariant forall i :: i in leaves && i >= j ==> i in left
        decreases left
      {
        left := left - {j};
        j := j + 1;
      }
    }

    /** `zend_ast_copy` of a tree: the same shape over leaves of its own. */
    method Copy(t: Ast) returns (c: Ast)
      requires Formed(t, leaves)
      modifies this
      ensures Kept(old(leaves), leaves) && Mirrors(t, c, leaves)
      ensures forall i :: Within(c, i) ==> i !in old(leaves)
      decreases t
    {
      if t.Const? {
        var j := FreshLeaf();
        leaves := leaves[j := leaves[t.leaf]];
        return Const(j);
      }
      ghost var ls := leaves;
      var cs: seq<Option<Ast>> := [];
      for k := 0 to |t.children|
        invariant |cs| == k && Kept(ls, leaves)
        invariant forall n :: 0 <= n < k ==> MirrorsOption(t.children[n], cs[n], leaves)
        invariant forall n, i :: 0 <= n < k && cs[n].Some? && Within(cs[n].value, i) ==> i !in ls
      {
        if t.children[k].None? {
          cs := cs + [None];
        } else {
          ghost var ls1 := leaves;
          StillFormed(t, ls, leaves);
          var u := Copy(t.children[k].value);
          forall n | 0 <= n < k ensures MirrorsOption(t.children[n], cs[n], leaves) {
            StillMirrors(t.children[n], cs[n], ls1, leaves);
          }
          cs := cs + [Some(u)];
        }
      }
      c := Node(t.kind, cs);
    }

    /** `zend_ast_is_ct_constant` */
    method IsCtConstant(t: Ast) returns (r: bool)
      requires Formed(t, leaves)
      ensures r <==> AllKnown(t, leaves)
      decreases t
    {
      if t.Const? {
        return leaves[t.leaf].Known?;
      }
      for k := 0 to |t.children|
        invariant forall n :: 0 <= n < k && t.children[n].Some? ==> AllKnown(t.children[n].value, leaves)
      {
        if t.children[k].Some? {
          var known := IsCtConstant(t.children[k].value);
          if !known {
            ChildWithin(t, k);
            return false;
          }
        }
      }
      return true;
    }
  }

  // ---------------------------------------------------------------- the laws of evaluation

  /** An engine with integer sums and differences, */
  ghost predicate Integral(e: Engine) {
    && (forall a, b :: e.binary(Add, Long(a), Long(b)) == Long(a + b))
    && (forall a, b :: e.binary(Sub, Long(a), Long(b)) == Long(a - b))
  }

  /** with negation by truth value, */
  ghost predicate Logical(e: Engine) {
    && (forall v {:trigger e.unary(BoolNot, v)} :: e.unary(BoolNot, v) == Bool(!e.isTrue(v)))
    && (forall b {:trigger e.isTrue(Bool(b))} :: e.isTrue(Bool(b)) == b)
  }

  /** and with arrays that grow at the end. */
  ghost predicate Growing(e: Engine) {
    forall items, k, v {:trigger e.addElement(Array(items), k, v)} ::
      e.addElement(Array(items), k, v) == Array(items + [Entry(items, k, v)])
  }

  /** An element without a key is numbered by its place. */
  ghost function Entry(items: seq<(Value, Value)>, k: Option<Value>, v: Value): (Value, Value) {
    (if k.None? then Long(|items|) else k.value, v)
  }

  /** No leaf outside `u` and `v` has changed. */
  ghost predicate Spared(ls: Leaves, ls': Leaves, u: Ast, v: Ast) {
    ls'.Keys == ls.Keys && forall i :: i in ls && !Within(u, i) && !Within(v, i) ==> ls'[i] == ls[i]
  }

  /** A constant keeps the value that its first evaluation in a class gives it; outside classes nothing is kept. */
  method EvaluateConstant(m: Memory, i: nat, c: nat, later: Scope) returns (first: Value, r: Value, again: Value)
    requires i in m.leaves
    modifies m
    ensures old(m.leaves)[i].Known? ==> first == old(m.leaves)[i].v == r
    ensures old(m.leaves)[i].Named? ==> first == m.engine.lookUp(old(m.leaves)[i].name, NoScope)
    ensures old(m.leaves)[i].Named? ==> r == m.engine.lookUp(old(m.leaves)[i].name, Class(c))
    ensures again == r && m.leaves == old(m.leaves)[i := Known(r)]
  {
    first := m.Evaluate(Const(i), NoScope);
    r := m.Evaluate(Const(i), Class(c));
    again := m.Evaluate(Const(i), later);
  }

  /** Under `scope` every leaf still means what it did. */
  ghost predicate Alike(e: Engine, ls: Leaves, ls': Leaves, scope: Scope) {
    ls'.Keys == ls.Keys && forall i :: i in ls ==> Leaf(e, ls'[i], scope) == Leaf(e, ls[i], scope)
  }

  /** An expression evaluated after others under the same scope has the value that it had before. */
  method EvaluateLater(m: Memory, t: Ast, scope: Scope, ghost ls: Leaves) returns (r: Value)
    requires Formed(t, ls) && Alike(m.engine, ls, m.leaves, scope)
    modifies m
    ensures r == Eval(m.engine, t, ls, scope) && Alike(m.engine, ls, m.leaves, scope)
  {
    Agree(m.engine, m.engine, t, ls, m.leaves, scope, scope);
    r := m.Evaluate(t, scope);
  }

  /** The operators: all operands count, in their order. */
  method EvaluateOperators(m: Memory, op: Operator, u: Ast, v: Ast, scope: Scope)
    returns (r: Value, s: Value, x: Value, y: Value)
    requires Formed(u, m.leaves) && Formed(v, m.leaves)
    modifies m
    ensures x == Eval(m.engine, u, old(m.leaves), scope) && y == Eval(m.engine, v, old(m.leaves), scope)
    ensures r == m.engine.binary(op, x, y) && s == m.engine.unary(op, x)
  {
    ghost var ls := m.leaves;
    r := m.Evaluate(Node(Binary(op), [Some(u), Some(v)]), scope);
    s := EvaluateLater(m, Node(Unary(op), [Some(u)]), scope, ls);
    x := EvaluateLater(m, u, scope, ls);
    y := EvaluateLater(m, v, scope, ls);
  }

  /** The signs: of an integer, its negative and itself. */
  method EvaluateSigns(m: Memory, u: Ast, scope: Scope) returns (minus: Value, plus: Value, x: Value)
    requires Integral(m.engine) && Formed(u, m.leaves)
    modifies m
    ensures x == Eval(m.engine, u, old(m.leaves), scope)
    ensures x.Long? ==> minus == Long(-x.n) && plus == x
  {
    ghost var ls := m.leaves;
    minus := m.Evaluate(Node(UnaryMinus, [Some(u)]), scope);
    plus := EvaluateLater(m, Node(UnaryPlus, [Some(u)]), scope, ls);
    x := EvaluateLater(m, u, scope, ls);
  }

  /** Conjunction by truth value; after a false operand the other one is not looked at. */
  method EvaluateAnd(m: Memory, u: Ast, v: Ast, scope: Scope)
    returns (r: Value, x: Value, y: Value, ghost after: Leaves)
    requires Formed(u, m.leaves) && Formed(v, m.leaves)
    modifies m
    ensures x == Eval(m.engine, u, old(m.leaves), scope) && y == Eval(m.engine, v, old(m.leaves), scope)
    ensures r == Bool(m.engine.isTrue(x) && m.engine.isTrue(y))
    ensures !m.engine.isTrue(x) ==> Spared(old(m.leaves), after, u, u)
  {
    ghost var ls := m.leaves;
    r := m.Evaluate(Both(u, v), scope);
    after := m.leaves;
    ReadsWithin(m.engine, u, ls, scope);
    x := EvaluateLater(m, u, scope, ls);
    y := EvaluateLater(m, v, scope, ls);
  }

  function Not(u: Ast): Ast {
    Node(Unary(BoolNot), [Some(u)])
  }

  function Both(u: Ast, v: Ast): Ast {
    Node(And, [Some(u), Some(v)])
  }

  function Either(u: Ast, v: Ast): Ast {
    Node(Or, [Some(u), Some(v)])
  }

  /** De Morgan: `u || v` is `!(!u && !v)`, in its value and in the constants that it looks at. */
  lemma DeMorgan(e: Engine, u: Ast, v: Ast, ls: Leaves, scope: Scope)
    requires Logical(e) && Formed(u, ls) && Formed(v, ls)
    ensures Formed(Either(u, v), ls) && Formed(Not(Both(Not(u), Not(v))), ls)
    ensures Eval(e, Not(Both(Not(u), Not(v))), ls, scope) == Eval(e, Either(u, v), ls, scope)
    ensures Reads(e, Not(Both(Not(u), Not(v))), ls, scope) == Reads(e, Either(u, v), ls, scope)
  {
    assert Formed(Not(u), ls) && Formed(Not(v), ls) && Formed(Both(Not(u), Not(v)), ls);
    assert Eval(e, Not(u), ls, scope) == Bool(!e.isTrue(Eval(e, u, ls, scope)));
    assert Eval(e, Not(v), ls, scope) == Bool(!e.isTrue(Eval(e, v, ls, scope)));
    assert Reads(e, Not(u), ls, scope) == Reads(e, u, ls, scope);
    assert Reads(e, Not(v), ls, scope) == Reads(e, v, ls, scope);
  }

  /** The same of evaluation: the second expression gives the same value and resolves nothing more. */
  method EvaluateOr(m: Memory, u: Ast, v: Ast, scope: Scope) returns (r: Value, s: Value, ghost after: Leaves)
    requires Logical(m.engine) && Formed(u, m.leaves) && Formed(v, m.leaves)
    modifies m
    ensures s == r && m.leaves == after
  {
    ghost var ls, e := m.leaves, m.engine;
    DeMorgan(e, u, v, ls, scope);
    r := m.Evaluate(Either(u, v), scope);
    after := m.leaves;
    ghost var at := Reads(e, Either(u, v), ls, scope);
    ResolvedMore(e, ls, scope, at, at);
    assert at + at == at;
    SameMeaning(e, Not(Both(Not(u), Not(v))), ls, after, Either(u, v), scope);
    SameReads(e, Not(Both(Not(u), Not(v))), ls, after, Either(u, v), scope);
    s := m.Evaluate(Not(Both(Not(u), Not(v))), scope);
  }

  /** The conditional: the chosen branch only, and the condition itself where no second operand is given. */
  method EvaluateSelect(m: Memory, u: Ast, v: Option<Ast>, w: Ast, scope: Scope)
    returns (r: Value, x: Value, y: Value, z: Value, ghost after: Leaves)
    requires Formed(u, m.leaves) && (v.Some? ==> Formed(v.value, m.leaves)) && Formed(w, m.leaves)
    modifies m
    ensures x == Eval(m.engine, u, old(m.leaves), scope) && z == Eval(m.engine, w, old(m.leaves), scope)
    ensures v.Some? ==> y == Eval(m.engine, v.value, old(m.leaves), scope)
    ensures r == if !m.engine.isTrue(x) then z else if v.None? then x else y
    ensures Spared(old(m.leaves), after, u, if !m.engine.isTrue(x) then w else if v.None? then u else v.value)
  {
    ghost var ls := m.leaves;
    r := m.Evaluate(Node(Select, [Some(u), v, Some(w)]), scope);
    after := m.leaves;
    ReadsWithin(m.engine, u, ls, scope);
    ReadsWithin(m.engine, w, ls, scope);
    if v.Some? { ReadsWithin(m.engine, v.value, ls, scope); }
    x := EvaluateLater(m, u, scope, ls);
    z := EvaluateLater(m, w, scope, ls);
    y := x;
    if v.Some? { y := EvaluateLater(m, v.value, scope, ls); }
  }

  /** The key, or the place, and the value of element `i` of an array literal. */
  ghost function Item(e: Engine, t: Ast, ls: Leaves, scope: Scope, i: nat): (Value, Value)
    requires t.Node? && t.kind == InitArray && 2 * i + 2 <= |t.children| && Formed(t, ls)
  {
    var k, v := t.children[2 * i], t.children[2 * i + 1];
    assert (2 * i + 1) % 2 == 1;
    (if k.None? then Long(i) else Eval(e, k.value, ls, scope), Eval(e, v.value, ls, scope))
  }

  /** The first elements of an array literal. */
  ghost predicate Listed(e: Engine, t: Ast, ls: Leaves, scope: Scope, items: seq<(Value, Value)>)
    requires t.Node? && t.kind == InitArray && 2 * |items| <= |t.children| && Formed(t, ls)
  {
    forall i :: 0 <= i < |items| ==> items[i] == Item(e, t, ls, scope, i)
  }

  lemma Appended(e: Engine, t: Ast, ls: Leaves, scope: Scope, items: seq<(Value, Value)>)
    requires Growing(e) && t.Node? && t.kind == InitArray && 2 * |items| + 2 <= |t.children| && Formed(t, ls)
    requires Elements(e, t, ls, scope, 2 * |items|) == Array(items)
    ensures Elements(e, t, ls, scope, 2 * |items| + 2) == Array(items + [Item(e, t, ls, scope, |items|)])
  {
    NextElement(e, t, ls, scope, 2 * |items|);
  }

  lemma ListedNext(e: Engine, t: Ast, ls: Leaves, scope: Scope, items: seq<(Value, Value)>)
    requires t.Node? && t.kind == InitArray && 2 * |items| + 2 <= |t.children| && Formed(t, ls)
    requires Listed(e, t, ls, scope, items)
    ensures Listed(e, t, ls, scope, items + [Item(e, t, ls, scope, |items|)])
  {
  }

  /** They are listed, and evaluation puts them into the array. */
  ghost predicate Collected(e: Engine, t: Ast, ls: Leaves, scope: Scope, items: seq<(Value, Value)>)
    requires t.Node? && t.kind == InitArray && 2 * |items| <= |t.children| && Formed(t, ls)
  {
    Elements(e, t, ls, scope, 2 * |items|) == Array(items) && Listed(e, t, ls, scope, items)
  }

  lemma CollectedNext(e: Engine, t: Ast, ls: Leaves, scope: Scope, items: seq<(Value, Value)>)
    requires Growing(e) && t.Node? && t.kind == InitArray && 2 * |items| + 2 <= |t.children| && Formed(t, ls)
    requires Collected(e, t, ls, scope, items)
    ensures Collected(e, t, ls, scope, items + [Item(e, t, ls, scope, |items|)])
  {
    Appended(e, t, ls, scope, items);
    ListedNext(e, t, ls, scope, items);
    assert 2 * |items + [Item(e, t, ls, scope, |items|)]| == 2 * |items| + 2;
  }

  /** An array literal: its keys, or the places of those it does not give, and its values, all in order. */
  method EvaluateItems(m: Memory, t: Ast, scope: Scope) returns (r: Value, items: seq<(Value, Value)>)
    requires Growing(m.engine) && t.Node? && t.kind == InitArray && Formed(t, m.leaves)
    modifies m
    ensures r == Array(items) && 2 * |items| == |t.children|
    ensures Listed(m.engine, t, old(m.leaves), scope, items)
  {
    ghost var ls := m.leaves;
    r := m.Evaluate(t, scope);
    items := [];
    while 2 * |items| < |t.children|
      invariant 2 * |items| <= |t.children| && Alike(m.engine, ls, m.leaves, scope)
      invariant Collected(m.engine, t, ls, scope, items)
    {
      var item := EvaluateItem(m, t, |items|, scope, ls);
      CollectedNext(m.engine, t, ls, scope, items);
      items := items + [item];
    }
  }

  /** The element at place `i`, its key first. */
  method EvaluateItem(m: Memory, t: Ast, i: nat, scope: Scope, ghost ls: Leaves) returns (item: (Value, Value))
    requires t.Node? && t.kind == InitArray && 2 * i + 2 <= |t.children| && Formed(t, ls)
    requires Alike(m.engine, ls, m.leaves, scope)
    modifies m
    ensures item == Item(m.engine, t, ls, scope, i) && Alike(m.engine, ls, m.leaves, scope)
  {
    var k, v := t.children[2 * i], t.children[2 * i + 1];
    assert (2 * i + 1) % 2 == 1;
    var key := Long(i);
    if k.Some? { key := EvaluateLater(m, k.value, scope, ls); }
    var value := EvaluateLater(m, v.value, scope, ls);
    item := (key, value);
  }

  /** Evaluating a compile-time constant changes nothing. */
  method EvaluateFixed(m: Memory, t: Ast, scope: Scope) returns (r: Value)
    requires Formed(t, m.leaves) && AllKnown(t, m.leaves)
    modifies m
    ensures m.leaves == old(m.leaves) && r == Eval(m.engine, t, m.leaves, scope)
  {
    r := m.Evaluate(t, scope);
    assert m.leaves == old(m.leaves);
  }

  /** The operators on constants `i` and `j` that are known already. */
  method EvaluateKnown(m: Memory, i: nat, j: nat, scope: Scope)
    returns (minus: Value, difference: Value, both: Value)
    requires Integral(m.engine) && i in m.leaves && j in m.leaves && m.leaves[i].Known? && m.leaves[j].Known?
    modifies m
    ensures m.leaves == old(m.leaves)
    ensures m.leaves[i].v.Long? ==> minus == Long(-m.leaves[i].v.n)
    ensures m.leaves[i].v.Long? && m.leaves[j].v.Long? ==> difference == Long(m.leaves[i].v.n - m.leaves[j].v.n)
    ensures both == Bool(m.engine.isTrue(m.leaves[i].v) && m.engine.isTrue(m.leaves[j].v))
  {
    minus := EvaluateFixed(m, Node(UnaryMinus, [Some(Const(i))]), scope);
    difference := EvaluateFixed(m, Node(Binary(Sub), [Some(Const(i)), Some(Const(j))]), scope);
    both := EvaluateFixed(m, Both(Const(i), Const(j)), scope);
  }

  /** `i ? j : k` and `i ?: k` of known constants. */
  method EvaluateKnownChoice(m: Memory, i: nat, j: nat, k: nat, scope: Scope) returns (r: Value, short: Value)
    requires {i, j, k} <= m.leaves.Keys && m.leaves[i].Known? && m.leaves[j].Known? && m.leaves[k].Known?
    modifies m
    ensures m.leaves == old(m.leaves)
    ensures r == if m.engine.isTrue(m.leaves[i].v) then m.leaves[j].v else m.leaves[k].v
    ensures short == if m.engine.isTrue(m.leaves[i].v) then m.leaves[i].v else m.leaves[k].v
  {
    r := EvaluateFixed(m, Node(Select, [Some(Const(i)), Some(Const(j)), Some(Const(k))]), scope);
    short := EvaluateFixed(m, Node(Select, [Some(Const(i)), None, Some(Const(k))]), scope);
  }

  /** `[i => j, k]` of known constants. */
  method EvaluateKnownItems(m: Memory, i: nat, j: nat, k: nat, scope: Scope) returns (r: Value)
    requires Growing(m.engine) && {i, j, k} <= m.leaves.Keys
    requires m.leaves[i].Known? && m.leaves[j].Known? && m.leaves[k].Known?
    modifies m
    ensures r == Array([(old(m.leaves)[i].v, old(m.leaves)[j].v), (Long(1), old(m.leaves)[k].v)])
  {
    var t := Node(InitArray, [Some(Const(i)), Some(Const(j)), None, Some(Const(k))]);
    var items;
    r, items := EvaluateItems(m, t, scope);
    assert items == [items[0], items[1]];
  }
}
