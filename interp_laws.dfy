/**
 * Properties of the evaluator: the node caches are only ever filled, so
 * evaluating an expression that invokes no function a second time gives the
 * same value and changes nothing (which is why each child is evaluated once
 * here where the interpreter evaluates some twice); the resolution protocol
 * for names and functions; a call's state is its body's; the assignment
 * forms' stores; and the control statements.
 */
module InterpLaws {
  import opened Wrappers
  import opened JavaLong
  import opened Saturation
  import opened Values
  import opened Syntax
  import opened Scope
  import Leds
  import opened Interp

  // ---------------------------------------------------------------------
  // Caches only grow

  lemma {:induction false} EvalExtends(st: State, x: Executor, e: Expr)
    requires WellCached(st.cache)
    ensures Eval(st, x, e).Ok? ==>
      Extends(st.cache, Eval(st, x, e).value.st.cache) && WellCached(Eval(st, x, e).value.st.cache)
    decreases e, 1
  {
    match e
    case IntLit(_, _) =>
    case BoolLit(_, _) =>
    case StrLit(_, _) =>
    case Deref(_, _) =>
    case Arith(_, _, _) => PairExtends(st, x, e);
    case Cmp(_, _, _) => PairExtends(st, x, e);
    case And(_, _) => PairExtends(st, x, e);
    case Or(_, _) => PairExtends(st, x, e);
    case Not(u) => EvalExtends(st, x, u);
    case Negate(u) => EvalExtends(st, x, u);
    case Identity(u) => EvalExtends(st, x, u);
    case Invoke(_, _, _) => InvokeExtends(st, x, e);
  }

  /** An invocation caches its function, then whatever its arguments and its body cache. */
  lemma {:induction false} InvokeExtends(st: State, x: Executor, e: Expr)
    requires e.Invoke? && WellCached(st.cache)
    ensures Eval(st, x, e).Ok? ==>
      Extends(st.cache, Eval(st, x, e).value.st.cache) && WellCached(Eval(st, x, e).value.st.cache)
    decreases e, 0
  {
    var f := ResolveFunction(st.display, st.cache, e.id, e.fn, true);
    if f.Ok? {
      var st0 := st.(cache := st.cache[e.id := FnC(f.value)]);
      assert Extends(st.cache, st0.cache) && WellCached(st0.cache);
      EvalArgsExtends(st0, x, e.args);
    }
  }

  /** The two operands of a binary expression, evaluated left then right. */
  lemma {:induction false} PairExtends(st: State, x: Executor, e: Expr)
    requires (e.Arith? || e.Cmp? || e.And? || e.Or?) && WellCached(st.cache)
    ensures EvalPair(st, x, e).Ok? ==>
      Extends(st.cache, EvalPair(st, x, e).value.2.cache) && WellCached(EvalPair(st, x, e).value.2.cache)
    decreases e, 0
  {
    EvalExtends(st, x, e.l);
    if Eval(st, x, e.l).Ok? {
      EvalExtends(Eval(st, x, e.l).value.st, x, e.r);
    }
  }

  lemma {:induction false} EvalArgsExtends(st: State, x: Executor, args: seq<Expr>)
    requires WellCached(st.cache)
    ensures EvalArgs(st, x, args).Ok? ==>
      Extends(st.cache, EvalArgs(st, x, args).value.1.cache) && WellCached(EvalArgs(st, x, args).value.1.cache)
    decreases args
  {
    if args != [] {
      EvalExtends(st, x, args[0]);
      var a := Eval(st, x, args[0]);
      if a.Ok? {
        EvalArgsExtends(a.value.st, x, args[1..]);
      }
    }
  }

  // ---------------------------------------------------------------------
  // Re-evaluation is stable

  /**
   * Whatever an evaluation of an expression that invokes no function cached,
   * evaluating it again from any cache that still holds those entries yields
   * the same value and adds nothing.
   */
  lemma {:induction false} EvalStable(st: State, x: Executor, e: Expr, c2: Cache)
    requires CallFree(e) && WellCached(st.cache) && Eval(st, x, e).Ok?
    requires Extends(Eval(st, x, e).value.st.cache, c2)
    ensures Eval(st.(cache := c2), x, e) == Ok(Evaluated(Eval(st, x, e).value.v, st.(cache := c2)))
    decreases e, 2
  {
    match e
    case IntLit(_, _) => LiteralStable(st, x, e, c2);
    case BoolLit(_, _) => ConstantStable(st, x, e, c2);
    case StrLit(_, _) => ConstantStable(st, x, e, c2);
    case Arith(_, _, _) => BinaryStable(st, x, e, c2);
    case Cmp(_, _, _) => BinaryStable(st, x, e, c2);
    case And(_, _) => BinaryStable(st, x, e, c2);
    case Or(_, _) => BinaryStable(st, x, e, c2);
    case Not(_) => UnaryStable(st, x, e, c2);
    case Negate(_) => UnaryStable(st, x, e, c2);
    case Identity(_) => UnaryStable(st, x, e, c2);
    case _ =>
  }

  lemma ConstantStable(st: State, x: Executor, e: Expr, c2: Cache)
    requires (e.BoolLit? || e.StrLit?) && WellCached(st.cache) && Eval(st, x, e).Ok?
    requires Extends(Eval(st, x, e).value.st.cache, c2)
    ensures Eval(st.(cache := c2), x, e) == Ok(Evaluated(Eval(st, x, e).value.v, st.(cache := c2)))
  {
    assert c2[e.id := c2[e.id]] == c2;
  }

  lemma {:induction false} UnaryStable(st: State, x: Executor, e: Expr, c2: Cache)
    requires (e.Not? || e.Negate? || e.Identity?) && CallFree(e) && WellCached(st.cache) && Eval(st, x, e).Ok?
    requires Extends(Eval(st, x, e).value.st.cache, c2)
    ensures Eval(st.(cache := c2), x, e) == Ok(Evaluated(Eval(st, x, e).value.v, st.(cache := c2)))
    decreases e, 1
  {
    EvalStable(st, x, e.e, c2);
  }

  lemma {:induction false} BinaryStable(st: State, x: Executor, e: Expr, c2: Cache)
    requires (e.Arith? || e.Cmp? || e.And? || e.Or?) && CallFree(e) && WellCached(st.cache) && Eval(st, x, e).Ok?
    requires Extends(Eval(st, x, e).value.st.cache, c2)
    ensures Eval(st.(cache := c2), x, e) == Ok(Evaluated(Eval(st, x, e).value.v, st.(cache := c2)))
    decreases e, 1
  {
    PairStable(st, x, e, c2);
  }

  lemma LiteralStable(st: State, x: Executor, e: Expr, c2: Cache)
    requires e.IntLit? && WellCached(st.cache) && Eval(st, x, e).Ok?
    requires Extends(Eval(st, x, e).value.st.cache, c2)
    ensures Eval(st.(cache := c2), x, e) == Ok(Evaluated(Eval(st, x, e).value.v, st.(cache := c2)))
  {
    var w := Eval(st, x, e).value.v.i;
    LiteralLaws(w);
    assert c2[e.id := ValC(Int(w))] == c2;
  }

  lemma {:induction false} PairStable(st: State, x: Executor, e: Expr, c2: Cache)
    requires (e.Arith? || e.Cmp? || e.And? || e.Or?) && CallFree(e) && WellCached(st.cache)
    requires EvalPair(st, x, e).Ok? && Extends(EvalPair(st, x, e).value.2.cache, c2)
    ensures EvalPair(st.(cache := c2), x, e) ==
      Ok((EvalPair(st, x, e).value.0, EvalPair(st, x, e).value.1, st.(cache := c2)))
    decreases e, 0
  {
    var a := Eval(st, x, e.l).value;
    EvalExtends(st, x, e.l);
    EvalExtends(a.st, x, e.r);
    EvalStable(st, x, e.l, c2);
    EvalStable(a.st, x, e.r, c2);
    assert a.st.(cache := c2) == st.(cache := c2);
  }

  /**
   * Evaluating an expression that invokes no function twice gives the same
   * value twice, and the second evaluation changes nothing.
   */
  lemma EvalIdempotent(st: State, x: Executor, e: Expr)
    requires CallFree(e) && WellCached(st.cache) && Eval(st, x, e).Ok?
    ensures Extends(st.cache, Eval(st, x, e).value.st.cache)
    ensures Eval(Eval(st, x, e).value.st, x, e) == Eval(st, x, e)
  {
    var a := Eval(st, x, e).value;
    EvalExtends(st, x, e);
    EvalStable(st, x, e, a.st.cache);
    assert st.(cache := a.st.cache) == a.st;
  }

  // ---------------------------------------------------------------------
  // Name and function resolution

  /** A dereference node that has resolved its reference no longer looks at its name or at the bindings, but reads the reference's current value. */
  lemma CachedDerefReadsCurrentValue(st: State, x: Executor, id: NodeId, name: string, r: Ref)
    requires id in st.cache && st.cache[id] == RefC(r)
    ensures r in st.display.heap ==> Eval(st, x, Deref(id, name)) == Ok(Evaluated(st.display.heap[r], st))
    ensures r !in st.display.heap ==> Eval(st, x, Deref(id, name)) == Err(NullPointer)
    ensures forall other: string, d2: Display :: d2.heap == st.display.heap ==>
      var again := Eval(st.(display := d2), x, Deref(id, other));
      (again.Ok? <==> r in st.display.heap) && (again.Ok? ==> again.value.v == st.display.heap[r])
  {
  }

  /**
   * A first dereference fails with an undefined-variable error exactly when
   * no level binds the name;
   * otherwise it reads the innermost binding, the current level's or else
   * that of the nearest outer level binding the name, and fixes it in the
   * node's cache.
   */
  lemma FirstDeref(st: State, x: Executor, id: NodeId, name: string)
    requires id !in st.cache
    ensures Eval(st, x, Deref(id, name)) == Err(VariableUndefined) <==>
      name !in st.display.current.vars && forall i :: 0 <= i < |st.display.outer| ==> name !in st.display.outer[i].vars
    ensures name in st.display.current.vars && st.display.current.vars[name] in st.display.heap ==>
      var r := st.display.current.vars[name];
      Eval(st, x, Deref(id, name)) == Ok(Evaluated(st.display.heap[r], st.(cache := st.cache[id := RefC(r)])))
    ensures forall i ::
      (0 <= i < |st.display.outer| && name !in st.display.current.vars && name in st.display.outer[i].vars &&
       (forall j :: i < j < |st.display.outer| ==> name !in st.display.outer[j].vars) &&
       st.display.outer[i].vars[name] in st.display.heap) ==>
        var r := st.display.outer[i].vars[name];
        Eval(st, x, Deref(id, name)) == Ok(Evaluated(st.display.heap[r], st.(cache := st.cache[id := RefC(r)])))
  {
  }

  /** A call or invocation node resolves its function once; afterwards the definition it holds is used whatever the scope then says. */
  lemma ResolveFunctionOnce(d: Display, c: Cache, id: NodeId, name: string, needsReturn: bool)
    ensures id in c && c[id].FnC? ==>
      forall d2: Display, n2: string, b2: bool :: ResolveFunction(d2, c, id, n2, b2) == Ok(c[id].f)
    ensures id !in c ==>
      (ResolveFunction(d, c, id, name, needsReturn) == Err(FunctionUndefined) <==> FindFunction(d, name).None?)
    ensures id !in c ==>
      (ResolveFunction(d, c, id, name, needsReturn) == Err(NoReturnValue) <==>
        needsReturn && FindFunction(d, name).Some? && !FindFunction(d, name).value.HasReturn())
  {
  }

  /**
   * Call node `s` run from `st` resolved `f` and cached it, evaluated its
   * argument expressions in order to `args`, matching the parameters in
   * number, and handed the body the state `st1`: the caller's
   * state with the caches extended, and nothing else changed when no argument
   * invokes a function; the call ended in the state the body left.
   */
  ghost predicate BodyRanFrom(st: State, s: Stmt, x: Executor, f: FnDef, args: seq<Value>, st1: State)
    requires s.Call?
  {
    && ResolveFunction(st.display, st.cache, s.id, s.fn, false) == Ok(f)
    && Extends(st.cache, st1.cache) && WellCached(st1.cache) && s.id in st1.cache && st1.cache[s.id] == FnC(f)
    && ((forall a | a in s.args :: CallFree(a)) ==> st1 == st.(cache := st1.cache))
    && EvalArgs(st.(cache := st.cache[s.id := FnC(f)]), x, s.args) == Ok((args, st1))
    && |args| == |f.params|
    && x(f, args, st1).Ok? && ExecCall(st, s, x) == Ok(x(f, args, st1).value.1)
  }

  /**
   * A call statement ends in exactly the state its function body leaves:
   * whatever the body assigns, updates, prints or saves is the call's effect.
   */
  lemma CallRunsBody(st: State, s: Stmt, x: Executor)
    requires s.Call? && WellCached(st.cache) && ExecCall(st, s, x).Ok?
    ensures exists f: FnDef, args: seq<Value>, st1: State :: BodyRanFrom(st, s, x, f, args, st1)
  {
    var f := ResolveFunction(st.display, st.cache, s.id, s.fn, false).value;
    var st0 := st.(cache := st.cache[s.id := FnC(f)]);
    assert Extends(st.cache, st0.cache) && WellCached(st0.cache);
    EvalArgsExtends(st0, x, s.args);
    var bound := EvalArgs(st0, x, s.args).value;
    assert s.id in st0.cache;
    assert BodyRanFrom(st, s, x, f, bound.0, bound.1);
  }

  /** When function bodies change nothing but caches, a call whose arguments invoke nothing changes nothing but caches. */
  lemma CallOfEffectFreeBody(st: State, s: Stmt, x: Executor)
    requires s.Call? && WellCached(st.cache) && ExecCall(st, s, x).Ok?
    requires forall a | a in s.args :: CallFree(a)
    requires forall f, args, st0 :: x(f, args, st0).Ok? ==> x(f, args, st0).value.1 == st0.(cache := x(f, args, st0).value.1.cache)
    ensures var st' := ExecCall(st, s, x).value;
      st' == st.(cache := st'.cache) && Extends(st.cache, st'.cache) && s.id in st'.cache && st'.cache[s.id].FnC?
  {
    CallRunsBody(st, s, x);
    var f, args, st1 :| BodyRanFrom(st, s, x, f, args, st1);
    assert Keeps(st1, x(f, args, st1).value.1);
  }

  // ---------------------------------------------------------------------
  // Function definitions

  /** A definition fails only when its node is new and its name is already defined at the current level; otherwise it is visible by name at level+1 and running the node again changes nothing. */
  lemma FnDeclOnce(st: State, s: Stmt)
    requires s.FnDecl?
    ensures ExecFnDecl(st, s).Err? <==> s.id !in st.cache && s.name in st.display.current.fns
    ensures ExecFnDecl(st, s).Err? ==> ExecFnDecl(st, s).error == FunctionExists
    ensures ExecFnDecl(st, s).Ok? ==> ExecFnDecl(ExecFnDecl(st, s).value, s) == ExecFnDecl(st, s)
    ensures s.id !in st.cache && ExecFnDecl(st, s).Ok? ==>
      FindFunction(ExecFnDecl(st, s).value.display, s.name) ==
        Some(FnDef(s.name, GetLevel(st.display) + 1, s.params, s.body, s.ret))
  {
  }

  // ---------------------------------------------------------------------
  // Assignment forms

  /** The range each assignment form stores: at least 1; at most 255 but for `=`; 1 for clear and 255 for fill. */
  predicate InRange(s: Stmt, w: Long)
    requires s.Assign? || s.Compound? || s.Flip? || s.Clear? || s.Fill?
  {
    LOW <= w && (!s.Assign? ==> w <= HIGH) && (s.Clear? ==> w == LOW) && (s.Fill? ==> w == HIGH)
  }

  /** Between `st` and `st'` no reference but `r` changed its value, and neither the store nor the outputs changed. */
  ghost predicate OnlyThrough(st: State, st': State, r: Ref)
  {
    && (forall q :: q in st.display.heap && q != r ==> q in st'.display.heap && st'.display.heap[q] == st.display.heap[q])
    && st'.leds == st.leds && st'.console == st.console && st'.files == st.files
  }

  /**
   * A run of assignment node `s` from `st` to `st'` stored `w` through `r`:
   * the node caches `r`, which holds `w`, in the form's range; `r` is the
   * reference the node had cached, or on a first run the one the name then
   * resolved to, or a fresh one; and when the operands invoke no function,
   * nothing else changed and a first run leaves the name resolving to `r`.
   */
  ghost predicate StoredThrough(st: State, st': State, s: Stmt, r: Ref, w: Long)
    requires s.Assign? || s.Compound? || s.Flip? || s.Clear? || s.Fill?
  {
    && s.id in st'.cache && st'.cache[s.id] == RefC(r)
    && r in st'.display.heap && st'.display.heap[r] == Int(w) && InRange(s, w)
    && (s.id in st.cache ==> st.cache[s.id] == RefC(r))
    && (s.id !in st.cache && FindReference(st.display, s.name).Some? ==> r == FindReference(st.display, s.name).value)
    && (s.id !in st.cache && FindReference(st.display, s.name).None? ==> r == st.display.next)
    && (OperandsCallFree(s) ==> OnlyThrough(st, st', r))
    && (OperandsCallFree(s) && s.id !in st.cache ==> FindReference(st'.display, s.name) == Some(r))
  }

  ghost predicate StoredAfter(st: State, st': State, s: Stmt)
    requires s.Assign? || s.Compound? || s.Flip? || s.Clear? || s.Fill?
  {
    exists r: Ref, w: Long :: StoredThrough(st, st', s, r, w)
  }

  /** The target of an assignment node: the reference it cached, or the name's, or a fresh one, now cached. */
  lemma TargetResolved(st: State, s: Stmt)
    requires s.Assign? || s.Compound? || s.Flip? || s.Clear? || s.Fill?
    requires WellCached(st.cache) && ResolveTarget(st.display, st.cache, s.id, s.name).Ok?
    ensures var t := ResolveTarget(st.display, st.cache, s.id, s.name).value;
      && Extends(st.cache, t.cache) && WellCached(t.cache) && s.id in t.cache && t.cache[s.id] == RefC(t.ref)
      && t.display.heap == st.display.heap
      && (s.id in st.cache ==> st.cache[s.id] == RefC(t.ref) && t.display == st.display)
      && (s.id !in st.cache && FindReference(st.display, s.name).Some? ==>
            t.ref == FindReference(st.display, s.name).value && t.display == st.display)
      && (s.id !in st.cache && FindReference(st.display, s.name).None? ==> t.ref == st.display.next)
      && (s.id !in st.cache ==> FindReference(t.display, s.name) == Some(t.ref))
  {
  }

  /**
   * Storing `w` through the resolved target from a state `sa` that extends
   * the target's caches (and, when the operands invoke no function, differs
   * from the resolved state only in them) is a store as `StoredThrough` says.
   */
  lemma StoreLands(st: State, s: Stmt, sa: State, w: Long)
    requires s.Assign? || s.Compound? || s.Flip? || s.Clear? || s.Fill?
    requires WellCached(st.cache) && ResolveTarget(st.display, st.cache, s.id, s.name).Ok?
    requires var t := ResolveTarget(st.display, st.cache, s.id, s.name).value;
      && Extends(t.cache, sa.cache) && InRange(s, w)
      && (OperandsCallFree(s) ==> sa == st.(display := t.display, cache := sa.cache))
    ensures var t := ResolveTarget(st.display, st.cache, s.id, s.name).value;
      StoredThrough(st, Interp.Store(sa, t.ref, w), s, t.ref, w)
  {
    TargetResolved(st, s);
  }

  /**
   * After any run of an assignment node, its reference holds an integer no
   * smaller than 1 (and no greater than 255 for every form but `=`) and the
   * node caches that reference; with operands that invoke no function, no
   * other reference changes and neither the LED store nor the outputs do.
   */
  lemma AssignmentStores(st: State, s: Stmt, x: Executor)
    requires s.Assign? || s.Compound? || s.Flip? || s.Clear? || s.Fill?
    requires WellCached(st.cache) && ExecAssign(st, s, x).Ok?
    ensures StoredAfter(st, ExecAssign(st, s, x).value, s)
  {
    match s
    case Assign(_, _, _) => AssignStores(st, s, x);
    case Compound(_, _, _, _, _) => CompoundStores(st, s, x);
    case Flip(_, _, _) => FlipStores(st, s, x);
    case Clear(_, _) => ConstantStores(st, s, x);
    case Fill(_, _) => ConstantStores(st, s, x);
  }

  lemma AssignStores(st: State, s: Stmt, x: Executor)
    requires s.Assign? && WellCached(st.cache) && ExecAssign(st, s, x).Ok?
    ensures StoredAfter(st, ExecAssign(st, s, x).value, s)
  {
    TargetResolved(st, s);
    var t := ResolveTarget(st.display, st.cache, s.id, s.name).value;
    var st1 := st.(display := t.display, cache := t.cache);
    EvalExtends(st1, x, s.rhs);
    var a := Eval(st1, x, s.rhs).value;
    var w := AssignStore(a.v.i);
    assert ExecAssign(st, s, x) == Ok(Interp.Store(a.st, t.ref, w));
    StoreLands(st, s, a.st, w);
  }

  lemma CompoundStores(st: State, s: Stmt, x: Executor)
    requires s.Compound? && WellCached(st.cache) && ExecAssign(st, s, x).Ok?
    ensures StoredAfter(st, ExecAssign(st, s, x).value, s)
  {
    TargetResolved(st, s);
    var t := ResolveTarget(st.display, st.cache, s.id, s.name).value;
    var st1 := st.(display := t.display, cache := t.cache);
    var a := Eval(st1, x, Deref(s.target, s.name)).value;
    EvalExtends(st1, x, Deref(s.target, s.name));
    EvalExtends(a.st, x, s.rhs);
    var b := Eval(a.st, x, s.rhs).value;
    CompoundClampsResult(s.op, a.v.i, b.v.i);
    var w := CompoundStore(s.op, a.v.i, b.v.i).value;
    assert ExecAssign(st, s, x) == Ok(Interp.Store(b.st, t.ref, w));
    StoreLands(st, s, b.st, w);
  }

  lemma FlipStores(st: State, s: Stmt, x: Executor)
    requires s.Flip? && WellCached(st.cache) && ExecAssign(st, s, x).Ok?
    ensures StoredAfter(st, ExecAssign(st, s, x).value, s)
  {
    TargetResolved(st, s);
    var t := ResolveTarget(st.display, st.cache, s.id, s.name).value;
    var st1 := st.(display := t.display, cache := t.cache);
    EvalExtends(st1, x, Deref(s.target, s.name));
    var a := Eval(st1, x, Deref(s.target, s.name)).value;
    var w := FlipStore(a.v.i);
    assert ExecAssign(st, s, x) == Ok(Interp.Store(a.st, t.ref, w));
    StoreLands(st, s, a.st, w);
  }

  lemma ConstantStores(st: State, s: Stmt, x: Executor)
    requires (s.Clear? || s.Fill?) && WellCached(st.cache) && ExecAssign(st, s, x).Ok?
    ensures StoredAfter(st, ExecAssign(st, s, x).value, s)
  {
    var t := ResolveTarget(st.display, st.cache, s.id, s.name).value;
    var st1 := st.(display := t.display, cache := t.cache);
    var w := if s.Clear? then CLEARED else FILLED;
    assert ExecAssign(st, s, x) == Ok(Interp.Store(st1, t.ref, w));
    StoreLands(st, s, st1, w);
  }

  /** On a later run the node stores through the reference it cached, whatever its name now resolves to. */
  lemma CachedTargetIgnoresScope(st: State, s: Stmt, x: Executor, r: Ref)
    requires s.Clear? || s.Fill?
    requires s.id in st.cache && st.cache[s.id] == RefC(r)
    ensures ExecAssign(st, s, x) ==
      Ok(st.(display := SetValue(st.display, r, Int(if s.Clear? then LOW else HIGH))))
  {
    assert st.(display := st.display, cache := st.cache) == st;
  }

  // ---------------------------------------------------------------------
  // Control statements

  /**
   * An `if` whose test is not Boolean fails; a true test runs the then
   * branch and a false one the else branch if there is one, each from the
   * state the test left; with a false test and no else branch that state is
   * the result.
   */
  lemma IfTest(st: State, s: Stmt, x: Executor, fuel: nat)
    requires s.If? && Leds.Valid(st.leds)
    requires Eval(st, x, s.test).Ok?
    ensures var t := Eval(st, x, s.test).value;
      && (!t.v.Bool? ==> Exec(st, s, x, fuel) == Err(NotBoolean))
      && (t.v == Bool(true) ==> Exec(st, s, x, fuel) == Exec(t.st, s.thenS, x, fuel))
      && (t.v == Bool(false) && s.elseS.Some? ==> Exec(st, s, x, fuel) == Exec(t.st, s.elseS.value, x, fuel))
      && (t.v == Bool(false) && s.elseS.None? ==> Exec(st, s, x, fuel) == Ok(t.st))
  {
  }

  /** A for loop whose test is not Boolean, on its first turn or any later one, fails. */
  lemma ForTestNotBoolean(st: State, s: Stmt, x: Executor, fuel: nat)
    requires s.For? && Leds.Valid(st.leds)
    requires Eval(st, x, s.test).Ok? && !Eval(st, x, s.test).value.v.Bool?
    ensures Loop(st, s, x, fuel) == Err(NotBoolean)
    ensures Exec(st, s.init, x, fuel) == Ok(st) ==> Exec(st, s, x, fuel) == Err(NotBoolean)
  {
  }

  /**
   * `delay e` evaluates `e` and sleeps: a non-integer fails the cast, and a
   * duration whose milliseconds are negative, whether the seconds are or the
   * product wrapped, is the sleep's IllegalArgumentException; otherwise the
   * state is the one the operand left, only the caches changed when it
   * invokes nothing.
   */
  lemma DelayRuns(st: State, s: Stmt, x: Executor, fuel: nat)
    requires s.Delay? && Leds.Valid(st.leds) && Eval(st, x, s.seconds).Ok?
    ensures var a := Eval(st, x, s.seconds).value;
      && (!a.v.Int? ==> Exec(st, s, x, fuel) == Err(TypeMismatch))
      && (a.v.Int? && 0 <= a.v.i * 1000 <= MAX ==> Exec(st, s, x, fuel) == Ok(a.st))
      && (a.v.Int? && MIN <= a.v.i * 1000 < 0 ==> Exec(st, s, x, fuel) == Err(IllegalArgument))
      && (a.v.Int? && a.v.i * 1000 > MAX ==> Exec(st, s, x, fuel).Ok? == (SleepMillis(a.v.i) >= 0))
    ensures CallFree(s.seconds) && Exec(st, s, x, fuel).Ok? ==>
      Exec(st, s, x, fuel).value == st.(cache := Exec(st, s, x, fuel).value.cache)
  {
  }

  /** A delay of 9223372036854776 seconds fails: its milliseconds wrap to a negative `long`. */
  lemma HugeDelayFails(st: State, s: Stmt, x: Executor, fuel: nat)
    requires s.Delay? && Leds.Valid(st.leds)
    requires Eval(st, x, s.seconds).Ok? && Eval(st, x, s.seconds).value.v == Int(9_223_372_036_854_776)
    ensures Exec(st, s, x, fuel) == Err(IllegalArgument)
  {
    SleepMillisWraps();
  }

  /** Once a for loop's test is false, the loop ends in the state the test left, having run neither its body nor its increment. */
  lemma LoopStopsOnFalse(st: State, s: Stmt, x: Executor, fuel: nat)
    requires s.For? && Leds.Valid(st.leds)
    requires Eval(st, x, s.test).Ok? && Eval(st, x, s.test).value.v == Bool(false)
    ensures Loop(st, s, x, fuel) == Ok(Eval(st, x, s.test).value.st)
  {
  }

  /** A turn of the loop whose test is true: out of fuel at zero, else one iteration and then the loop with one unit of fuel less. */
  lemma LoopTurn(st: State, s: Stmt, x: Executor, fuel: nat)
    requires s.For? && Leds.Valid(st.leds)
    requires Eval(st, x, s.test).Ok? && Eval(st, x, s.test).value.v == Bool(true)
    ensures fuel == 0 ==> Loop(st, s, x, fuel) == Err(OutOfFuel)
    ensures fuel > 0 ==>
      var r := Iteration(Eval(st, x, s.test).value.st, s, x, fuel);
      Loop(st, s, x, fuel) == if r.Ok? then Loop(r.value, s, x, fuel - 1) else r
  {
  }

  // ---------------------------------------------------------------------
  // Whole programs

  /** From an empty scope with no caches, `x = 250; x += 20;` leaves 255 in `x`: the clamp applies to the sum, not to the operands. */
  lemma AddAssignSaturates(st: State, x: Executor) returns (final: State)
    requires st.display == Scope.Empty() && st.cache == map[] && Leds.Valid(st.leds)
    ensures Exec(st, Block([Assign(0, "x", IntLit(1, "250")), Compound(2, AddTo, 3, "x", IntLit(4, "20"))]), x, 0) == Ok(final)
    ensures FindReference(final.display, "x") == Some(0) && 0 in final.display.heap && final.display.heap[0] == Int(255)
  {
    var st1 := AssignsTwoFifty(st, x);
    final := AddsTwenty(st1, x);
    RunsInSequence(st, st1, final, Assign(0, "x", IntLit(1, "250")), Compound(2, AddTo, 3, "x", IntLit(4, "20")), x);
    BlockRunsInOrder(st, [Assign(0, "x", IntLit(1, "250")), Compound(2, AddTo, 3, "x", IntLit(4, "20"))], x, 0);
  }

  lemma BlockRunsInOrder(st: State, ss: seq<Stmt>, x: Executor, fuel: nat)
    requires Leds.Valid(st.leds)
    ensures Exec(st, Block(ss), x, fuel) == ExecSeq(st, ss, x, fuel)
  {
  }

  lemma RunsInSequence(st0: State, st1: State, st2: State, a: Stmt, b: Stmt, x: Executor)
    requires Leds.Valid(st0.leds) && Leds.Valid(st1.leds) && Leds.Valid(st2.leds)
    requires Exec(st0, a, x, 0) == Ok(st1) && Exec(st1, b, x, 0) == Ok(st2)
    ensures ExecSeq(st0, [a, b], x, 0) == Ok(st2)
  {
    assert [a, b][1..] == [b];
    assert [b][1..] == [];
    assert ExecSeq(st2, [], x, 0) == Ok(st2);
    assert ExecSeq(st1, [b], x, 0) == Ok(st2);
  }

  lemma AssignsTwoFifty(st0: State, x: Executor) returns (st1: State)
    requires st0.display == Scope.Empty() && st0.cache == map[] && Leds.Valid(st0.leds)
    ensures Exec(st0, Assign(0, "x", IntLit(1, "250")), x, 0) == Ok(st1)
    ensures st1.display == Scope.Empty().(current := Level(map["x" := 0], map[]), heap := map[0 := Int(250)], next := 1)
    ensures st1.cache == map[0 := RefC(0), 1 := ValC(Int(250))] && Leds.Valid(st1.leds)
  {
    assert ParseNat("25") == 25 by { assert "25"[..1] == "2"; }
    assert ParseNat("250") == 250 by { assert "250"[..2] == "25"; }
    assert ParseLong("250") == Some(250);
    st1 := st0.(display := Scope.Empty().(current := Level(map["x" := 0], map[]), heap := map[0 := Int(250)], next := 1),
      cache := map[0 := RefC(0), 1 := ValC(Int(250))]);
  }

  lemma AddsTwenty(st1: State, x: Executor) returns (st2: State)
    requires st1.display == Scope.Empty().(current := Level(map["x" := 0], map[]), heap := map[0 := Int(250)], next := 1)
    requires st1.cache == map[0 := RefC(0), 1 := ValC(Int(250))] && Leds.Valid(st1.leds)
    ensures Exec(st1, Compound(2, AddTo, 3, "x", IntLit(4, "20")), x, 0) == Ok(st2)
    ensures FindReference(st2.display, "x") == Some(0) && 0 in st2.display.heap && st2.display.heap[0] == Int(255)
    ensures Leds.Valid(st2.leds)
  {
    AddsTwentyStores(st1, x);
    st2 := Interp.Store(st1.(cache := st1.cache[2 := RefC(0)][3 := RefC(0)][4 := ValC(Int(20))]), 0, 255);
  }

  /** The run of `x += 20` from the state `x = 250` left: it stores 255 through the reference of `x`. */
  lemma AddsTwentyStores(st1: State, x: Executor)
    requires st1.display == Scope.Empty().(current := Level(map["x" := 0], map[]), heap := map[0 := Int(250)], next := 1)
    requires st1.cache == map[0 := RefC(0), 1 := ValC(Int(250))]
    ensures ExecAssign(st1, Compound(2, AddTo, 3, "x", IntLit(4, "20")), x) ==
      Ok(Interp.Store(st1.(cache := st1.cache[2 := RefC(0)][3 := RefC(0)][4 := ValC(Int(20))]), 0, 255))
  {
    assert ParseNat("20") == 20 by { assert "20"[..1] == "2"; }
    assert ParseLong("20") == Some(20);
    assert CompoundStore(AddTo, 250, 20) == Some(255);
    var c2 := st1.cache[2 := RefC(0)];
    assert FindReference(st1.display, "x") == Some(0);
    assert ResolveTarget(st1.display, st1.cache, 2, "x") == Ok(Target(st1.display, c2, 0));
    var c3 := c2[3 := RefC(0)];
    assert Eval(st1.(cache := c2), x, Deref(3, "x")) == Ok(Evaluated(Int(250), st1.(cache := c3)));
    assert Eval(st1.(cache := c3), x, IntLit(4, "20")) == Ok(Evaluated(Int(20), st1.(cache := c3[4 := ValC(Int(20))])));
  }

  /** `for (i = 1; i < 1; i += 1) body` runs its initialisation and test once and its body and increment never. */
  lemma ForZeroIterations(st: State, body: Stmt, x: Executor, fuel: nat) returns (final: State)
    requires Leds.Valid(st.leds) && Scope.Valid(st.display) && st.cache == map[]
    ensures Exec(st, For(Assign(0, "i", IntLit(1, "1")), Cmp(Lt, Deref(2, "i"), IntLit(3, "1")),
                         Compound(4, AddTo, 5, "i", IntLit(6, "1")), body), x, fuel) == Ok(final)
    ensures final.leds == st.leds && final.console == st.console && final.files == st.files
    ensures FindReference(final.display, "i").Some?
    ensures FindReference(final.display, "i").value in final.display.heap
    ensures final.display.heap[FindReference(final.display, "i").value] == Int(1)
    ensures final.cache.Keys == {0, 1, 2, 3}
  {
    var init := Assign(0, "i", IntLit(1, "1"));
    var test := Cmp(Lt, Deref(2, "i"), IntLit(3, "1"));
    var incr := Compound(4, AddTo, 5, "i", IntLit(6, "1"));
    var s := For(init, test, incr, body);
    var st1, ref := InitialisesI(st, x, fuel);
    var c := TestIsFalse(st1, x, ref);
    assert Exec(st, s, x, fuel) == Loop(st1, s, x, fuel);
    LoopStopsOnFalse(st1, s, x, fuel);
    final := st1.(cache := c);
  }

  lemma InitialisesI(st: State, x: Executor, fuel: nat) returns (st1: State, ref: Ref)
    requires Leds.Valid(st.leds) && Scope.Valid(st.display) && st.cache == map[]
    ensures Exec(st, Assign(0, "i", IntLit(1, "1")), x, fuel) == Ok(st1)
    ensures FindReference(st1.display, "i") == Some(ref) && ref in st1.display.heap && st1.display.heap[ref] == Int(1)
    ensures st1.cache.Keys == {0, 1} && Leds.Valid(st1.leds)
    ensures st1.leds == st.leds && st1.console == st.console && st1.files == st.files
  {
    assert ParseLong("1") == Some(1);
    var t := ResolveTarget(st.display, st.cache, 0, "i").value;
    if FindReference(st.display, "i").None? {
      DefineThenFind(st.display, "i");
    }
    var st0 := st.(display := t.display, cache := t.cache);
    var one := Eval(st0, x, IntLit(1, "1"));
    assert one == Ok(Evaluated(Int(1), st0.(cache := t.cache[1 := ValC(Int(1))])));
    st1 := Interp.Store(one.value.st, t.ref, 1);
    ref := t.ref;
  }

  lemma TestIsFalse(st1: State, x: Executor, ref: Ref) returns (c: Cache)
    requires FindReference(st1.display, "i") == Some(ref) && ref in st1.display.heap && st1.display.heap[ref] == Int(1)
    requires st1.cache.Keys == {0, 1}
    ensures Eval(st1, x, Cmp(Lt, Deref(2, "i"), IntLit(3, "1"))) == Ok(Evaluated(Bool(false), st1.(cache := c)))
    ensures c.Keys == {0, 1, 2, 3}
  {
    assert ParseLong("1") == Some(1);
    c := st1.cache[2 := RefC(ref)][3 := ValC(Int(1))];
  }
}
