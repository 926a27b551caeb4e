/**
 * The evaluator as functions: what each visitor of the interpreter computes,
 * over a state made of the scope display, the per-node resolution caches,
 * the LED store and the two output sinks. Running a function body is the
 * display's business and is not part of this model: it is a parameter
 * (`Executor`) that takes the state at the invocation and yields the
 * invocation's value and the state the body leaves, or its exception.
 */
module Interp {
  import opened Wrappers
  import opened JavaLong
  import opened Saturation
  import opened Values
  import opened Syntax
  import opened Scope
  import Leds

  /** What a node's `optimised` field holds once set: a reference, a function definition or a literal's value. */
  datatype Cached = RefC(r: Ref) | FnC(f: FnDef) | ValC(v: Value)

  /** The `optimised` fields of all node instances, by node identity; a missing key is a field still null. */
  type Cache = map<NodeId, Cached>

  /** `c2` keeps every entry of `c1`. */
  ghost predicate Extends(c1: Cache, c2: Cache)
  {
    forall k :: k in c1 ==> k in c2 && c2[k] == c1[k]
  }

  /**
   * An integer literal's node only ever caches a value of at most 255: the
   * parsed value is replaced by 255 before anything reads it.
   */
  ghost predicate WellCached(c: Cache)
  {
    forall k :: k in c && c[k].ValC? && c[k].v.Int? ==> c[k].v.i <= HIGH
  }

  /**
   * What every run of this visitor keeps, and so what a function body run
   * through it keeps: the store's ten arrays of 1000 slots, and caches that
   * are only ever filled, a literal's with a value of at most 255.
   */
  ghost predicate Keeps(st: State, st': State)
  {
    && (Leds.Valid(st.leds) ==> Leds.Valid(st'.leds))
    && (WellCached(st.cache) ==> Extends(st.cache, st'.cache) && WellCached(st'.cache))
  }

  ghost predicate Conforms(x: (FnDef, seq<Value>, State) -> Result<(Value, State), Error>)
  {
    forall f, args, st :: x(f, args, st).Ok? ==> Keeps(st, x(f, args, st).value.1)
  }

  /**
   * `Display.execute` applied to a definition, its bound arguments and the
   * state at the invocation. The body runs through this same visitor, so it
   * may assign variables, change the store and print or save; it yields the
   * invocation's value and the state it leaves.
   */
  type Executor = x: (FnDef, seq<Value>, State) -> Result<(Value, State), Error> | Conforms(x)
    witness (f: FnDef, args: seq<Value>, st: State) => Err(NullPointer)

  /** The console lines printed so far and the files written, by file name. */
  datatype State = State(display: Display, cache: Cache, leds: Leds.Store, console: seq<string>, files: map<string, seq<string>>)

  datatype Evaluated = Evaluated(v: Value, st: State)

  datatype Target = Target(display: Display, cache: Cache, ref: Ref)

  /** The expression invokes no function, so evaluating it runs no function body. */
  predicate CallFree(e: Expr)
  {
    match e
    case Arith(_, l, r) => CallFree(l) && CallFree(r)
    case Cmp(_, l, r) => CallFree(l) && CallFree(r)
    case And(l, r) => CallFree(l) && CallFree(r)
    case Or(l, r) => CallFree(l) && CallFree(r)
    case Not(u) => CallFree(u)
    case Negate(u) => CallFree(u)
    case Identity(u) => CallFree(u)
    case Invoke(_, _, _) => false
    case _ => true
  }

  /** A reference's current value; a reference without one is a Java null. */
  function Read(st: State, r: Ref): Result<Evaluated, Error>
  {
    if r in st.display.heap then Ok(Evaluated(st.display.heap[r], st)) else Err(NullPointer)
  }

  /** The function a call or invocation node denotes: its cached definition, or the result of a fresh search. */
  function ResolveFunction(d: Display, c: Cache, id: NodeId, name: string, needsReturn: bool): Result<FnDef, Error>
  {
    if id in c then
      match c[id]
      case FnC(f) => Ok(f)
      case _ => Err(ClassCast)
    else
      match FindFunction(d, name)
      case None => Err(FunctionUndefined)
      case Some(f) => if needsReturn && !f.HasReturn() then Err(NoReturnValue) else Ok(f)
  }

  /**
   * Expression evaluation. An expression that invokes no function changes
   * only the caches; an invocation leaves the state its body leaves.
   */
  function Eval(st: State, x: Executor, e: Expr): (r: Result<Evaluated, Error>)
    ensures r.Ok? && CallFree(e) ==> r.value.st == st.(cache := r.value.st.cache)
    ensures r.Ok? && Leds.Valid(st.leds) ==> Leds.Valid(r.value.st.leds)
    decreases e, 1
  {
    match e
    case IntLit(id, token) =>
      var c := st.cache;
      var parsed :-
        if id in c then
          (match c[id]
           case ValC(Int(v)) => Ok(v)
           case _ => Err(ClassCast))
        else
          (match ParseLong(token)
           case None => Err(NumberFormat)
           case Some(v) => Ok(v));
      // the node's cache is overwritten only when the value is capped
      var w := Literal(parsed);
      Ok(Evaluated(Int(w), st.(cache := if id in c && w == parsed then c else c[id := ValC(Int(w))])))
    case BoolLit(id, b) => Constant(st, id, Bool(b))
    case StrLit(id, t) => Constant(st, id, Str(t))
    case Deref(id, name) =>
      if id in st.cache then
        (match st.cache[id]
         case RefC(r) => Read(st, r)
         case _ => Err(ClassCast))
      else
        (match FindReference(st.display, name)
         case None => Err(VariableUndefined)
         case Some(r) => Read(st.(cache := st.cache[id := RefC(r)]), r))
    case Arith(op, _, _) =>
      var p :- EvalPair(st, x, e);
      if !p.0.Int? || !p.1.Int? then Err(TypeMismatch)
      else
        (match Operator(op, p.0.i, p.1.i)
         case None => Err(DivideByZero)
         case Some(v) => Ok(Evaluated(Int(v), p.2)))
    case Cmp(op, _, _) =>
      var p :- EvalPair(st, x, e);
      var v :- Compare(op, p.0, p.1);
      Ok(Evaluated(v, p.2))
    case And(_, _) =>
      var p :- EvalPair(st, x, e);
      if p.0.Bool? && p.1.Bool? then Ok(Evaluated(Bool(p.0.b && p.1.b), p.2)) else Err(TypeMismatch)
    case Or(_, _) =>
      var p :- EvalPair(st, x, e);
      if p.0.Bool? && p.1.Bool? then Ok(Evaluated(Bool(p.0.b || p.1.b), p.2)) else Err(TypeMismatch)
    case Not(u) =>
      var a :- Eval(st, x, u);
      if a.v.Bool? then Ok(Evaluated(Bool(!a.v.b), a.st)) else Err(TypeMismatch)
    case Negate(u) =>
      var a :- Eval(st, x, u);
      if a.v.Int? then Ok(Evaluated(Int(Neg(a.v.i)), a.st)) else Err(TypeMismatch)
    case Identity(u) =>
      var a :- Eval(st, x, u);
      if a.v.Int? then Ok(a) else Err(TypeMismatch)
    case Invoke(id, name, args) =>
      var f :- ResolveFunction(st.display, st.cache, id, name, true);
      var bound :- EvalArgs(st.(cache := st.cache[id := FnC(f)]), x, args);
      if |bound.0| != |f.params| then Err(ArityMismatch)
      else
        var res :- x(f, bound.0, bound.1);
        Ok(Evaluated(res.0, res.1))
  }

  /** The two operands of a binary node, the left one first, with the state after both. */
  function EvalPair(st: State, x: Executor, e: Expr): (r: Result<(Value, Value, State), Error>)
    requires e.Arith? || e.Cmp? || e.And? || e.Or?
    ensures r.Ok? && CallFree(e) ==> r.value.2 == st.(cache := r.value.2.cache)
    ensures r.Ok? && Leds.Valid(st.leds) ==> Leds.Valid(r.value.2.leds)
    decreases e, 0
  {
    var a :- Eval(st, x, e.l);
    var b :- Eval(a.st, x, e.r);
    Ok((a.v, b.v, b.st))
  }

  /** A literal node that caches its value on first evaluation. */
  function Constant(st: State, id: NodeId, v: Value): (r: Result<Evaluated, Error>)
    ensures r.Ok? ==> r.value.st == st.(cache := r.value.st.cache)
  {
    if id in st.cache then
      match st.cache[id]
      case ValC(w) => Ok(Evaluated(w, st))
      case _ => Err(ClassCast)
    else Ok(Evaluated(v, st.(cache := st.cache[id := ValC(v)])))
  }

  /** An argument list, evaluated left to right; the count is checked against the parameters afterwards. */
  function EvalArgs(st: State, x: Executor, args: seq<Expr>): (r: Result<(seq<Value>, State), Error>)
    ensures r.Ok? && (forall a | a in args :: CallFree(a)) ==> r.value.1 == st.(cache := r.value.1.cache)
    ensures r.Ok? && Leds.Valid(st.leds) ==> Leds.Valid(r.value.1.leds)
    decreases args, 2
  {
    if args == [] then Ok(([], st))
    else
      var a :- Eval(st, x, args[0]);
      var rest :- EvalArgs(a.st, x, args[1..]);
      Ok(([a.v] + rest.0, rest.1))
  }

  /** The reference an assignment node denotes: cached, found, or newly defined in the innermost level. */
  function ResolveTarget(d: Display, c: Cache, id: NodeId, name: string): Result<Target, Error>
  {
    if id in c then
      match c[id]
      case RefC(r) => Ok(Target(d, c, r))
      case _ => Err(ClassCast)
    else
      match FindReference(d, name)
      case Some(r) => Ok(Target(d, c[id := RefC(r)], r))
      case None =>
        var (d', r) := DefineVariable(d, name);
        Ok(Target(d', c[id := RefC(r)], r))
  }

  /** Store `v` through the reference `r`. */
  function Store(st: State, r: Ref, v: Long): State
  {
    st.(display := SetValue(st.display, r, Int(v)))
  }

  /** The operands an assignment form evaluates invoke no function. */
  predicate OperandsCallFree(s: Stmt)
    requires s.Assign? || s.Compound? || s.Flip? || s.Clear? || s.Fill?
  {
    match s
    case Assign(_, _, rhs) => CallFree(rhs)
    case Compound(_, _, _, _, rhs) => CallFree(rhs)
    case _ => true
  }

  /**
   * The assignment forms: the target is resolved before the operands are
   * evaluated, and the clamped value is stored through it.
   */
  function ExecAssign(st: State, s: Stmt, x: Executor): (r: Result<State, Error>)
    requires s.Assign? || s.Compound? || s.Flip? || s.Clear? || s.Fill?
    ensures r.Ok? && OperandsCallFree(s) ==> r.value.leds == st.leds && r.value.console == st.console && r.value.files == st.files
    ensures r.Ok? && Leds.Valid(st.leds) ==> Leds.Valid(r.value.leds)
  {
    var t :- ResolveTarget(st.display, st.cache, s.id, s.name);
    var st1 := st.(display := t.display, cache := t.cache);
    match s
    case Assign(_, _, rhs) =>
      var a :- Eval(st1, x, rhs);
      if !a.v.Int? then Err(ClassCast) else Ok(Store(a.st, t.ref, AssignStore(a.v.i)))
    case Compound(_, op, target, name, rhs) =>
      var a :- Eval(st1, x, Deref(target, name));
      var b :- Eval(a.st, x, rhs);
      if !a.v.Int? || !b.v.Int? then Err(TypeMismatch)
      else
        (match CompoundStore(op, a.v.i, b.v.i)
         case None => Err(DivideByZero)
         case Some(v) => Ok(Store(b.st, t.ref, v)))
    case Flip(_, target, name) =>
      var a :- Eval(st1, x, Deref(target, name));
      if !a.v.Int? then Err(TypeMismatch) else Ok(Store(a.st, t.ref, FlipStore(a.v.i)))
    case Clear(_, _) => Ok(Store(st1, t.ref, CLEARED))
    case Fill(_, _) => Ok(Store(st1, t.ref, FILLED))
  }

  /** Function definition: once per node; a name already defined at the current level is an error. */
  function ExecFnDecl(st: State, s: Stmt): (r: Result<State, Error>)
    requires s.FnDecl?
    ensures r.Ok? ==> r.value.leds == st.leds && r.value.console == st.console && r.value.files == st.files
  {
    if s.id in st.cache then Ok(st)
    else if FindFunctionInCurrentLevel(st.display, s.name).Some? then Err(FunctionExists)
    else
      var f := FnDef(s.name, GetLevel(st.display) + 1, s.params, s.body, s.ret);
      Ok(st.(display := AddFunction(st.display, f), cache := st.cache[s.id := FnC(f)]))
  }

  /** A call statement: resolve once, evaluate the arguments, execute; the value is discarded. */
  function ExecCall(st: State, s: Stmt, x: Executor): (r: Result<State, Error>)
    requires s.Call?
    ensures r.Ok? && Leds.Valid(st.leds) ==> Leds.Valid(r.value.leds)
  {
    var f :- ResolveFunction(st.display, st.cache, s.id, s.fn, false);
    var bound :- EvalArgs(st.(cache := st.cache[s.id := FnC(f)]), x, s.args);
    if |bound.0| != |f.params| then Err(ArityMismatch)
    else
      var res :- x(f, bound.0, bound.1);
      Ok(res.1)
  }

  /** The statements on the LED store. */
  function ExecLeds(st: State, s: Stmt, x: Executor): (r: Result<State, Error>)
    requires s.Leds? || s.Update? || s.Write? || s.Info? || s.Save?
    requires Leds.Valid(st.leds)
    ensures r.Ok? ==> Leds.Valid(r.value.leds)
  {
    match s
    case Leds(size, arr) =>
      var n :- Eval(st, x, size);
      if !n.v.Int? then Err(ClassCast)
      else
        // the name is evaluated only when a free position is found
        var named :-
          if Leds.FirstFree(n.st.leds.lednums).Some? then
            (var a :- Eval(n.st, x, arr); Ok((StringValue(a.v), a.st)))
          else Ok(("", n.st));
        var leds :- Leds.Declare(named.1.leds, ToInt(n.v.i), named.0);
        Ok(named.1.(leds := leds))
    case Update(red, green, blue, index, arr) =>
      var a :- Eval(st, x, arr);
      var name := StringValue(a.v);
      if Leds.Find(a.st.leds, name).Err? then Err(NullPointer)
      else
        var i :- Eval(a.st, x, index);
        if !i.v.Int? then Err(ClassCast)
        else
          var rv :- Eval(i.st, x, red);
          var gv :- Eval(rv.st, x, green);
          var bv :- Eval(gv.st, x, blue);
          if !rv.v.Int? || !gv.v.Int? || !bv.v.Int? then Err(TypeMismatch)
          else
            var leds :- Leds.Update(bv.st.leds, name, ToInt(i.v.i), rv.v.i, gv.v.i, bv.v.i);
            Ok(bv.st.(leds := leds))
    case Write(arr) =>
      var a :- Eval(st, x, arr);
      var lines :- Leds.WriteLines(a.st.leds, StringValue(a.v));
      Ok(a.st.(console := a.st.console + lines))
    case Info(arr) =>
      var a :- Eval(st, x, arr);
      var lines :- Leds.InfoLines(a.st.leds, StringValue(a.v));
      Ok(a.st.(console := a.st.console + lines))
    case Save(arr) =>
      var a :- Eval(st, x, arr);
      var name := StringValue(a.v);
      var lines :- Leds.SaveLines(a.st.leds, name);
      Ok(a.st.(files := a.st.files[name + ".txt" := lines]))
  }

  /**
   * Statement execution. `fuel` bounds the number of iterations any one for
   * loop may run; reaching it is `OutOfFuel`, which the source does not have.
   */
  function Exec(st: State, s: Stmt, x: Executor, fuel: nat): (r: Result<State, Error>)
    requires Leds.Valid(st.leds)
    ensures r.Ok? ==> Leds.Valid(r.value.leds)
    decreases fuel, s, 2
  {
    match s
    case Assign(_, _, _) => ExecAssign(st, s, x)
    case Compound(_, _, _, _, _) => ExecAssign(st, s, x)
    case Flip(_, _, _) => ExecAssign(st, s, x)
    case Clear(_, _) => ExecAssign(st, s, x)
    case Fill(_, _) => ExecAssign(st, s, x)
    case If(test, thenS, elseS) =>
      var t :- Eval(st, x, test);
      if !t.v.Bool? then Err(NotBoolean)
      else if t.v.b then Exec(t.st, thenS, x, fuel)
      else if elseS.Some? then Exec(t.st, elseS.value, x, fuel)
      else Ok(t.st)
    case For(init, _, _, _) =>
      var st1 :- Exec(st, init, x, fuel);
      Loop(st1, s, x, fuel)
    case Block(stmts) => ExecSeq(st, stmts, x, fuel)
    case FnDecl(_, _, _, _, _) => ExecFnDecl(st, s)
    case Call(_, _, _) => ExecCall(st, s, x)
    case Leds(_, _) => ExecLeds(st, s, x)
    case Update(_, _, _, _, _) => ExecLeds(st, s, x)
    case Write(_) => ExecLeds(st, s, x)
    case Info(_) => ExecLeds(st, s, x)
    case Save(_) => ExecLeds(st, s, x)
    case Delay(e) =>
      var a :- Eval(st, x, e);
      if !a.v.Int? then Err(TypeMismatch)
      else if SleepMillis(a.v.i) < 0 then Err(IllegalArgument)
      else Ok(a.st)
  }

  /** Children in order; the first exception ends the run. */
  function ExecSeq(st: State, stmts: seq<Stmt>, x: Executor, fuel: nat): (r: Result<State, Error>)
    requires Leds.Valid(st.leds)
    ensures r.Ok? ==> Leds.Valid(r.value.leds)
    decreases fuel, stmts, 0
  {
    if stmts == [] then Ok(st)
    else
      var st1 :- Exec(st, stmts[0], x, fuel);
      ExecSeq(st1, stmts[1..], x, fuel)
  }

  /** The `while (true)` of a for loop after its initialisation: test, then body, then increment. */
  function Loop(st: State, s: Stmt, x: Executor, fuel: nat): (r: Result<State, Error>)
    requires s.For? && Leds.Valid(st.leds)
    ensures r.Ok? ==> Leds.Valid(r.value.leds)
    decreases fuel, s, 1
  {
    var t :- Eval(st, x, s.test);
    if !t.v.Bool? then Err(NotBoolean)
    else if !t.v.b then Ok(t.st)
    else if fuel == 0 then Err(OutOfFuel)
    else
      var st' :- Iteration(t.st, s, x, fuel);
      Loop(st', s, x, fuel - 1)
  }

  /** One pass through a for loop's body and then its increment. */
  function Iteration(st: State, s: Stmt, x: Executor, fuel: nat): (r: Result<State, Error>)
    requires s.For? && Leds.Valid(st.leds)
    ensures r.Ok? ==> Leds.Valid(r.value.leds)
    decreases fuel, s, 0
  {
    var st' :- Exec(st, s.body, x, fuel);
    Exec(st', s.incr, x, fuel)
  }

  /** A program runs on the empty display, no caches, the initial store and empty sinks. */
  function Run(program: Stmt, x: Executor, fuel: nat): Result<State, Error>
  {
    Exec(State(Scope.Empty(), map[], Leds.Initial(), [], map[]), program, x, fuel)
  }
}
