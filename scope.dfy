/**
 * The scope display, as an abstract value: a stack of levels, each mapping
 * names to references and to function definitions, and a heap giving each
 * reference its current value. The display's own implementation is not part
 * of this model; this is the interface the evaluator relies on.
 */
module Scope {
  import opened Wrappers
  import opened Values
  import opened Syntax

  type Ref = nat

  /** A function definition: name, declaration level, parameters, body and optional return expression. */
  datatype FnDef = FnDef(name: string, level: nat, params: seq<string>, body: Stmt, ret: Option<Expr>)
  {
    predicate HasReturn() { ret.Some? }
  }

  datatype Level = Level(vars: map<string, Ref>, fns: map<string, FnDef>)

  /** `outer` holds the enclosing levels, the global level first; `current` is the innermost. */
  datatype Display = Display(outer: seq<Level>, current: Level, heap: map<Ref, Value>, next: Ref)

  function Empty(): Display
  {
    Display([], Level(map[], map[]), map[], 0)
  }

  /** Every reference the display knows is below `next`, so `next` is fresh. */
  ghost predicate Valid(d: Display)
  {
    && (forall n :: n in d.current.vars ==> d.current.vars[n] < d.next)
    && (forall i, n :: 0 <= i < |d.outer| && n in d.outer[i].vars ==> d.outer[i].vars[n] < d.next)
    && (forall r :: r in d.heap ==> r < d.next)
  }

  function GetLevel(d: Display): nat { |d.outer| }

  /** Innermost-first search through a stack of levels given outermost first. */
  function FindVarIn(levels: seq<Level>, name: string): (r: Option<Ref>)
    ensures r.Some? ==>
      exists i :: 0 <= i < |levels| && name in levels[i].vars && levels[i].vars[name] == r.value &&
        forall j :: i < j < |levels| ==> name !in levels[j].vars
    ensures r.None? ==> forall i :: 0 <= i < |levels| ==> name !in levels[i].vars
  {
    if |levels| == 0 then None
    else if name in levels[|levels| - 1].vars then Some(levels[|levels| - 1].vars[name])
    else FindVarIn(levels[..|levels| - 1], name)
  }

  function FindFnIn(levels: seq<Level>, name: string): (r: Option<FnDef>)
    ensures r.Some? ==>
      exists i :: 0 <= i < |levels| && name in levels[i].fns && levels[i].fns[name] == r.value &&
        forall j :: i < j < |levels| ==> name !in levels[j].fns
    ensures r.None? ==> forall i :: 0 <= i < |levels| ==> name !in levels[i].fns
  {
    if |levels| == 0 then None
    else if name in levels[|levels| - 1].fns then Some(levels[|levels| - 1].fns[name])
    else FindFnIn(levels[..|levels| - 1], name)
  }

  /** `findReference`: the closest enclosing binding of a name. */
  function FindReference(d: Display, name: string): (r: Option<Ref>)
    ensures name in d.current.vars ==> r == Some(d.current.vars[name])
    ensures name !in d.current.vars && r.Some? ==>
      exists i :: 0 <= i < |d.outer| && name in d.outer[i].vars && d.outer[i].vars[name] == r.value &&
        forall j :: i < j < |d.outer| ==> name !in d.outer[j].vars
    ensures forall i ::
      (0 <= i < |d.outer| && name !in d.current.vars && name in d.outer[i].vars &&
       forall j :: i < j < |d.outer| ==> name !in d.outer[j].vars) ==> r == Some(d.outer[i].vars[name])
    ensures r.None? <==> name !in d.current.vars && forall i :: 0 <= i < |d.outer| ==> name !in d.outer[i].vars
  {
    FindVarIn(d.outer + [d.current], name)
  }

  /** `defineVariable`: a fresh reference, bound in the innermost level, holding no value yet. */
  function DefineVariable(d: Display, name: string): (r: (Display, Ref))
    ensures r.1 == d.next && r.0.next == d.next + 1
    ensures r.0.outer == d.outer && r.0.heap == d.heap
    ensures r.0.current == d.current.(vars := d.current.vars[name := d.next])
    ensures Valid(d) ==> Valid(r.0) && r.1 !in d.heap
  {
    (d.(current := d.current.(vars := d.current.vars[name := d.next]), next := d.next + 1), d.next)
  }

  /** `findFunction`: the closest enclosing definition of a function name. */
  function FindFunction(d: Display, name: string): (r: Option<FnDef>)
    ensures name in d.current.fns ==> r == Some(d.current.fns[name])
    ensures name !in d.current.fns && r.Some? ==>
      exists i :: 0 <= i < |d.outer| && name in d.outer[i].fns && d.outer[i].fns[name] == r.value &&
        forall j :: i < j < |d.outer| ==> name !in d.outer[j].fns
    ensures forall i ::
      (0 <= i < |d.outer| && name !in d.current.fns && name in d.outer[i].fns &&
       forall j :: i < j < |d.outer| ==> name !in d.outer[j].fns) ==> r == Some(d.outer[i].fns[name])
    ensures r.None? <==> name !in d.current.fns && forall i :: 0 <= i < |d.outer| ==> name !in d.outer[i].fns
  {
    FindFnIn(d.outer + [d.current], name)
  }

  /** `findFunctionInCurrentLevel`. */
  function FindFunctionInCurrentLevel(d: Display, name: string): (r: Option<FnDef>)
    ensures r.Some? <==> name in d.current.fns
  {
    if name in d.current.fns then Some(d.current.fns[name]) else None
  }

  /** `addFunction`: registers a definition at the innermost level. */
  function AddFunction(d: Display, f: FnDef): (r: Display)
    ensures r.current.fns == d.current.fns[f.name := f]
    ensures r.outer == d.outer && r.heap == d.heap && r.next == d.next && r.current.vars == d.current.vars
    ensures Valid(d) ==> Valid(r)
  {
    d.(current := d.current.(fns := d.current.fns[f.name := f]))
  }

  /** `Reference.setValue`. */
  function SetValue(d: Display, ref: Ref, v: Value): (r: Display)
    ensures r.heap == d.heap[ref := v]
    ensures r.outer == d.outer && r.current == d.current && r.next == d.next
    ensures Valid(d) && ref < d.next ==> Valid(r)
  {
    d.(heap := d.heap[ref := v])
  }

  /** A freshly defined reference is what the name then resolves to, beats any outer binding, and is a new cell. */
  lemma DefineThenFind(d: Display, name: string)
    requires Valid(d)
    ensures FindReference(DefineVariable(d, name).0, name) == Some(d.next)
    ensures forall n :: n in d.current.vars ==> d.current.vars[n] != DefineVariable(d, name).1
  {
  }

  /** Resolution looks at the innermost level first: a name bound there shadows the same name in every outer level. */
  lemma InnermostWins(d: Display, name: string, ref: Ref)
    requires name in d.current.vars && d.current.vars[name] == ref
    ensures FindReference(d, name) == Some(ref)
    ensures forall o: seq<Level> :: FindReference(d.(outer := o), name) == Some(ref)
  {
  }
}
