/**
 * The abstract syntax the interpreter walks. Every node that keeps a
 * resolution cache (`optimised` in the source) carries the identity of its
 * node instance, `id`; the caches themselves live in the interpreter state,
 * keyed by that identity. Operator nodes keep no cache and carry no id.
 */
module Syntax {
  import opened Wrappers
  import opened Values
  import opened Saturation

  type NodeId = nat

  datatype Expr =
    | IntLit(id: NodeId, token: string)          // Integer
    | BoolLit(id: NodeId, b: bool)               // True, False
    | StrLit(id: NodeId, text: string)           // Character, delimiters already stripped
    | Deref(id: NodeId, name: string)            // Dereference
    | Arith(op: CompoundOp, l: Expr, r: Expr)    // Add, Subtract, Times, Divide
    | Cmp(cmp: CmpOp, l: Expr, r: Expr)          // CompEqual ... CompLT
    | And(l: Expr, r: Expr)
    | Or(l: Expr, r: Expr)
    | Not(e: Expr)                               // UnaryNot
    | Negate(e: Expr)                            // UnaryMinus
    | Identity(e: Expr)                          // UnaryPlus
    | Invoke(id: NodeId, fn: string, args: seq<Expr>)  // FnInvoke with its ArgList

  datatype Stmt =
    | Assign(id: NodeId, name: string, rhs: Expr)                          // x = e
    | Compound(id: NodeId, op: CompoundOp, target: NodeId, name: string, rhs: Expr)  // x += e ...; target is the id of the Dereference child
    | Flip(id: NodeId, target: NodeId, name: string)                       // flip x
    | Clear(id: NodeId, name: string)
    | Fill(id: NodeId, name: string)
    | If(test: Expr, thenS: Stmt, elseS: Option<Stmt>)                     // elseS.Some? is ifHasElse
    | For(init: Stmt, test: Expr, incr: Stmt, body: Stmt)
    | Block(stmts: seq<Stmt>)                                              // Code, Statement, Block
    | FnDecl(id: NodeId, name: string, params: seq<string>, body: Stmt, ret: Option<Expr>)  // FnDef with Parmlist
    | Call(id: NodeId, fn: string, args: seq<Expr>)                        // Call with its ArgList
    | Leds(size: Expr, array: Expr)
    | Update(red: Expr, green: Expr, blue: Expr, index: Expr, array: Expr)
    | Write(array: Expr)
    | Info(array: Expr)
    | Save(array: Expr)
    | Delay(seconds: Expr)                                                 // delay e: sleep e seconds
}
