/** The abstract syntax tree of parser.h.
    Each node records which family of classes built it: the base structs of
    parser.h (Plain), whose virtual codegen returns null, or the
    codegen-capable subclasses that codegen.cpp's factory functions create
    (Lowering).  Within a family the classes are the constructors below. */
module Ast {
  import opened Wrappers

  datatype Family = Plain | Lowering

  /** ExprAST and its four subclasses.  A number literal keeps the lexeme
      that the lexer would convert to a double. */
  datatype Expr =
    | NumberExpr(family: Family, val: string)
    | VariableExpr(family: Family, name: string)
    | BinaryExpr(family: Family, op: char, lhs: Expr, rhs: Expr)
    | CallExpr(family: Family, callee: string, args: seq<Expr>)

  /** PrototypeAST: a name and the argument names in order. */
  datatype Prototype = Prototype(family: Family, name: string, args: seq<string>)

  /** FunctionAST: exactly one prototype and one body. */
  datatype Function = Function(family: Family, proto: Prototype, body: Expr)

  /** PrototypeAST::getName. */
  function GetName(p: Prototype): string {
    p.name
  }

  /** The number of arguments a prototype implicitly declares. */
  function Arity(p: Prototype): nat {
    |p.args|
  }

  /** Every node of the tree belongs to the family. */
  predicate InFamily(e: Expr, fam: Family) {
    && e.family == fam
    && match e
       case BinaryExpr(_, _, l, r) => InFamily(l, fam) && InFamily(r, fam)
       case CallExpr(_, _, args) => forall i :: 0 <= i < |args| ==> InFamily(args[i], fam)
       case _ => true
  }

  /** The same tree built from the classes of another family. */
  function Relabel(e: Expr, fam: Family): (r: Expr)
    ensures InFamily(r, fam)
  {
    match e
    case NumberExpr(_, v) => NumberExpr(fam, v)
    case VariableExpr(_, n) => VariableExpr(fam, n)
    case BinaryExpr(_, op, l, r) => BinaryExpr(fam, op, Relabel(l, fam), Relabel(r, fam))
    case CallExpr(_, c, args) => CallExpr(fam, c, RelabelAll(args, fam))
  }

  function RelabelAll(es: seq<Expr>, fam: Family): (rs: seq<Expr>)
    ensures |rs| == |es|
    ensures forall i :: 0 <= i < |es| ==> rs[i] == Relabel(es[i], fam)
    decreases es, 0
  {
    if es == [] then [] else [Relabel(es[0], fam)] + RelabelAll(es[1..], fam)
  }

  function RelabelProto(p: Prototype, fam: Family): (r: Prototype)
    ensures r.family == fam && r.name == p.name && r.args == p.args
  {
    Prototype(fam, p.name, p.args)
  }

  function RelabelFunction(f: Function, fam: Family): (r: Function)
    ensures r.family == fam && r.proto == RelabelProto(f.proto, fam)
    ensures r.body == Relabel(f.body, fam)
  {
    Function(fam, RelabelProto(f.proto, fam), Relabel(f.body, fam))
  }

  /** The virtual codegen of ExprAST, PrototypeAST and FunctionAST: the base
      classes return null; the codegen classes run the lowering, which is
      a parameter here. */
  function ExprCodegen<V>(e: Expr, lower: Expr -> Option<V>): Option<V> {
    if e.family == Plain then None else lower(e)
  }

  function ProtoCodegen<V>(p: Prototype, lower: Prototype -> Option<V>): Option<V> {
    if p.family == Plain then None else lower(p)
  }

  function FunctionCodegen<V>(f: Function, lower: Function -> Option<V>): Option<V> {
    if f.family == Plain then None else lower(f)
  }

  // -----------------------------------------------------------------------
  // Properties

  /** Relabelling forgets the family it started from. */
  lemma {:induction false} RelabelTwice(e: Expr, f: Family, g: Family)
    ensures Relabel(Relabel(e, f), g) == Relabel(e, g)
    decreases e, 1
  {
    match e
    case BinaryExpr(_, _, l, r) =>
      RelabelTwice(l, f, g);
      RelabelTwice(r, f, g);
    case CallExpr(_, _, args) =>
      RelabelAllTwice(args, f, g);
    case _ =>
  }

  lemma {:induction false} RelabelAllTwice(es: seq<Expr>, f: Family, g: Family)
    ensures RelabelAll(RelabelAll(es, f), g) == RelabelAll(es, g)
    decreases es, 0
  {
    forall i | 0 <= i < |es|
      ensures RelabelAll(RelabelAll(es, f), g)[i] == RelabelAll(es, g)[i]
    {
      RelabelTwice(es[i], f, g);
    }
  }

  /** A tree already made of one family's classes is its own relabelling. */
  lemma {:induction false} RelabelInFamily(e: Expr, fam: Family)
    requires InFamily(e, fam)
    ensures Relabel(e, fam) == e
    decreases e, 1
  {
    match e
    case BinaryExpr(_, _, l, r) =>
      RelabelInFamily(l, fam);
      RelabelInFamily(r, fam);
    case CallExpr(_, _, args) =>
      RelabelAllInFamily(args, fam);
    case _ =>
  }

  lemma {:induction false} RelabelAllInFamily(es: seq<Expr>, fam: Family)
    requires forall i :: 0 <= i < |es| ==> InFamily(es[i], fam)
    ensures RelabelAll(es, fam) == es
    decreases es, 0
  {
    forall i | 0 <= i < |es|
      ensures RelabelAll(es, fam)[i] == es[i]
    {
      RelabelInFamily(es[i], fam);
    }
  }

  /** A tree of the base classes never lowers: codegen of every node of
      it returns null, whatever the lowering would do. */
  lemma BaseNeverLowers<V>(e: Expr, p: Prototype, f: Function, lower: Expr -> Option<V>,
                           lowerP: Prototype -> Option<V>, lowerF: Function -> Option<V>)
    requires InFamily(e, Plain) && p.family == Plain && f.family == Plain
    ensures ExprCodegen(e, lower) == None
    ensures ProtoCodegen(p, lowerP) == None
    ensures FunctionCodegen(f, lowerF) == None
  {
  }

  /** A codegen-class node hands itself to the lowering. */
  lemma LoweringLowers<V>(e: Expr, lower: Expr -> Option<V>)
    requires e.family == Lowering
    ensures ExprCodegen(e, lower) == lower(e)
  {
  }
}
