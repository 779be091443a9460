/** The arithmetic of one candidate expression: the four operators, the five
    parenthesisation shapes `findSolutions` tries, the value it compares with
    the target and the string it appends (src/com/solver/Game.java:222-1189).

    `Eval` and `Render` follow the source's conditions and format strings
    shape by shape. Beside them stands an expression tree with the usual
    meaning of fully parenthesised infix text (`Value`, `Show`) and a parser
    for that text (`Parse`). The lemmas at the end tie the two views
    together: the string appended for a candidate reads back as the tree the
    candidate evaluates. */
module Expressions {
  import opened Wrappers
  import opened Decimal
  import opened Sequences

  datatype Op = Add | Sub | Mul | Div

  function Symbol(op: Op): char {
    match op
    case Add => '+'
    case Sub => '-'
    case Mul => '*'
    case Div => '/'
  }

  function SymbolOp(c: char): (r: Option<Op>)
    ensures r.Some? ==> Symbol(r.value) == c
  {
    if c == '+' then Some(Add)
    else if c == '-' then Some(Sub)
    else if c == '*' then Some(Mul)
    else if c == '/' then Some(Div)
    else None
  }

  lemma SymbolRoundTrip(op: Op)
    ensures SymbolOp(Symbol(op)) == Some(op)
  {
  }

  /** One operator applied to two exact values. `/` is real division; a zero
      divisor leaves the result undefined, where Java's `double` would give
      an infinity or NaN, which never equals the target. */
  function Apply(op: Op, x: real, y: real): (r: Option<real>)
    ensures r.None? <==> op == Div && y == 0.0
    ensures r.Some? && op == Div ==> r.value * y == x
  {
    match op
    case Add => Some(x + y)
    case Sub => Some(x - y)
    case Mul => Some(x * y)
    case Div => if y == 0.0 then None else Some(x / y)
  }

  /** `Apply` on values that may already be undefined. */
  function Lift(op: Op, x: Option<real>, y: Option<real>): Option<real> {
    if x.Some? && y.Some? then Apply(op, x.value, y.value) else None
  }

  // ----- Expression trees and their text ------------------------------------

  datatype Expr = Num(n: int) | Bin(op: Op, left: Expr, right: Expr)

  /** The value of an expression under ordinary arithmetic. */
  function Value(e: Expr): Option<real> {
    match e
    case Num(n) => Some(n as real)
    case Bin(op, l, r) => Lift(op, Value(l), Value(r))
  }

  /** Some division inside `e` has a divisor whose value is zero. */
  predicate DividesByZero(e: Expr) {
    match e
    case Num(_) => false
    case Bin(op, l, r) => DividesByZero(l) || DividesByZero(r) || (op == Div && Value(r) == Some(0.0))
  }

  /** An expression has no value exactly when it divides by zero somewhere. */
  lemma {:induction false} UndefinedIffDividesByZero(e: Expr)
    ensures Value(e).None? <==> DividesByZero(e)
  {
    match e
    case Num(_) =>
    case Bin(op, l, r) =>
      UndefinedIffDividesByZero(l);
      UndefinedIffDividesByZero(r);
  }

  /** The numbers of an expression, left to right. */
  function Leaves(e: Expr): seq<int> {
    match e
    case Num(n) => [n]
    case Bin(_, l, r) => Leaves(l) + Leaves(r)
  }

  /** Text of an expression: a number as `%d` writes it; an operation as its
      two operands with the operator between single spaces. */
  function Show(e: Expr): string
    decreases e, 0
  {
    match e
    case Num(n) => FormatInt(n)
    case Bin(op, l, r) => Infix(Operand(l), op, Operand(r))
  }

  /** Text of an expression in operand position: operations are parenthesised. */
  function Operand(e: Expr): string
    decreases e, 1
  {
    if e.Num? then FormatInt(e.n) else Paren(Show(e))
  }

  /** Two texts with an operator between single spaces, as in `"x + y"`. */
  function Infix(x: string, op: Op, y: string): string {
    x + [' ', Symbol(op), ' '] + y
  }

  function Paren(x: string): string {
    "(" + x + ")"
  }

  /** Reads one operand: a number, or a parenthesised operation. */
  function ParseOperand(s: string): (r: Option<(Expr, string)>)
    ensures r.Some? ==> |r.value.1| < |s|
    decreases |s|, 0
  {
    if |s| > 0 && s[0] == '(' then
      match ParseBinary(s[1..])
      case None => None
      case Some((e, rest)) => if |rest| > 0 && rest[0] == ')' then Some((e, rest[1..])) else None
    else
      match ReadNumber(s)
      case None => None
      case Some((n, rest)) => Some((Num(n), rest))
  }

  /** Reads `operand op operand`, with single spaces around the operator. */
  function ParseBinary(s: string): (r: Option<(Expr, string)>)
    ensures r.Some? ==> |r.value.1| < |s|
    decreases |s|, 1
  {
    match ParseOperand(s)
    case None => None
    case Some((l, rest)) =>
      if |rest| >= 3 && rest[0] == ' ' && rest[2] == ' ' && SymbolOp(rest[1]).Some? then
        match ParseOperand(rest[3..])
        case None => None
        case Some((r, rest')) => Some((Bin(SymbolOp(rest[1]).value, l, r), rest'))
      else None
  }

  /** Reads a whole solution string: an operation and nothing after it. */
  function Parse(s: string): Option<Expr> {
    match ParseBinary(s)
    case None => None
    case Some((e, rest)) => if rest == [] then Some(e) else None
  }

  /** What may follow an operand in the text. */
  predicate CanFollow(rest: string) {
    rest == [] || rest[0] == ' ' || rest[0] == ')'
  }

  lemma {:induction false} ParseOperandOfOperand(e: Expr, rest: string)
    requires CanFollow(rest)
    ensures ParseOperand(Operand(e) + rest) == Some((e, rest))
    decreases e, 1
  {
    if e.Num? {
      ParseNumberOperand(e.n, rest);
    } else {
      BracketedText(e, rest);
      ParseBinaryOfShow(e, ")" + rest);
      ParseBracketed(Operand(e) + rest, e, rest);
    }
  }

  /** The text of a bracketed operand: `(`, the expression, then `)`. */
  lemma BracketedText(e: Expr, rest: string)
    requires e.Bin?
    ensures |Operand(e) + rest| > 0 && (Operand(e) + rest)[0] == '('
    ensures (Operand(e) + rest)[1..] == Show(e) + (")" + rest)
  {
    var x := Show(e);
    assert Operand(e) == "(" + x + ")";
    ConcatAssoc4("(", x, ")", rest);
    DropFirst('(', x, ")" + rest);
  }



  /** A number operand is read by `ReadNumber`. */
  lemma ParseNumberOperand(n: int, rest: string)
    requires CanFollow(rest)
    ensures ParseOperand(Operand(Num(n)) + rest) == Some((Num(n), rest))
  {
    assert !IsDigit(' ') && !IsDigit(')');
    ReadFormatInt(n, rest);
    assert (Operand(Num(n)) + rest)[0] != '(';
  }

  /** A bracketed operand is a binary expression followed by `)`. */
  lemma ParseBracketed(s: string, e: Expr, rest: string)
    requires |s| > 0 && s[0] == '('
    requires ParseBinary(s[1..]) == Some((e, ")" + rest))
    ensures ParseOperand(s) == Some((e, rest))
  {
    assert (")" + rest)[1..] == rest;
  }

  lemma {:induction false} ParseBinaryOfShow(e: Expr, rest: string)
    requires e.Bin? && CanFollow(rest)
    ensures ParseBinary(Show(e) + rest) == Some((e, rest))
    decreases e, 0
  {
    var Bin(op, l, r) := e;
    var right := Operand(r) + rest;
    var tail := [' ', Symbol(op), ' '] + right;
    assert Show(e) + rest == Operand(l) + tail;
    ParseOperandOfOperand(l, tail);
    ParseOperandOfOperand(r, rest);
    ParseBinaryStep(Show(e) + rest, l, op, right, r, rest);
  }

  /** One binary step of the parser: an operand, a spaced operator symbol
      and a second operand. */
  lemma ParseBinaryStep(s: string, l: Expr, op: Op, right: string, r: Expr, rest: string)
    requires ParseOperand(s) == Some((l, [' ', Symbol(op), ' '] + right))
    requires ParseOperand(right) == Some((r, rest))
    ensures ParseBinary(s) == Some((Bin(op, l, r), rest))
  {
    var tail := [' ', Symbol(op), ' '] + right;
    assert tail[3..] == right;
    SymbolRoundTrip(op);
  }

  /** Parsing inverts printing, for every expression with an operator. */
  lemma ParseShow(e: Expr)
    requires e.Bin?
    ensures Parse(Show(e)) == Some(e)
  {
    assert Show(e) + [] == Show(e);
    ParseBinaryOfShow(e, []);
  }

  // ----- The five shapes of the search --------------------------------------

  /** The parenthesisations, in the order `findSolutions` tries them. */
  datatype Shape =
    | LeftDeep    // ((a o b) o c) o d
    | InnerLeft   // (a o (b o c)) o d
    | InnerRight  // a o ((b o c) o d)
    | RightDeep   // a o (b o (c o d))
    | Balanced    // (a o b) o (c o d)

  /** The three operators of a candidate, in the order they appear in its text. */
  datatype Ops = Ops(first: Op, second: Op, third: Op)

  /** The expression tree a shape builds over four numbers. */
  function Tree(shape: Shape, ops: Ops, a: int, b: int, c: int, d: int): Expr {
    var Ops(o1, o2, o3) := ops;
    match shape
    case LeftDeep => Bin(o3, Bin(o2, Bin(o1, Num(a), Num(b)), Num(c)), Num(d))
    case InnerLeft => Bin(o3, Bin(o1, Num(a), Bin(o2, Num(b), Num(c))), Num(d))
    case InnerRight => Bin(o1, Num(a), Bin(o3, Bin(o2, Num(b), Num(c)), Num(d)))
    case RightDeep => Bin(o1, Num(a), Bin(o2, Num(b), Bin(o3, Num(c), Num(d))))
    case Balanced => Bin(o2, Bin(o1, Num(a), Num(b)), Bin(o3, Num(c), Num(d)))
  }

  /** The value `findSolutions` compares with the target, written as the
      source's conditions compute it (Game.java:223, 417, 611, 805, 999). */
  function Eval(shape: Shape, ops: Ops, a: real, b: real, c: real, d: real): Option<real> {
    var Ops(o1, o2, o3) := ops;
    match shape
    case LeftDeep => Lift(o3, Lift(o2, Apply(o1, a, b), Some(c)), Some(d))
    case InnerLeft => Lift(o3, Lift(o1, Some(a), Apply(o2, b, c)), Some(d))
    case InnerRight => Lift(o1, Some(a), Lift(o3, Apply(o2, b, c), Some(d)))
    case RightDeep => Lift(o1, Some(a), Lift(o2, Some(b), Apply(o3, c, d)))
    case Balanced => Lift(o2, Apply(o1, a, b), Apply(o3, c, d))
  }

  /** The string `findSolutions` appends, as its format strings build it
      from the four `int` values (Game.java:224, 418, 612, 806, 1000): the
      `%d` texts of the numbers in the shape's fixed pattern of parentheses,
      each operator between single spaces. */
  function Render(shape: Shape, ops: Ops, a: int, b: int, c: int, d: int): string {
    var Ops(o1, o2, o3) := ops;
    var (A, B, C, D) := (FormatInt(a), FormatInt(b), FormatInt(c), FormatInt(d));
    match shape
    case LeftDeep => Infix(Paren(Infix(Paren(Infix(A, o1, B)), o2, C)), o3, D)      // "((%d o %d) o %d) o %d"
    case InnerLeft => Infix(Paren(Infix(A, o1, Paren(Infix(B, o2, C)))), o3, D)     // "(%d o (%d o %d)) o %d"
    case InnerRight => Infix(A, o1, Paren(Infix(Paren(Infix(B, o2, C)), o3, D)))    // "%d o ((%d o %d) o %d)"
    case RightDeep => Infix(A, o1, Paren(Infix(B, o2, Paren(Infix(C, o3, D)))))     // "%d o (%d o (%d o %d))"
    case Balanced => Infix(Paren(Infix(A, o1, B)), o2, Paren(Infix(C, o3, D)))      // "(%d o %d) o (%d o %d)"
  }

  /** The source's formula for a shape is the value of the shape's tree. */
  lemma EvalIsTreeValue(shape: Shape, ops: Ops, a: int, b: int, c: int, d: int)
    ensures Eval(shape, ops, a as real, b as real, c as real, d as real) == Value(Tree(shape, ops, a, b, c, d))
  {
    var Ops(o1, o2, o3) := ops;
    var (A, B, C, D) := (Num(a), Num(b), Num(c), Num(d));
    match shape
    case LeftDeep =>
      assert Value(Bin(o1, A, B)) == Apply(o1, a as real, b as real);
      assert Value(Bin(o2, Bin(o1, A, B), C)) == Lift(o2, Apply(o1, a as real, b as real), Some(c as real));
    case InnerLeft =>
      assert Value(Bin(o2, B, C)) == Apply(o2, b as real, c as real);
      assert Value(Bin(o1, A, Bin(o2, B, C))) == Lift(o1, Some(a as real), Apply(o2, b as real, c as real));
    case InnerRight =>
      assert Value(Bin(o2, B, C)) == Apply(o2, b as real, c as real);
      assert Value(Bin(o3, Bin(o2, B, C), D)) == Lift(o3, Apply(o2, b as real, c as real), Some(d as real));
    case RightDeep =>
      assert Value(Bin(o3, C, D)) == Apply(o3, c as real, d as real);
      assert Value(Bin(o2, B, Bin(o3, C, D))) == Lift(o2, Some(b as real), Apply(o3, c as real, d as real));
    case Balanced =>
      assert Value(Bin(o1, A, B)) == Apply(o1, a as real, b as real);
      assert Value(Bin(o3, C, D)) == Apply(o3, c as real, d as real);
  }

  lemma ShowPair(op: Op, x: int, y: int)
    ensures Show(Bin(op, Num(x), Num(y))) == Infix(FormatInt(x), op, FormatInt(y))
    ensures Operand(Bin(op, Num(x), Num(y))) == Paren(Infix(FormatInt(x), op, FormatInt(y)))
  {
    assert Operand(Num(x)) == FormatInt(x) && Operand(Num(y)) == FormatInt(y);
  }

  /** The source's format string for a shape prints the shape's tree. */
  lemma RenderIsShow(shape: Shape, ops: Ops, a: int, b: int, c: int, d: int)
    ensures Render(shape, ops, a, b, c, d) == Show(Tree(shape, ops, a, b, c, d))
  {
    var Ops(o1, o2, o3) := ops;
    var (A, B, C, D) := (Num(a), Num(b), Num(c), Num(d));
    assert Operand(A) == FormatInt(a) && Operand(B) == FormatInt(b);
    assert Operand(C) == FormatInt(c) && Operand(D) == FormatInt(d);
    match shape
    case LeftDeep =>
      ShowPair(o1, a, b);
      assert Show(Bin(o2, Bin(o1, A, B), C)) == Infix(Operand(Bin(o1, A, B)), o2, FormatInt(c));
    case InnerLeft =>
      ShowPair(o2, b, c);
      assert Show(Bin(o1, A, Bin(o2, B, C))) == Infix(FormatInt(a), o1, Operand(Bin(o2, B, C)));
    case InnerRight =>
      ShowPair(o2, b, c);
      assert Show(Bin(o3, Bin(o2, B, C), D)) == Infix(Operand(Bin(o2, B, C)), o3, FormatInt(d));
    case RightDeep =>
      ShowPair(o3, c, d);
      assert Show(Bin(o2, B, Bin(o3, C, D))) == Infix(FormatInt(b), o2, Operand(Bin(o3, C, D)));
    case Balanced =>
      ShowPair(o1, a, b);
      ShowPair(o3, c, d);
  }

  /** A shape's tree holds the four numbers in the order given. */
  lemma TreeLeaves(shape: Shape, ops: Ops, a: int, b: int, c: int, d: int)
    ensures Leaves(Tree(shape, ops, a, b, c, d)) == [a, b, c, d]
  {
    var Ops(o1, o2, o3) := ops;
    var (A, B, C, D) := (Num(a), Num(b), Num(c), Num(d));
    match shape
    case LeftDeep =>
      assert Leaves(Bin(o1, A, B)) == [a, b];
      assert Leaves(Bin(o2, Bin(o1, A, B), C)) == [a, b, c];
    case InnerLeft =>
      assert Leaves(Bin(o2, B, C)) == [b, c];
      assert Leaves(Bin(o1, A, Bin(o2, B, C))) == [a, b, c];
    case InnerRight =>
      assert Leaves(Bin(o2, B, C)) == [b, c];
      assert Leaves(Bin(o3, Bin(o2, B, C), D)) == [b, c, d];
    case RightDeep =>
      assert Leaves(Bin(o3, C, D)) == [c, d];
      assert Leaves(Bin(o2, B, Bin(o3, C, D))) == [b, c, d];
    case Balanced => assert Leaves(Bin(o1, A, B)) == [a, b] && Leaves(Bin(o3, C, D)) == [c, d];
  }

  /** A rendered candidate parses back to the tree it was evaluated as: the
      string is the shape's template with the four numbers in order. */
  lemma ParseRender(shape: Shape, ops: Ops, a: int, b: int, c: int, d: int)
    ensures Parse(Render(shape, ops, a, b, c, d)) == Some(Tree(shape, ops, a, b, c, d))
    ensures Leaves(Tree(shape, ops, a, b, c, d)) == [a, b, c, d]
  {
    var e := Tree(shape, ops, a, b, c, d);
    assert e.Bin?;
    RenderIsShow(shape, ops, a, b, c, d);
    ParseShow(e);
    TreeLeaves(shape, ops, a, b, c, d);
  }

  /** Two candidates render the same string only if they have the same
      shape, the same operators and the same numbers in the same order. */
  lemma RenderInjective(shape: Shape, ops: Ops, a: int, b: int, c: int, d: int,
                        shape': Shape, ops': Ops, a': int, b': int, c': int, d': int)
    requires Render(shape, ops, a, b, c, d) == Render(shape', ops', a', b', c', d')
    ensures shape == shape' && ops == ops' && [a, b, c, d] == [a', b', c', d']
  {
    ParseRender(shape, ops, a, b, c, d);
    ParseRender(shape', ops', a', b', c', d');
  }

  /** A candidate's value is undefined exactly when one of its divisors is zero. */
  lemma EvalUndefinedIffDividesByZero(shape: Shape, ops: Ops, a: int, b: int, c: int, d: int)
    ensures Eval(shape, ops, a as real, b as real, c as real, d as real).None?
        <==> DividesByZero(Tree(shape, ops, a, b, c, d))
  {
    EvalIsTreeValue(shape, ops, a, b, c, d);
    UndefinedIffDividesByZero(Tree(shape, ops, a, b, c, d));
  }
}
