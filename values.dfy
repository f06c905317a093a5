/**
 * The runtime value model of the interpreter: the values a Lox program
 * computes with, the runtime errors it can raise, and the pure helpers the
 * evaluator applies to values (truthiness, equality, display text, operand
 * checks and the unary and binary operators).
 *
 * Numbers are Java doubles in the interpreter; here they are `real`, so
 * rounding, infinities and NaN are not modelled. The host's rendering of a
 * double as text (Java's Double.toString) is passed in as `numberText`.
 */
module Values {
  import opened Wrappers
  import opened Ast

  /** A function value: the declaration it was made from. */
  datatype LoxFunction = LoxFunction(declaration: FunctionDecl)

  datatype Value =
    | VNil
    | VBool(b: bool)
    | VNum(n: real)
    | VStr(s: string)
    | VFun(f: LoxFunction)

  /**
   * A runtime error, carrying the token that raised it. The second kind
   * is not part of the language: it is what a `while` loop yields in the
   * model when it has run the iteration bound the model gives it.
   */
  datatype Failure =
    | RuntimeError(token: Token, message: string)
    | IterationBoundReached

  /** The error `get` and `assign` raise for a name no scope binds. */
  function UndefinedVariable(name: Token): Failure
  {
    RuntimeError(name, "Undefined var '" + name.lexeme + "'.")
  }

  /** The value a literal node evaluates to. */
  function FromLiteral(l: LiteralValue): (v: Value)
    ensures !v.VFun?
    ensures l.NilLiteral? <==> v.VNil?
    ensures l.BoolLiteral? <==> v.VBool?
    ensures l.NumberLiteral? <==> v.VNum?
    ensures l.StringLiteral? <==> v.VStr?
    ensures l.BoolLiteral? ==> v.b == l.b
    ensures l.NumberLiteral? ==> v.n == l.n
    ensures l.StringLiteral? ==> v.s == l.s
  {
    match l
    case NilLiteral => VNil
    case BoolLiteral(b) => VBool(b)
    case NumberLiteral(n) => VNum(n)
    case StringLiteral(s) => VStr(s)
  }

  /** The number of parameters a function declares. */
  function Arity(f: LoxFunction): nat
  {
    |f.declaration.params|
  }

  /** The display text of a function value. The function's name can be read back from it. */
  function FunctionToString(f: LoxFunction): (text: string)
    ensures |text| == |f.declaration.name.lexeme| + 5
    ensures text[..4] == "<fn " && text[|text| - 1] == '>'
    ensures text[4..|text| - 1] == f.declaration.name.lexeme
  {
    "<fn " + f.declaration.name.lexeme + ">"
  }

  /** Only nil and false are falsy; every other value, 0 and "" included, is truthy. */
  function IsTruthy(v: Value): (truthy: bool)
    ensures truthy <==> v != VNil && v != VBool(false)
  {
    match v
    case VNil => false
    case VBool(b) => b
    case _ => true
  }

  /** A Lox value as the Java object that holds it; the literal `0` in Java source is an Integer. */
  datatype JavaObject =
    | JavaNull
    | JavaBoolean(b: bool)
    | JavaDouble(d: real)
    | JavaInteger(i: int)
    | JavaString(s: string)
    | JavaFunction(f: LoxFunction)

  function Boxed(v: Value): JavaObject
  {
    match v
    case VNil => JavaNull
    case VBool(b) => JavaBoolean(b)
    case VNum(n) => JavaDouble(n)
    case VStr(s) => JavaString(s)
    case VFun(f) => JavaFunction(f)
  }

  /** `receiver.equals(other)`: true only for an object of the receiver's own class with the same content; a function by its declaration. */
  function JavaEquals(receiver: JavaObject, other: JavaObject): bool
    requires !receiver.JavaNull?
  {
    match receiver
    case JavaBoolean(b) => other.JavaBoolean? && other.b == b
    case JavaDouble(d) => other.JavaDouble? && other.d == d
    case JavaInteger(i) => other.JavaInteger? && other.i == i
    case JavaString(s) => other.JavaString? && other.s == s
    case JavaFunction(f) => other.JavaFunction? && other.f == f
  }

  /** Lox `==`: nil equals only nil; otherwise value equality, and values of different kinds differ. */
  function IsEqual(a: Value, b: Value): (equal: bool)
    ensures equal <==> a == b
  {
    if a == VNil && b == VNil then true
    else if a == VNil then false
    else JavaEquals(Boxed(a), Boxed(b))
  }

  predicate EndsWithPointZero(text: string)
  {
    |text| >= 2 && text[|text| - 2..] == ".0"
  }

  /** Removes a trailing ".0" from a number's text, so that integral numbers print without it. */
  function StripPointZero(text: string): (stripped: string)
    ensures EndsWithPointZero(text) ==> stripped + ".0" == text
    ensures !EndsWithPointZero(text) ==> stripped == text
  {
    if EndsWithPointZero(text) then text[..|text| - 2] else text
  }

  /** The text `print` shows for a value and `+` concatenates. */
  function Stringify(v: Value, numberText: real -> string): (text: string)
    ensures v.VNil? ==> text == "nil"
    ensures v.VBool? ==> text == if v.b then "true" else "false"
    ensures v.VStr? ==> text == v.s
    ensures v.VNum? && EndsWithPointZero(numberText(v.n)) ==> text + ".0" == numberText(v.n)
    ensures v.VNum? && !EndsWithPointZero(numberText(v.n)) ==> text == numberText(v.n)
    ensures v.VFun? ==> text == "<fn " + v.f.declaration.name.lexeme + ">"
  {
    match v
    case VNil => "nil"
    case VNum(n) => StripPointZero(numberText(n))
    case VBool(b) => if b then "true" else "false"
    case VStr(s) => s
    case VFun(f) => FunctionToString(f)
  }

  /** The unary operand check: the number itself, or the error naming the operator. */
  function CheckNumberOperand(operator: Token, operand: Value): (checked: Result<real, Failure>)
    ensures checked.Ok? <==> operand.VNum?
    ensures checked.Ok? ==> checked.value == operand.n
    ensures checked.Err? ==> checked.error == RuntimeError(operator, "Operand must be a number.")
  {
    if operand.VNum? then Ok(operand.n)
    else Err(RuntimeError(operator, "Operand must be a number."))
  }

  /** The binary operand check: both numbers, or the error naming the operator. */
  function CheckNumberOperands(operator: Token, left: Value, right: Value): (checked: Result<(real, real), Failure>)
    ensures checked.Ok? <==> left.VNum? && right.VNum?
    ensures checked.Ok? ==> checked.value == (left.n, right.n)
    ensures checked.Err? ==> checked.error == RuntimeError(operator, "Operands must be numbers.")
  {
    if left.VNum? && right.VNum? then Ok((left.n, right.n))
    else Err(RuntimeError(operator, "Operands must be numbers."))
  }

  /** `-` negates a number and rejects anything else; `!` negates truthiness; other operators yield nil. */
  function ApplyUnary(operator: Token, right: Value): (r: Result<Value, Failure>)
    ensures operator.kind == Minus ==> (r.Ok? <==> right.VNum?)
    ensures operator.kind == Minus && r.Ok? ==> r.value == VNum(-right.n)
    ensures operator.kind == Minus && r.Err? ==> r.error == RuntimeError(operator, "Operand must be a number.")
    ensures operator.kind == Bang ==> r == Ok(VBool(!IsTruthy(right)))
    ensures operator.kind != Minus && operator.kind != Bang ==> r == Ok(VNil)
  {
    if operator.kind == Minus then
      match CheckNumberOperand(operator, right)
      case Err(e) => Err(e)
      case Ok(n) => Ok(VNum(-n))
    else if operator.kind == Bang then Ok(VBool(!IsTruthy(right)))
    else Ok(VNil)
  }

  /** The operators that accept only numbers. */
  predicate NumericOperator(kind: TokenType)
  {
    kind == Greater || kind == GreaterEqual || kind == Less || kind == LessEqual
    || kind == Minus || kind == Slash || kind == Star
  }

  /** The divisor test of `/`: a numeric zero. */
  predicate DivisorIsZero(right: Value)
  {
    right.VNum? && right.n == 0.0
  }

  /**
   * The binary operators, once both operands are evaluated. The numeric
   * operators raise unless both operands are numbers, and `/` raises on a
   * zero divisor; `==` and `!=` never raise; `+` adds two numbers,
   * concatenates display texts when either side is a string, and yields
   * nil for every other pair of operands; an operator without a case
   * yields nil.
   */
  function ApplyBinary(operator: Token, left: Value, right: Value, numberText: real -> string): (r: Result<Value, Failure>)
    ensures NumericOperator(operator.kind) ==>
      (r.Err? <==> !(left.VNum? && right.VNum?) || (operator.kind == Slash && DivisorIsZero(right)))
    ensures NumericOperator(operator.kind) && !(left.VNum? && right.VNum?) ==>
      r == Err(RuntimeError(operator, "Operands must be numbers."))
    ensures left.VNum? && right.VNum? ==>
      && (operator.kind == Greater ==> r == Ok(VBool(left.n > right.n)))
      && (operator.kind == GreaterEqual ==> r == Ok(VBool(left.n >= right.n)))
      && (operator.kind == Less ==> r == Ok(VBool(left.n < right.n)))
      && (operator.kind == LessEqual ==> r == Ok(VBool(left.n <= right.n)))
      && (operator.kind == Minus ==> r == Ok(VNum(left.n - right.n)))
      && (operator.kind == Star ==> r == Ok(VNum(left.n * right.n)))
      && (operator.kind == Slash && right.n != 0.0 ==> r == Ok(VNum(left.n / right.n)))
      && (operator.kind == Slash && right.n == 0.0 ==> r == Err(RuntimeError(operator, "Cannot divide by 0!")))
    ensures operator.kind == EqualEqual ==> r == Ok(VBool(left == right))
    ensures operator.kind == BangEqual ==> r == Ok(VBool(left != right))
    ensures operator.kind == Plus ==> r.Ok?
    ensures !NumericOperator(operator.kind) && operator.kind != Plus && operator.kind != EqualEqual && operator.kind != BangEqual
      ==> r == Ok(VNil)
  {
    var kind := operator.kind;
    if kind == BangEqual then Ok(VBool(!IsEqual(left, right)))
    else if kind == EqualEqual then Ok(VBool(IsEqual(left, right)))
    else if kind == Plus then
      if left.VNum? && right.VNum? then Ok(VNum(left.n + right.n))
      else if left.VStr? || right.VStr? then Ok(VStr(Stringify(left, numberText) + Stringify(right, numberText)))
      else Ok(VNil)
    else if !NumericOperator(kind) then Ok(VNil)
    else
      match CheckNumberOperands(operator, left, right)
      case Err(e) => Err(e)
      case Ok(_) =>
        if kind == Greater then Ok(VBool(left.n > right.n))
        else if kind == GreaterEqual then Ok(VBool(left.n >= right.n))
        else if kind == Less then Ok(VBool(left.n < right.n))
        else if kind == LessEqual then Ok(VBool(left.n <= right.n))
        else if kind == Minus then Ok(VNum(left.n - right.n))
        else if kind == Slash then
          if DivisorIsZero(right) then Err(RuntimeError(operator, "Cannot divide by 0!"))
          else Ok(VNum(left.n / right.n))
        else Ok(VNum(left.n * right.n))
  }

  /** `+` on two numbers is their sum; with a string on either side it concatenates display texts; otherwise nil. */
  lemma PlusCases(operator: Token, left: Value, right: Value, numberText: real -> string)
    requires operator.kind == Plus
    ensures left.VNum? && right.VNum? ==> ApplyBinary(operator, left, right, numberText) == Ok(VNum(left.n + right.n))
    ensures !(left.VNum? && right.VNum?) && (left.VStr? || right.VStr?) ==>
      ApplyBinary(operator, left, right, numberText) == Ok(VStr(Stringify(left, numberText) + Stringify(right, numberText)))
    ensures !(left.VNum? && right.VNum?) && !left.VStr? && !right.VStr? ==>
      ApplyBinary(operator, left, right, numberText) == Ok(VNil)
  {
  }

  /** `"a" + s` keeps the string on the left and appends the other operand's display text. */
  lemma ConcatenationKeepsStringOperand(operator: Token, s: string, other: Value, numberText: real -> string)
    requires operator.kind == Plus
    ensures ApplyBinary(operator, VStr(s), other, numberText) == Ok(VStr(s + Stringify(other, numberText)))
    ensures ApplyBinary(operator, other, VStr(s), numberText) == Ok(VStr(Stringify(other, numberText) + s))
  {
  }

  /** `/` raises "Cannot divide by 0!" exactly when two numbers meet a zero divisor, and divides otherwise. */
  lemma DivisionByZeroRaises(operator: Token, a: real, b: real, numberText: real -> string)
    requires operator.kind == Slash
    ensures b == 0.0 ==> ApplyBinary(operator, VNum(a), VNum(b), numberText) == Err(RuntimeError(operator, "Cannot divide by 0!"))
    ensures b != 0.0 ==> ApplyBinary(operator, VNum(a), VNum(b), numberText) == Ok(VNum(a / b))
  {
  }

  /** A number's text loses exactly its trailing ".0" in display: `1 + 2` prints as "3" when the host renders "3.0". */
  lemma IntegralNumbersPrintWithoutPointZero(n: real, digits: string, numberText: real -> string)
    requires numberText(n) == digits + ".0"
    ensures Stringify(VNum(n), numberText) == digits
  {
    assert EndsWithPointZero(numberText(n));
    assert StripPointZero(numberText(n)) + ".0" == digits + ".0";
  }

  // ----- The divisor guard as the source writes it -----

  /** The guard as written: `right.equals(0)` compares the operand with the Integer 0. */
  function DivisorGuardAsWritten(right: Value): (fires: bool)
    requires right != VNil
    ensures fires <==> Boxed(right) == JavaInteger(0)
  {
    JavaEquals(Boxed(right), JavaInteger(0))
  }

  /** The guard as written never fires: no Lox value is held as an Integer, so a zero divisor passes it. */
  lemma DivisorGuardAsWrittenNeverFires(right: Value)
    requires right != VNil
    ensures !DivisorGuardAsWritten(right)
  {
  }

  /** The input that shows it: dividing by the number zero passes the written guard but meets the intended one. */
  lemma DivisorGuardAsWrittenMissesZero(operator: Token, numberText: real -> string)
    requires operator.kind == Slash
    ensures !DivisorGuardAsWritten(VNum(0.0))
    ensures DivisorIsZero(VNum(0.0))
    ensures ApplyBinary(operator, VNum(1.0), VNum(0.0), numberText).Err?
  {
  }
}
