/**
  The expression trees the filter constructor walks: the node kinds of
  System.Linq.Expressions that reach its overridden visit methods, and the
  run-time values that constant nodes carry (captured closure objects and the
  simple values inside them).
*/
module Expressions {

  /** The node types (ExpressionType) that matter here: the eight with an
      operator token, and a representative set of the others, which a binary
      or unary node may also carry. */
  datatype NodeType =
    | Not | GreaterThan | GreaterThanOrEqual | LessThan | LessThanOrEqual
    | Equal | AndAlso | OrElse
    // binary node types without a token
    | NotEqual | Add | Subtract | Multiply | Divide | Modulo | And | Or | ExclusiveOr | Coalesce
    // unary node types other than Not
    | Negate | UnaryPlus | Convert | TypeAs | Quote | ArrayLength | OnesComplement

  /** A calendar date and time of day, already in UTC, with millisecond precision. */
  datatype DateParts = DateParts(
    year: int, month: int, day: int,
    hour: int, minute: int, second: int, millisecond: int)

  predicate IsLeapYear(y: int) {
    y % 4 == 0 && (y % 100 != 0 || y % 400 == 0)
  }

  function DaysInMonth(y: int, m: int): int {
    if m == 2 then (if IsLeapYear(y) then 29 else 28)
    else if m == 4 || m == 6 || m == 9 || m == 11 then 30
    else 31
  }

  /** The range a DateTime can hold: years 1 to 9999, real calendar days. */
  predicate ValidDate(d: DateParts) {
    && 1 <= d.year <= 9999
    && 1 <= d.month <= 12
    && 1 <= d.day <= DaysInMonth(d.year, d.month)
    && 0 <= d.hour < 24
    && 0 <= d.minute < 60
    && 0 <= d.second < 60
    && 0 <= d.millisecond < 1000
  }

  type DateTime = d: DateParts | ValidDate(d) witness DateParts(1, 1, 1, 0, 0, 0, 0)

  /** The "simple" values: those that are not class instances, plus string. */
  datatype Scalar =
    | Str(s: string)
    | Bool(b: bool)
    | Int(i: int)
    | Date(d: DateTime)

  /** A run-time value as a constant node holds it. An object exposes its
      public instance fields and its public properties by name. */
  datatype Value =
    | Null
    | Simple(x: Scalar)
    | Obj(fields: map<string, Value>, props: map<string, Value>)

  /** The body of a predicate lambda. `Parameter` is the lambda's own parameter
      (the entity being filtered); `Member(target, name)` is `target.name`. */
  datatype Expr =
    | Binary(kind: NodeType, left: Expr, right: Expr)
    | Unary(kind: NodeType, operand: Expr)
    | Member(target: Expr, name: string)
    | Constant(value: Value)
    | Parameter

  /** A predicate lambda `x => body`; only its body is visited. */
  datatype Lambda = Lambda(body: Expr)

  /** Whether the filter constructor follows a member access down into its
      target (and records the member's name) rather than emitting the name. */
  predicate Descends(target: Expr) {
    target.Constant? || target.Member?
  }

  /** The member chain that ends at `e`: the node where descent stops (a
      constant, or the target of the innermost member that does not descend)
      and the member names from that root outward. */
  function Chain(e: Expr): (c: (Expr, seq<string>))
    ensures e.Member? ==> |c.1| >= 1 && c.1[|c.1| - 1] == e.name
    ensures !e.Member? ==> c == (e, [])
    ensures !c.0.Member?
  {
    match e
    case Member(target, name) =>
      if Descends(target) then
        var inner := Chain(target);
        (inner.0, inner.1 + [name])
      else
        (target, [name])
    case _ => (e, [])
  }
}
