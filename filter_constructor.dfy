/**
  The visitor itself: an object holding the query text built so far and the
  stack of member names still to be resolved, whose visit methods append to
  the one and push and pop the other in place. Each method is proved to do
  exactly what the function of the same name in module Semantics describes,
  starting from the fields as they were on entry; an exception the source
  raises is returned as `Some(error)` and stops the caller at the same point
  the exception would.
*/
module FilterConstructors {
  import opened Wrappers
  import opened Expressions
  import opened Operators
  import opened Literals
  import Semantics

  class FilterConstructor {
    /** The query string builder. */
    var builder: string
    /** The member-name stack; its top is the last element. */
    var fieldNames: seq<string>

    constructor()
      ensures builder == "" && fieldNames == []
    {
      builder := "";
      fieldNames := [];
    }

    /** Both fields as a value. */
    function Snapshot(): Semantics.State
      reads this
    {
      Semantics.State(builder, fieldNames)
    }

    /** Visits the lambda's body, then returns the whole buffer and clears it.
        When the visit raises, nothing is cleared. */
    method GetQuery(filter: Lambda) returns (r: Result<string, Semantics.Error>)
      modifies this
      ensures (r, Snapshot()) == Semantics.GetQuery(filter, old(Snapshot()))
    {
      var err := Visit(filter.body);
      if err.Some? {
        return Err(err.value);
      }
      var query := builder;
      builder := "";
      return Ok(query);
    }

    /** Dispatches on the node type, as the base visitor does. */
    method Visit(node: Expr) returns (err: Option<Semantics.Error>)
      modifies this
      ensures Snapshot() == Semantics.Visit(node, old(Snapshot())).st
      ensures err == Semantics.Visit(node, old(Snapshot())).Raised()
      decreases node, 1
    {
      match node
      case Binary(_, _, _) => err := VisitBinary(node);
      case Unary(_, _) => err := VisitUnary(node);
      case Member(_, _) => err := VisitMember(node);
      case Constant(_) => err := VisitConstant(node);
      case Parameter => err := None;
    }

    /** Only `not` is supported: "not (" operand ")". */
    method VisitUnary(node: Expr) returns (err: Option<Semantics.Error>)
      requires node.Unary?
      modifies this
      ensures Snapshot() == Semantics.Visit(node, old(Snapshot())).st
      ensures err == Semantics.Visit(node, old(Snapshot())).Raised()
      decreases node, 0
    {
      if node.kind != Not {
        return Some(Semantics.NotSupported);
      }
      builder := builder + LogicalOperators[Not] + " ";
      builder := builder + "(";
      err := Visit(node.operand);
      if err.Some? {
        return;
      }
      builder := builder + ")";
    }

    /** "(" left " token " right ")"; the token lookup raises for a node type
        missing from the operator table, after the left operand is written. */
    method VisitBinary(node: Expr) returns (err: Option<Semantics.Error>)
      requires node.Binary?
      modifies this
      ensures Snapshot() == Semantics.Visit(node, old(Snapshot())).st
      ensures err == Semantics.Visit(node, old(Snapshot())).Raised()
      decreases node, 0
    {
      builder := builder + "(";
      err := Visit(node.left);
      if err.Some? {
        return;
      }
      if node.kind !in LogicalOperators {
        return Some(Semantics.KeyNotFound(node.kind));
      }
      builder := builder + " " + LogicalOperators[node.kind] + " ";
      err := Visit(node.right);
      if err.Some? {
        return;
      }
      builder := builder + ")";
    }

    /** A member of a constant or of another member pushes its name and visits
        its target; any other member writes its own name. */
    method VisitMember(node: Expr) returns (err: Option<Semantics.Error>)
      requires node.Member?
      modifies this
      ensures Snapshot() == Semantics.Visit(node, old(Snapshot())).st
      ensures err == Semantics.Visit(node, old(Snapshot())).Raised()
      decreases node, 0
    {
      if Descends(node.target) {
        fieldNames := fieldNames + [node.name];
        err := Visit(node.target);
      } else {
        builder := builder + node.name;
        err := None;
      }
    }

    /** Writes the text of the constant's value. */
    method VisitConstant(node: Expr) returns (err: Option<Semantics.Error>)
      requires node.Constant?
      modifies this
      ensures Snapshot() == Semantics.Visit(node, old(Snapshot())).st
      ensures err == Semantics.Visit(node, old(Snapshot())).Raised()
      decreases node, 0
    {
      var text := GetValue(node.value);
      if text.Err? {
        return Some(text.error);
      }
      builder := builder + text.value;
      err := None;
    }

    /** An object pops a name and continues with the field of that name, or
        else the property of that name; a simple value is converted to text. */
    method GetValue(input: Value) returns (r: Result<string, Semantics.Error>)
      modifies this
      ensures builder == old(builder)
      ensures Semantics.Popped(r, fieldNames) == Semantics.GetValue(input, old(fieldNames))
      decreases |fieldNames|
    {
      match input
      case Null =>
        return Err(Semantics.NullReference);
      case Simple(x) =>
        return Ok(Encode(x));
      case Obj(fields, props) =>
        if fieldNames == [] {
          return Err(Semantics.EmptyStack);
        }
        var fieldName := fieldNames[|fieldNames| - 1];
        fieldNames := fieldNames[..|fieldNames| - 1];
        var value: Value;
        if fieldName in fields {
          value := fields[fieldName];
        } else if fieldName in props {
          value := props[fieldName];
        } else {
          return Err(Semantics.NullReference);
        }
        r := GetValue(value);
    }
  }
}
