/** The static operator table: the token written for each supported node type. */
module Operators {
  import opened Wrappers
  import opened Expressions

  /** Node type to token. Not is listed twice in the initialiser; an indexer
      assignment simply overwrites, so the table has eight entries. */
  const LogicalOperators: map<NodeType, string> := map[
    Not := "not",
    GreaterThan := "gt",
    GreaterThanOrEqual := "ge",
    LessThan := "lt",
    LessThanOrEqual := "le",
    Equal := "eq",
    AndAlso := "and",
    OrElse := "or"
  ]

  predicate IsLowerWord(t: string) {
    |t| > 0 && forall i | 0 <= i < |t| :: 'a' <= t[i] <= 'z'
  }

  /** Reading a token back: the table is one-to-one, so a token names its node type. */
  function KindOf(token: string): (r: Option<NodeType>)
    ensures r.Some? ==> r.value in LogicalOperators && LogicalOperators[r.value] == token
    ensures r.None? ==> forall k | k in LogicalOperators :: LogicalOperators[k] != token
  {
    match token
    case "not" => Some(Not)
    case "gt" => Some(GreaterThan)
    case "ge" => Some(GreaterThanOrEqual)
    case "lt" => Some(LessThan)
    case "le" => Some(LessThanOrEqual)
    case "eq" => Some(Equal)
    case "and" => Some(AndAlso)
    case "or" => Some(OrElse)
    case _ => None
  }

  /** Every token in the table is a lower-case word, and it reads back to the
      node type it was written for. */
  lemma TokensReadBack(k: NodeType)
    requires k in LogicalOperators
    ensures IsLowerWord(LogicalOperators[k]) && KindOf(LogicalOperators[k]) == Some(k)
  {
  }
}
