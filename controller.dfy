/**
  The sample controller: its Get action builds the filter
  x => (x.Customer == order.Customer && x.Amount > order.Amount) || (x.TheDate == date && !x.Dicount)
  over a captured order and date, and asks a new filter constructor for its
  query. The captured order is a value with properties Customer = "Tom" and
  Amount = 1000; the date is a parameter, since the action reads the clock.
*/
module ExpressionTestController {
  import opened Wrappers
  import opened Expressions
  import opened Operators
  import opened Literals
  import opened Semantics
  import opened Reference
  import FilterConstructors

  /** The Get action, without its console output: a new constructor turns the
      sample filter into the expected query text. */
  method Get(date: DateTime) returns (query: Result<string, Error>)
    ensures query == Ok("(" + "((Customer eq 'Tom') and (Amount gt 1000))" + " or "
      + "((TheDate eq datetime'" + DateText(date) + "') and not (Dicount))" + ")")
  {
    var visitor := new FilterConstructors.FilterConstructor();
    query := visitor.GetQuery(Lambda(SampleFilter(date)));
    SampleQuery(date);
  }

  /** The captured values of the sample controller: an order with properties
      Customer and Amount, and a date, held in the closure's fields. */
  function SampleClosure(date: DateTime): Value {
    var order := Obj(map[], map["Customer" := Simple(Str("Tom")), "Amount" := Simple(Int(1000))]);
    Obj(map["order" := order, "date" := Simple(Date(date))], map[])
  }

  /** x => (x.Customer == order.Customer && x.Amount > order.Amount) || (x.TheDate == date && !x.Dicount) */
  function SampleFilter(date: DateTime): Expr {
    Binary(OrElse, SampleLeft(date), SampleRight(date))
  }

  function SampleLeft(date: DateTime): Expr {
    var order := Member(Constant(SampleClosure(date)), "order");
    Binary(AndAlso,
      Binary(Equal, Member(Parameter, "Customer"), Member(order, "Customer")),
      Binary(GreaterThan, Member(Parameter, "Amount"), Member(order, "Amount")))
  }

  function SampleRight(date: DateTime): Expr {
    Binary(AndAlso,
      Binary(Equal, Member(Parameter, "TheDate"), Member(Constant(SampleClosure(date)), "date")),
      Unary(Not, Member(Parameter, "Dicount")))
  }

  /** The sample filter compiles to the expected text, and the instance is
      left empty for its next query. The text is written in the pieces of
      its outermost `or`. */
  lemma SampleQuery(date: DateTime)
    ensures GetQuery(Lambda(SampleFilter(date)), State("", [])) ==
      (Ok("(" + "((Customer eq 'Tom') and (Amount gt 1000))" + " or "
            + "((TheDate eq datetime'" + DateText(date) + "') and not (Dicount))" + ")"),
       State("", []))
  {
    SampleLower(date);
    QueryReturnsLower(SampleFilter(date), Parameter, []);
  }

  lemma SampleLower(date: DateTime)
    ensures Lower(SampleFilter(date)) ==
      Ok("(" + "((Customer eq 'Tom') and (Amount gt 1000))" + " or "
            + "((TheDate eq datetime'" + DateText(date) + "') and not (Dicount))" + ")")
  {
    var t := DateText(date);
    var left := "((Customer eq 'Tom') and (Amount gt 1000))";
    var right := "((TheDate eq datetime'" + t + "') and not (Dicount))";
    SampleLeftText(date);
    SampleRightText(date);
    assert LogicalOperators[OrElse] == "or";
    LowerBinary(OrElse, SampleLeft(date), SampleRight(date), left, right);
    var x := "(" + left;
    Assoc(x, " ", "or");
    Assoc(x, " " + "or", " ");
    assert " " + "or" + " " == " or ";
    var y := x + " or ";
    assert Lower(SampleFilter(date)) == Ok(y + right + ")");
    Assoc(y, "((TheDate eq datetime'" + t, "') and not (Dicount))");
    Assoc(y, "((TheDate eq datetime'", t);
  }

  /** The captured members of the sample resolve to their literals. */
  lemma SampleMembers(date: DateTime)
    ensures var captured := Constant(SampleClosure(date));
      && Lower(Member(Member(captured, "order"), "Customer")) == Ok("'Tom'")
      && Lower(Member(Member(captured, "order"), "Amount")) == Ok("1000")
      && Lower(Member(captured, "date")) == Ok(Encode(Date(date)))
  {
    var captured := Constant(SampleClosure(date));
    var order := Member(captured, "order");
    assert Chain(captured) == (captured, []);
    assert Chain(order) == (captured, ["order"]) by {
      assert [] + ["order"] == ["order"];
    }
    assert Chain(Member(order, "Amount")) == (captured, ["order", "Amount"]) by {
      assert ["order"] + ["Amount"] == ["order", "Amount"];
    }
    assert Chain(Member(order, "Customer")) == (captured, ["order", "Customer"]) by {
      assert ["order"] + ["Customer"] == ["order", "Customer"];
    }
    assert Chain(Member(captured, "date")) == (captured, ["date"]) by {
      assert [] + ["date"] == ["date"];
    }
    EncodeSamples();
    assert Resolve(SampleClosure(date), ["order", "Amount"]) == Ok(Int(1000));
    assert Resolve(SampleClosure(date), ["order", "Customer"]) == Ok(Str("Tom"));
    assert Resolve(SampleClosure(date), ["date"]) == Ok(Date(date));
  }

  lemma SampleLeftText(date: DateTime)
    ensures Lower(SampleLeft(date)) == Ok("((Customer eq 'Tom') and (Amount gt 1000))")
  {
    SampleMembers(date);
    var order := Member(Constant(SampleClosure(date)), "order");
    assert LogicalOperators[Equal] == "eq" && LogicalOperators[GreaterThan] == "gt" && LogicalOperators[AndAlso] == "and";
    var customer := Binary(Equal, Member(Parameter, "Customer"), Member(order, "Customer"));
    var amount := Binary(GreaterThan, Member(Parameter, "Amount"), Member(order, "Amount"));
    LowerName("Customer");
    LowerName("Amount");
    LeftLiterals();
    AndLiteral();
    LowerBinary(Equal, Member(Parameter, "Customer"), Member(order, "Customer"), "Customer", "'Tom'");
    LowerBinary(GreaterThan, Member(Parameter, "Amount"), Member(order, "Amount"), "Amount", "1000");
    LowerBinary(AndAlso, customer, amount, "(Customer eq 'Tom')", "(Amount gt 1000)");
  }

  lemma SampleRightText(date: DateTime)
    ensures Lower(SampleRight(date)) == Ok("((TheDate eq datetime'" + DateText(date) + "') and not (Dicount))")
  {
    SampleMembers(date);
    var d := Encode(Date(date));
    assert LogicalOperators[Equal] == "eq" && LogicalOperators[AndAlso] == "and";
    var theDate := Binary(Equal, Member(Parameter, "TheDate"), Member(Constant(SampleClosure(date)), "date"));
    var notDiscount := Unary(Not, Member(Parameter, "Dicount"));
    LowerName("TheDate");
    LowerName("Dicount");
    RightLiterals();
    DateLiterals();
    LowerBinary(Equal, Member(Parameter, "TheDate"), Member(Constant(SampleClosure(date)), "date"), "TheDate", d);
    assert Lower(theDate) == Ok("(TheDate eq " + d + ")");
    assert Lower(notDiscount) == Ok("not (Dicount)");
    LowerBinary(AndAlso, theDate, notDiscount, "(TheDate eq " + d + ")", "not (Dicount)");
    Grouped("(TheDate eq " + d + ")", "and", "not (Dicount)");
    Sandwich("(TheDate eq ", d, ")", "(", " and not (Dicount))");
    assert d == "datetime'" + DateText(date) + "'";
    Sandwich("datetime'", DateText(date), "'", "((TheDate eq ", ") and not (Dicount))");
  }

  // Proved inside the lemma that uses them, these literal concatenations
  // would cost the solver far more, so each is a lemma of its own.

  lemma LeftLiterals()
    ensures "(" + "Customer" + " " + "eq" + " " + "'Tom'" + ")" == "(Customer eq 'Tom')"
    ensures "(" + "Amount" + " " + "gt" + " " + "1000" + ")" == "(Amount gt 1000)"
  {
  }

  lemma AndLiteral()
    ensures "(" + "(Customer eq 'Tom')" + " " + "and" + " " + "(Amount gt 1000)" + ")"
      == "((Customer eq 'Tom') and (Amount gt 1000))"
  {
    assert "(" + "(Customer eq 'Tom')" == "((Customer eq 'Tom')";
    assert "((Customer eq 'Tom')" + " " == "((Customer eq 'Tom') ";
    assert "((Customer eq 'Tom') " + "and" == "((Customer eq 'Tom') and";
    assert "((Customer eq 'Tom') and" + " " == "((Customer eq 'Tom') and ";
    assert "((Customer eq 'Tom') and " + "(Amount gt 1000)" == "((Customer eq 'Tom') and (Amount gt 1000)";
  }

  lemma RightLiterals()
    ensures "(" + "TheDate" + " " + "eq" + " " == "(TheDate eq "
    ensures "not (" + "Dicount" + ")" == "not (Dicount)"
    ensures " " + "and" + " " + "not (Dicount)" + ")" == " and not (Dicount))"
    ensures "(" + "(TheDate eq " == "((TheDate eq "
    ensures ")" + " and not (Dicount))" == ") and not (Dicount))"
  {
    assert "(" + "TheDate" == "(TheDate";
    assert "(TheDate" + " " == "(TheDate ";
    assert "(TheDate " + "eq" == "(TheDate eq";
    assert " " + "and" == " and";
    assert " and" + " " == " and ";
    assert " and " + "not (Dicount)" == " and not (Dicount)";
  }

  lemma DateLiterals()
    ensures "((TheDate eq " + "datetime'" == "((TheDate eq datetime'"
    ensures "'" + ") and not (Dicount))" == "') and not (Dicount))"
  {
  }
}
