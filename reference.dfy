/**
  The intended meaning of a filter, defined node by node without the shared
  buffer and stack, and the proof that the visitor produces it whenever the
  tree uses the member-name stack in balance. Also: grouping parentheses
  balance, reuse of one instance across queries, and the quirks that follow
  from the shared buffer and stack.
*/
module Reference {
  import opened Wrappers
  import opened Expressions
  import opened Operators
  import opened Literals
  import opened Semantics

  /** Why a tree has no intended text: the visitor raises an exception, or the
      tree's member chains do not match the objects they walk, so the visitor
      would use the stack out of balance. */
  datatype Fault = Raised(err: Error) | PathMismatch

  /** The simple value reached from `v` by reading the members of `path`, root
      first: each name read off an object (its field if it has one, else its
      property), ending exactly when a simple value is reached. */
  function Resolve(v: Value, path: seq<string>): Result<Scalar, Fault>
    decreases |path|
  {
    match v
    case Null => Err(Raised(NullReference))
    case Simple(x) => if path == [] then Ok(x) else Err(PathMismatch)
    case Obj(fields, props) =>
      if path == [] then Err(PathMismatch)
      else if path[0] in fields then Resolve(fields[path[0]], path[1..])
      else if path[0] in props then Resolve(props[path[0]], path[1..])
      else Err(Raised(NullReference))
  }

  /** The filter text a tree stands for. */
  function Lower(e: Expr): Result<string, Fault> {
    match e
    case Binary(kind, left, right) =>
      (match Lower(left)
       case Err(f) => Err(f)
       case Ok(l) =>
         if kind !in LogicalOperators then Err(Raised(KeyNotFound(kind)))
         else
           match Lower(right)
           case Err(f) => Err(f)
           case Ok(r) => Ok("(" + l + " " + LogicalOperators[kind] + " " + r + ")"))
    case Unary(kind, operand) =>
      if kind != Not then Err(Raised(NotSupported))
      else
        (match Lower(operand)
         case Err(f) => Err(f)
         case Ok(o) => Ok("not (" + o + ")"))
    case Parameter => Ok("")
    case _ =>
      var (root, path) := Chain(e);
      if root.Constant? then
        (match Resolve(root.value, path)
         case Err(f) => Err(f)
         case Ok(x) => Ok(Encode(x)))
      else if |path| == 1 then Ok(path[0])
      else Err(PathMismatch)
  }

  /** GetValue walks a captured value along the names a chain pushed: with the
      path's root name on top it reads the path root first, and when the path
      ends exactly at a simple value it pops every name the chain pushed and
      no other, leaving the stack below untouched. */
  lemma {:induction false} GetValueFollowsPath(v: Value, path: seq<string>, below: seq<string>)
    ensures Resolve(v, path).Ok? ==>
      GetValue(v, below + Reversed(path)) == Popped(Ok(Encode(Resolve(v, path).value)), below)
    ensures Resolve(v, path).Err? && Resolve(v, path).error.Raised? ==>
      GetValue(v, below + Reversed(path)).text == Err(Resolve(v, path).error.err)
    decreases |path|
  {
    if v.Obj? && path != [] {
      var stack := below + Reversed(path);
      assert Reversed(path) == Reversed(path[1..]) + [path[0]];
      assert stack[|stack| - 1] == path[0];
      assert stack[..|stack| - 1] == below + Reversed(path[1..]);
      if path[0] in v.fields {
        GetValueFollowsPath(v.fields[path[0]], path[1..], below);
      } else if path[0] in v.props {
        GetValueFollowsPath(v.props[path[0]], path[1..], below);
      }
    }
  }

  /** The value reached from `v` by reading every member of `path` in turn,
      root first (a field before a property); None when a step meets null,
      a simple value, or a name the object does not have. */
  function Walk(v: Value, path: seq<string>): Option<Value>
    decreases |path|
  {
    if path == [] then Some(v)
    else match v
      case Obj(fields, props) =>
        if path[0] in fields then Walk(fields[path[0]], path[1..])
        else if path[0] in props then Walk(props[path[0]], path[1..])
        else None
      case _ => None
  }

  /** Whatever the walk reaches, GetValue continues from there with exactly
      the walked names popped: the names below them are untouched. */
  lemma {:induction false} WalkPops(v: Value, path: seq<string>, below: seq<string>)
    requires Walk(v, path).Some?
    ensures GetValue(v, below + Reversed(path)) == GetValue(Walk(v, path).value, below)
    decreases |path|
  {
    if path == [] {
      assert below + Reversed(path) == below;
    } else {
      var stack := below + Reversed(path);
      assert Reversed(path) == Reversed(path[1..]) + [path[0]];
      assert stack[|stack| - 1] == path[0];
      assert stack[..|stack| - 1] == below + Reversed(path[1..]);
      if path[0] in v.fields {
        WalkPops(v.fields[path[0]], path[1..], below);
      } else {
        WalkPops(v.props[path[0]], path[1..], below);
      }
    }
  }

  /** A chain too short for the objects it walks: when the pushed names run
      out at an object, the Pop on the empty stack throws, and every name the
      chain pushed has been consumed. */
  lemma StackRunsOut(v: Value, path: seq<string>)
    requires Walk(v, path).Some? && Walk(v, path).value.Obj?
    ensures GetValue(v, Reversed(path)) == Popped(Err(EmptyStack), [])
  {
    WalkPops(v, path, []);
    assert [] + Reversed(path) == Reversed(path);
  }

  /** A chain too long for the objects it walks: when a simple value (a
      string, say) is reached with names still pushed above it, its literal
      is written and those names stay on the stack. */
  lemma SimpleValueLeavesNames(v: Value, path: seq<string>, rest: seq<string>)
    requires Walk(v, path).Some? && Walk(v, path).value.Simple?
    ensures GetValue(v, rest + Reversed(path)) == Popped(Ok(Encode(Walk(v, path).value.x)), rest)
  {
    WalkPops(v, path, rest);
  }

  /** The visit of `e` from `st` matches the intended text: when `e` has one,
      the visit appends exactly that text and leaves the stack as it found it;
      when the intended meaning is an exception, the visit raises that
      exception, having only appended to the buffer. */
  predicate Refines(e: Expr, st: State) {
    && (Lower(e).Ok? ==> Visit(e, st) == Done(State(st.buf + Lower(e).value, st.stack)))
    && (Lower(e).Err? && Lower(e).error.Raised? ==>
          Visit(e, st).Threw? && Visit(e, st).err == Lower(e).error.err && st.buf <= Visit(e, st).st.buf)
  }

  /** The visitor produces the intended text, from any state. */
  lemma {:induction false} VisitRefinesLower(e: Expr, st: State)
    ensures Refines(e, st)
    decreases e
  {
    match e
    case Binary(kind, left, right) =>
      var st1 := st.(buf := st.buf + "(");
      VisitRefinesLower(left, st1);
      if Lower(left).Ok? && kind in LogicalOperators {
        VisitRefinesLower(right, State(st1.buf + Lower(left).value + " " + LogicalOperators[kind] + " ", st.stack));
      }
      BinaryRefines(kind, left, right, st);
    case Unary(kind, operand) =>
      if kind == Not {
        VisitRefinesLower(operand, st.(buf := st.buf + "not ("));
        NotRefines(operand, st);
      }
    case Parameter =>
    case Member(_, _) =>
      ChainRefines(e, st);
    case Constant(_) =>
      ChainRefines(e, st);
  }

  lemma BinaryRefines(kind: NodeType, left: Expr, right: Expr, st: State)
    requires Refines(left, st.(buf := st.buf + "("))
    requires Lower(left).Ok? && kind in LogicalOperators ==>
      Refines(right, State(st.buf + "(" + Lower(left).value + " " + LogicalOperators[kind] + " ", st.stack))
    ensures Refines(Binary(kind, left, right), st)
  {
    if Lower(left).Ok? && kind in LogicalOperators {
      var l, tok := Lower(left).value, LogicalOperators[kind];
      if Lower(right).Ok? {
        var r := Lower(right).value;
        var x := "(" + l;
        Assoc(st.buf, "(", l);
        Assoc(st.buf, x, " ");
        Assoc(st.buf, x + " ", tok);
        Assoc(st.buf, x + " " + tok, " ");
        Assoc(st.buf, x + " " + tok + " ", r);
        Assoc(st.buf, x + " " + tok + " " + r, ")");
      }
    }
  }

  lemma NotRefines(operand: Expr, st: State)
    requires Refines(operand, st.(buf := st.buf + "not ("))
    ensures Refines(Unary(Not, operand), st)
  {
    assert LogicalOperators[Not] == "not";
    assert st.buf + LogicalOperators[Not] + " " + "(" == st.buf + "not (";
    if Lower(operand).Ok? {
      var o := Lower(operand).value;
      Assoc(st.buf, "not (", o);
      Assoc(st.buf, "not (" + o, ")");
    }
  }

  lemma ChainRefines(e: Expr, st: State)
    requires e.Member? || e.Constant?
    ensures Refines(e, st)
  {
    var (root, path) := Chain(e);
    if e.Member? {
      VisitChain(e, st);
    } else {
      assert Reversed(path) == [];
      assert st.(stack := st.stack + Reversed(path)) == st;
    }
    if root.Constant? {
      GetValueFollowsPath(root.value, path, st.stack);
    }
  }

  /** A query on an instance with an empty buffer returns the intended text
      and leaves the instance as it found it, so the next query behaves as on
      a fresh instance. */
  lemma QueryReturnsLower(e: Expr, next: Expr, stack: seq<string>)
    requires Lower(e).Ok?
    ensures GetQuery(Lambda(e), State("", stack)) == (Ok(Lower(e).value), State("", stack))
    ensures GetQuery(Lambda(next), GetQuery(Lambda(e), State("", stack)).1) == GetQuery(Lambda(next), State("", stack))
  {
    VisitRefinesLower(e, State("", stack));
    assert "" + Lower(e).value == Lower(e).value;
  }

  /** Nesting depth at the end of `s`: opening minus closing parentheses. */
  function Depth(s: string): int {
    if s == [] then 0
    else Depth(s[..|s| - 1]) + (if s[|s| - 1] == '(' then 1 else if s[|s| - 1] == ')' then -1 else 0)
  }

  predicate ParenFree(s: string) {
    forall i | 0 <= i < |s| :: s[i] != '(' && s[i] != ')'
  }

  /** Every parenthesis closes one opened before it, and all are closed. */
  predicate Balanced(s: string) {
    Depth(s) == 0 && forall i | 0 <= i <= |s| :: Depth(s[..i]) >= 0
  }

  /** Wrapped in exactly one outer pair: the first character opens a group
      that closes only at the last character. */
  predicate Enclosed(s: string) {
    |s| >= 2 && Depth(s) == 0 && forall i | 1 <= i < |s| :: Depth(s[..i]) >= 1
  }

  lemma {:induction false} DepthConcat(a: string, b: string)
    ensures Depth(a + b) == Depth(a) + Depth(b)
    decreases |b|
  {
    if b == [] {
      assert a + b == a;
    } else {
      assert (a + b)[..|a + b| - 1] == a + b[..|b| - 1];
      DepthConcat(a, b[..|b| - 1]);
    }
  }

  lemma {:induction false} ParenFreeDepth(s: string)
    requires ParenFree(s)
    ensures Depth(s) == 0
    decreases |s|
  {
    if s != [] {
      ParenFreeDepth(s[..|s| - 1]);
    }
  }

  lemma ParenFreeBalanced(s: string)
    requires ParenFree(s)
    ensures Balanced(s)
  {
    forall i | 0 <= i <= |s| ensures Depth(s[..i]) >= 0 {
      ParenFreeDepth(s[..i]);
    }
    ParenFreeDepth(s);
  }

  lemma BalancedConcat(a: string, b: string)
    requires Balanced(a) && Balanced(b)
    ensures Balanced(a + b)
  {
    DepthConcat(a, b);
    forall i | 0 <= i <= |a + b| ensures Depth((a + b)[..i]) >= 0 {
      if i <= |a| {
        assert (a + b)[..i] == a[..i];
      } else {
        assert (a + b)[..i] == a + b[..i - |a|];
        DepthConcat(a, b[..i - |a|]);
      }
    }
  }

  lemma EncloseBalanced(x: string)
    requires Balanced(x)
    ensures Enclosed("(" + x + ")") && Balanced("(" + x + ")")
  {
    var t := "(" + x + ")";
    assert Depth("(") == 1 by { assert "("[..0] == []; }
    assert Depth(")") == -1 by { assert ")"[..0] == []; }
    DepthConcat("(", x);
    DepthConcat("(" + x, ")");
    forall i | 1 <= i < |t| ensures Depth(t[..i]) >= 1 {
      assert t[..i] == "(" + x[..i - 1];
      DepthConcat("(", x[..i - 1]);
    }
    assert t[..|t|] == t;
  }

  /** Every member name and literal in the tree is free of parentheses. */
  predicate LeavesParenFree(e: Expr) {
    match e
    case Binary(_, left, right) => LeavesParenFree(left) && LeavesParenFree(right)
    case Unary(_, operand) => LeavesParenFree(operand)
    case _ => Lower(e).Ok? ==> ParenFree(Lower(e).value)
  }

  /** Grouping is total: the text of every binary node is wrapped in exactly
      one pair of parentheses, that of a negation is "not " followed by one
      such pair, and at every depth the parentheses balance. */
  lemma {:induction false} LowerBalanced(e: Expr)
    requires LeavesParenFree(e) && Lower(e).Ok?
    ensures Balanced(Lower(e).value)
    ensures e.Binary? ==> Enclosed(Lower(e).value)
    ensures e.Unary? ==> Lower(e).value[..4] == "not " && Enclosed(Lower(e).value[4..])
    decreases e
  {
    match e
    case Binary(kind, left, right) =>
      LowerBalanced(left);
      LowerBalanced(right);
      TokensReadBack(kind);
      GroupBalanced(Lower(left).value, LogicalOperators[kind], Lower(right).value);
    case Unary(kind, operand) =>
      LowerBalanced(operand);
      assert LogicalOperators[Not] == "not";
      NegationBalanced(Lower(operand).value);
    case _ =>
      ParenFreeBalanced(Lower(e).value);
  }

  lemma GroupBalanced(l: string, tok: string, r: string)
    requires Balanced(l) && Balanced(r) && IsLowerWord(tok)
    ensures Balanced("(" + l + " " + tok + " " + r + ")") && Enclosed("(" + l + " " + tok + " " + r + ")")
  {
    ParenFreeBalanced(" ");
    ParenFreeBalanced(tok);
    BalancedConcat(l, " ");
    BalancedConcat(l + " ", tok);
    BalancedConcat(l + " " + tok, " ");
    BalancedConcat(l + " " + tok + " ", r);
    EncloseBalanced(l + " " + tok + " " + r);
    Assoc("(", l + " " + tok + " ", r);
    Assoc("(", l + " " + tok, " ");
    Assoc("(", l + " ", tok);
    Assoc("(", l, " ");
  }

  lemma NegationBalanced(o: string)
    requires Balanced(o)
    ensures Balanced("not (" + o + ")")
    ensures ("not (" + o + ")")[..4] == "not " && Enclosed(("not (" + o + ")")[4..])
  {
    EncloseBalanced(o);
    ParenFreeBalanced("not ");
    BalancedConcat("not ", "(" + o + ")");
    Assoc("not ", "(" + o, ")");
    Assoc("not ", "(", o);
    assert "not " + "(" == "not (";
    assert ("not " + ("(" + o + ")"))[4..] == "(" + o + ")";
  }

  /** One binary step of Lower once both operands are known. */
  lemma LowerBinary(kind: NodeType, left: Expr, right: Expr, l: string, r: string)
    requires Lower(left) == Ok(l) && Lower(right) == Ok(r) && kind in LogicalOperators
    ensures Lower(Binary(kind, left, right)) == Ok("(" + l + " " + LogicalOperators[kind] + " " + r + ")")
  {
  }

  /** Moving a middle part `d` out of nested concatenations. */
  lemma Sandwich(a: string, d: string, b: string, x: string, y: string)
    ensures x + (a + d + b) + y == (x + a) + d + (b + y)
  {
    Assoc(x, a + d, b);
    Assoc(x, a, d);
    Assoc(x + a + d, b, y);
  }

  /** The text of a binary node, with everything after its left operand in one piece. */
  lemma Grouped(l: string, tok: string, r: string)
    ensures "(" + l + " " + tok + " " + r + ")" == "(" + l + (" " + tok + " " + r + ")")
  {
    Assoc("(" + l, " " + tok + " " + r, ")");
    Assoc("(" + l, " " + tok + " ", r);
    Assoc("(" + l, " " + tok, " ");
    Assoc("(" + l, " ", tok);
  }

  /** A member of the lambda parameter lowers to its own name. */
  lemma LowerName(name: string)
    ensures Lower(Member(Parameter, name)) == Ok(name)
  {
    assert Chain(Member(Parameter, name)) == (Parameter, [name]);
  }

  /** x => x.A.B: "B" is pushed, then "A", the name nearest the parameter, is
      written, and "B" is left on the stack. */
  lemma DeepParameterChainLeavesName()
    ensures GetQuery(Lambda(Member(Member(Parameter, "A"), "B")), State("", [])) == (Ok("A"), State("", ["B"]))
  {
    assert [] + ["B"] == ["B"];
    assert "" + "A" == "A";
    assert Visit(Member(Parameter, "A"), State("", ["B"])) == Done(State("A", ["B"]));
  }

  /** A member of a captured string (s.Length): strings are not descended, so
      the string is written as a literal and "Length" stays on the stack. */
  lemma StringMemberLeavesName()
    ensures var closure := Obj(map["s" := Simple(Str("Tom"))], map[]);
      GetQuery(Lambda(Member(Member(Constant(closure), "s"), "Length")), State("", []))
        == (Ok("'Tom'"), State("", ["Length"]))
  {
    var closure := Obj(map["s" := Simple(Str("Tom"))], map[]);
    EncodeSamples();
    assert GetValue(closure, ["Length", "s"]) == Popped(Ok("'Tom'"), ["Length"]) by {
      assert ["Length", "s"][..1] == ["Length"];
      assert ["Length", "s"][1] == "s";
    }
    assert [] + ["Length"] + ["s"] == ["Length", "s"];
    assert "" + "'Tom'" == "'Tom'";
    assert Visit(Constant(closure), State("", ["Length", "s"])) == Done(State("'Tom'", ["Length"]));
  }

  /** A name left on the stack changes a later query: a captured object
      reached with nothing of its own to pop throws on a fresh instance, but
      after x.A.B it reads member "B". */
  lemma LeftoverNameChangesLaterQuery()
    ensures var o := Lambda(Constant(Obj(map["B" := Simple(Int(5))], map[])));
      && GetQuery(o, State("", [])) == (Err(EmptyStack), State("", []))
      && GetQuery(o, GetQuery(Lambda(Member(Member(Parameter, "A"), "B")), State("", [])).1) == (Ok("5"), State("", []))
  {
    DeepParameterChainLeavesName();
    var v := Obj(map["B" := Simple(Int(5))], map[]);
    assert GetValue(v, ["B"]) == Popped(Ok("5"), []) by {
      assert ["B"][..0] == [];
      assert Digits(5) == "5";
    }
    assert Visit(Constant(v), State("", ["B"])) == Done(State("5", []));
  }

  /** A query that throws keeps its partial text in the buffer, and the next
      query returns that text in front of its own. */
  lemma FailedQueryLeaksText()
    ensures var bad := Lambda(Binary(Add, Member(Parameter, "A"), Constant(Simple(Int(1)))));
      && GetQuery(bad, State("", [])) == (Err(KeyNotFound(Add)), State("(A", []))
      && GetQuery(Lambda(Member(Parameter, "B")), State("(A", [])) == (Ok("(AB"), State("", []))
  {
    assert "" + "(" == "(";
    assert Visit(Member(Parameter, "A"), State("(", [])) == Done(State("(A", []));
    assert Add !in LogicalOperators;
    assert Visit(Member(Parameter, "B"), State("(A", [])) == Done(State("(AB", []));
  }
}
