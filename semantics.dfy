/**
  What the filter constructor does, as functions over its two instance fields:
  the text appended so far and the stack of pending member names. Visit,
  GetValue and GetQuery here follow the visit methods step by step, including
  what is left behind when an exception stops a visit part-way; the class in
  filter_constructor.dfy is proved to implement them, and reference.dfy proves
  what they mean.
*/
module Semantics {
  import opened Wrappers
  import opened Expressions
  import opened Operators
  import opened Literals

  /** The exceptions a visit can raise. */
  datatype Error =
    | NotSupported              // a unary node other than Not
    | KeyNotFound(kind: NodeType)  // a binary node type missing from the operator table
    | NullReference             // a null value, or a name that is neither field nor property
    | EmptyStack                // an object reached with no member name left to pop

  /** The instance fields: the query text built so far and the member-name
      stack, whose top is the LAST element. */
  datatype State = State(buf: string, stack: seq<string>)

  /** How a visit ends, with the state it leaves either way. */
  datatype Outcome = Done(st: State) | Threw(err: Error, st: State) {
    function Raised(): Option<Error> {
      if Threw? then Some(err) else None
    }
  }

  /** The text GetValue returns (or the exception it raises) and the stack it leaves. */
  datatype Popped = Popped(text: Result<string, Error>, stack: seq<string>)

  function Reversed(s: seq<string>): (r: seq<string>)
    ensures |r| == |s|
  {
    if s == [] then [] else Reversed(s[1..]) + [s[0]]
  }

  /** GetValue: a simple value is encoded; an object consumes the name on top
      of the stack, reading the field of that name if there is one and the
      property otherwise, and continues with what it read. It only ever pops,
      it raises only a null reference or an empty stack, and the latter only
      once every name is gone. */
  function GetValue(input: Value, stack: seq<string>): (p: Popped)
    ensures p.stack <= stack
    ensures p.text.Err? ==> p.text.error == NullReference || p.text.error == EmptyStack
    ensures p.text == Err(EmptyStack) ==> p.stack == []
    decreases |stack|
  {
    match input
    case Null => Popped(Err(NullReference), stack)
    case Simple(x) => Popped(Ok(Encode(x)), stack)
    case Obj(fields, props) =>
      if stack == [] then Popped(Err(EmptyStack), stack)
      else
        var name := stack[|stack| - 1];
        var rest := stack[..|stack| - 1];
        if name in fields then GetValue(fields[name], rest)
        else if name in props then GetValue(props[name], rest)
        else Popped(Err(NullReference), rest)
  }

  /** One visit of `e`, starting from state `st`. A visit only appends to the
      buffer, finished or not, and a missing table entry is the only cause of
      KeyNotFound. */
  function Visit(e: Expr, st: State): (o: Outcome)
    ensures st.buf <= o.st.buf
    ensures o.Threw? && o.err.KeyNotFound? ==> o.err.kind !in LogicalOperators
    decreases e
  {
    match e
    case Binary(kind, left, right) =>
      var l := Visit(left, st.(buf := st.buf + "("));
      if l.Threw? then l
      else if kind !in LogicalOperators then Threw(KeyNotFound(kind), l.st)
      else
        var r := Visit(right, l.st.(buf := l.st.buf + " " + LogicalOperators[kind] + " "));
        if r.Threw? then r else Done(r.st.(buf := r.st.buf + ")"))
    case Unary(kind, operand) =>
      if kind != Not then Threw(NotSupported, st)
      else
        var o := Visit(operand, st.(buf := st.buf + LogicalOperators[Not] + " " + "("));
        if o.Threw? then o else Done(o.st.(buf := o.st.buf + ")"))
    case Member(target, name) =>
      if Descends(target) then Visit(target, st.(stack := st.stack + [name]))
      else Done(st.(buf := st.buf + name))
    case Constant(value) =>
      var p := GetValue(value, st.stack);
      if p.text.Ok? then Done(State(st.buf + p.text.value, p.stack))
      else Threw(p.text.error, st.(stack := p.stack))
    case Parameter => Done(st)
  }

  /** GetQuery: visit the body, then hand back the whole buffer and clear it.
      An exception leaves the buffer as it was when the exception was raised.
      Either way the text already in the buffer comes first. */
  function GetQuery(filter: Lambda, st: State): (q: (Result<string, Error>, State))
    ensures q.0.Ok? ==> st.buf <= q.0.value && q.1.buf == ""
    ensures q.0.Err? ==> st.buf <= q.1.buf
  {
    match Visit(filter.body, st)
    case Done(s) => (Ok(s.buf), s.(buf := ""))
    case Threw(x, s) => (Err(x), s)
  }

  /** A visit from an empty buffer: only what the visit itself appends. */
  function Fresh(e: Expr, stack: seq<string>): Outcome {
    Visit(e, State("", stack))
  }

  function Prefixed(b: string, o: Outcome): Outcome {
    match o
    case Done(s) => Done(s.(buf := b + s.buf))
    case Threw(x, s) => Threw(x, s.(buf := b + s.buf))
  }

  /** A visit only appends: what it appends, what it leaves on the stack and
      whether it throws do not depend on the text already in the buffer. */
  lemma {:induction false} BufferFrame(e: Expr, b: string, stack: seq<string>)
    ensures Visit(e, State(b, stack)) == Prefixed(b, Fresh(e, stack))
    decreases e
  {
    match e
    case Binary(kind, left, right) =>
      BufferFrame(left, b + "(", stack);
      BufferFrame(left, "(", stack);
      var l := Fresh(left, stack);
      if l.Done? && kind in LogicalOperators {
        var tok := LogicalOperators[kind];
        BufferFrame(right, b + "(" + l.st.buf + " " + tok + " ", l.st.stack);
        BufferFrame(right, "(" + l.st.buf + " " + tok + " ", l.st.stack);
      }
      BinaryFrame(kind, left, right, b, stack);
    case Unary(kind, operand) =>
      if kind == Not {
        BufferFrame(operand, b + "not (", stack);
        BufferFrame(operand, "not (", stack);
        NotFrame(operand, b, stack);
      }
    case Member(target, name) =>
      if Descends(target) {
        BufferFrame(target, b, stack + [name]);
      }
    case Constant(value) =>
    case Parameter =>
  }

  lemma Assoc(a: string, b: string, c: string)
    ensures a + (b + c) == a + b + c
  {
  }

  /** The step of BufferFrame for a binary node, given the frame property of its operands. */
  lemma BinaryFrame(kind: NodeType, left: Expr, right: Expr, b: string, stack: seq<string>)
    requires Visit(left, State(b + "(", stack)) == Prefixed(b + "(", Fresh(left, stack))
    requires Visit(left, State("(", stack)) == Prefixed("(", Fresh(left, stack))
    requires var l := Fresh(left, stack);
      l.Done? && kind in LogicalOperators ==>
        var tok := LogicalOperators[kind];
        && Visit(right, State(b + "(" + l.st.buf + " " + tok + " ", l.st.stack))
           == Prefixed(b + "(" + l.st.buf + " " + tok + " ", Fresh(right, l.st.stack))
        && Visit(right, State("(" + l.st.buf + " " + tok + " ", l.st.stack))
           == Prefixed("(" + l.st.buf + " " + tok + " ", Fresh(right, l.st.stack))
    ensures Visit(Binary(kind, left, right), State(b, stack)) == Prefixed(b, Fresh(Binary(kind, left, right), stack))
  {
    assert "" + "(" == "(";
    var l := Fresh(left, stack);
    Assoc(b, "(", l.st.buf);
    if l.Done? && kind in LogicalOperators {
      var tok := LogicalOperators[kind];
      var r := Fresh(right, l.st.stack);
      var x := "(" + l.st.buf;
      Assoc(b, x, " ");
      Assoc(b, x + " ", tok);
      Assoc(b, x + " " + tok, " ");
      Assoc(b, x + " " + tok + " ", r.st.buf);
      Assoc(b, x + " " + tok + " " + r.st.buf, ")");
    }
  }

  /** The step of BufferFrame for a negation, given the frame property of its operand. */
  lemma NotFrame(operand: Expr, b: string, stack: seq<string>)
    requires Visit(operand, State(b + "not (", stack)) == Prefixed(b + "not (", Fresh(operand, stack))
    requires Visit(operand, State("not (", stack)) == Prefixed("not (", Fresh(operand, stack))
    ensures Visit(Unary(Not, operand), State(b, stack)) == Prefixed(b, Fresh(Unary(Not, operand), stack))
  {
    assert LogicalOperators[Not] == "not";
    assert b + LogicalOperators[Not] + " " + "(" == b + "not (";
    assert "" + LogicalOperators[Not] + " " + "(" == "not (";
    var o := Fresh(operand, stack);
    Assoc(b, "not (", o.st.buf);
    Assoc(b, "not (" + o.st.buf, ")");
  }

  /** A binary node appends "(", its left operand, the token between single
      spaces, its right operand and ")". A node type missing from the table
      throws after "(" and the left operand are already in the buffer. */
  lemma BinaryAppends(kind: NodeType, left: Expr, right: Expr, st: State)
    ensures var l := Fresh(left, st.stack);
      && (l.Threw? ==>
            Visit(Binary(kind, left, right), st) == Threw(l.err, State(st.buf + "(" + l.st.buf, l.st.stack)))
      && (l.Done? && kind !in LogicalOperators ==>
            Visit(Binary(kind, left, right), st) == Threw(KeyNotFound(kind), State(st.buf + "(" + l.st.buf, l.st.stack)))
    ensures var l := Fresh(left, st.stack);
      l.Done? && kind in LogicalOperators ==>
        var r := Fresh(right, l.st.stack);
        var body := st.buf + "(" + l.st.buf + " " + LogicalOperators[kind] + " " + r.st.buf;
        Visit(Binary(kind, left, right), st) ==
          if r.Done? then Done(State(body + ")", r.st.stack)) else Threw(r.err, State(body, r.st.stack))
  {
    var l := Fresh(left, st.stack);
    BufferFrame(left, st.buf + "(", st.stack);
    if l.Done? && kind in LogicalOperators {
      var before := st.buf + "(" + l.st.buf + " " + LogicalOperators[kind] + " ";
      BufferFrame(right, before, l.st.stack);
    }
  }

  /** Negation appends "not (", its operand and ")"; any other unary node type
      throws before anything is appended. */
  lemma UnaryAppends(kind: NodeType, operand: Expr, st: State)
    ensures kind != Not ==> Visit(Unary(kind, operand), st) == Threw(NotSupported, st)
    ensures kind == Not ==>
      var o := Fresh(operand, st.stack);
      Visit(Unary(kind, operand), st) ==
        if o.Done? then Done(State(st.buf + "not (" + o.st.buf + ")", o.st.stack))
        else Threw(o.err, State(st.buf + "not (" + o.st.buf, o.st.stack))
  {
    if kind == Not {
      assert LogicalOperators[Not] == "not";
      assert st.buf + LogicalOperators[Not] + " " + "(" == st.buf + "not (";
      BufferFrame(operand, st.buf + "not (", st.stack);
    }
  }

  /** A member chain: each member that descends pushes its name before its
      target is visited, so the names go on leaf first and the root's name
      ends on top. A chain rooted at a constant then resolves that constant
      against the pushed names; any other chain appends the name of the member
      nearest its root and leaves the names of the members above it on the stack. */
  lemma {:induction false} VisitChain(e: Expr, st: State)
    requires e.Member?
    ensures var (root, path) := Chain(e);
      root.Constant? ==> Visit(e, st) == Visit(root, st.(stack := st.stack + Reversed(path)))
    ensures var (root, path) := Chain(e);
      !root.Constant? ==> Visit(e, st) == Done(State(st.buf + path[0], st.stack + Reversed(path[1..])))
    decreases e
  {
    var target, name := e.target, e.name;
    assert e == Member(target, name);
    if Descends(target) {
      var pushed := st.(stack := st.stack + [name]);
      if target.Member? {
        VisitChain(target, pushed);
        var (root, inner) := Chain(target);
        assert Chain(e) == (root, inner + [name]);
        assert (inner + [name])[1..] == inner[1..] + [name];
        ReversedSnoc(inner, name);
        ReversedSnoc(inner[1..], name);
        assert st.stack + [name] + Reversed(inner) == st.stack + Reversed(inner + [name]);
        assert st.stack + [name] + Reversed(inner[1..]) == st.stack + Reversed((inner + [name])[1..]);
      } else {
        assert Chain(target) == (target, []);
        assert [] + [name] == [name];
        assert Chain(e) == (target, [name]);
        assert Reversed([name]) == [name];
      }
    }
  }

  lemma {:induction false} ReversedSnoc(s: seq<string>, x: string)
    ensures Reversed(s + [x]) == [x] + Reversed(s)
  {
    if s != [] {
      assert (s + [x])[1..] == s[1..] + [x];
      ReversedSnoc(s[1..], x);
    }
  }

  /** A query that finishes returns the text left in the buffer by earlier
      failed queries followed by what this visit appended; one that throws
      returns nothing and keeps its partial text for the next query. */
  lemma QueryText(filter: Lambda, st: State)
    ensures var o := Fresh(filter.body, st.stack);
      GetQuery(filter, st) ==
        if o.Done? then (Ok(st.buf + o.st.buf), State("", o.st.stack))
        else (Err(o.err), State(st.buf + o.st.buf, o.st.stack))
  {
    BufferFrame(filter.body, st.buf, st.stack);
  }
}
