# FilterConstructor, modelled in Dafny

`FilterConstructor` is an expression-tree visitor. It turns a C# predicate
lambda such as

    x => (x.Customer == order.Customer && x.Amount > order.Amount) || (x.TheDate == date && !x.Dicount)

into a `$filter` text in the style of the OData URI conventions:

    (((Customer eq 'Tom') and (Amount gt 1000)) or ((TheDate eq datetime'…') and not (Dicount)))

The visitor holds two instance fields:
- a string builder, which every visit method appends to;
- a stack of member names. A member access on a captured value pushes its name on this stack. `GetValue` pops the names again while it walks the captured closure object down to a simple value.

Simple values are written with a small set of type converters:
- strings are quoted, without escaping;
- booleans are written in lower case;
- dates use the `datetime'yyyy-MM-ddTHH:mm:ss.fffZ'` form;
- anything else uses `ToString`.

The project has these modules:

- `Expressions` (expressions.dfy) holds the shapes the visitor meets:
  - node types, with the eight supported ones and a set of unsupported ones;
  - expression trees;
  - run-time values. A captured object exposes its fields and properties as two maps;
  - dates as UTC component records.
  - `Chain` gives the member chain under a member access.
- `Operators` (operators.dfy) holds the operator table and its inverse.
- `Literals` (literals.dfy) holds the type converters. A parser for the literals they produce serves as their partner.
- `Semantics` (semantics.dfy) holds the visit methods as functions over the pair (buffer, stack). Each exception is an `Error` value, and the state the exception leaves behind is kept.
- `Reference` (reference.dfy) holds `Lower`, a compositional definition of the text a tree stands for. It proves that the visitor produces that text. It also proves the parenthesis properties and the quirks that come from the shared buffer and stack.
- `FilterConstructors` (filter_constructor.dfy) holds the class itself. Each method updates `builder` and `fieldNames` in place and is proved to follow `Semantics`. An exception is returned as an error value, and the caller stops where the exception would stop it.
- `ExpressionTestController` (controller.dfy) holds the sample controller's `Get` action and the worked example.

State is shared between queries:
- The builder is cleared only after a visit that finishes (FilterConstructor.cs:55-57).
- Nothing resets the stack.
- Text appended before an exception stays in the builder. The next successful query returns it in front of its own text (`Reference.FailedQueryLeaksText`).
- Names left on the stack are read by a later query (`Reference.LeftoverNameChangesLaterQuery`).

A member chain does not always pop every name it pushed:
- A chain off the lambda parameter that is deeper than one hop leaves names on the stack (`Reference.DeepParameterChainLeavesName`).
- A chain that reaches a simple value, such as a captured string, before its names run out writes that value and leaves the remaining names on the stack (`Reference.SimpleValueLeavesNames`, `Reference.StringMemberLeavesName`).
- A chain that runs out of names at an object throws on the empty stack (`Reference.StackRunsOut`).
- `Reference.Lower` marks all three cases as `PathMismatch`.

Two smaller points:
- The operator table's initialiser lists `Not` twice. The indexer overwrites the first entry with the same value, so the table has eight entries.
- A string literal is quoted without escaping. `'` inside a string therefore reaches the filter text unchanged. `Literals.EncodeRoundTrip` holds anyway, because the decoder takes everything between the first and the last quote.

## Model

| member | source | states |
|---|---|---|
| Operators.KindOf | FilterConstructor.cs:12-22 | A token names at most one node type. The node type it returns maps to that token, and when it returns nothing, no entry of the table has that token. |
| Operators.TokensReadBack | FilterConstructor.cs:12-22 | Every token in the table is a lower-case word that reads back to the node type it was written for. |
| Expressions.Chain | FilterConstructor.cs:124-130 | The chain under a member ends with that member's own name. Its root is never a member access. Anything that is not a member access is its own root, with no names. |
| Literals.Padded | FilterConstructor.cs:31 | A zero-padded field has exactly the requested width and only digits. |
| Literals.Digits | FilterConstructor.cs:165 | The decimal text of a natural number is non-empty and all digits. |
| Literals.IntTextRoundTrip | FilterConstructor.cs:165 | The ToString text of an integer, with a leading '-' when it is negative, reads back to the same integer. |
| Literals.DateTextRoundTrip | FilterConstructor.cs:30-31 | The yyyy-MM-ddTHH:mm:ss.fffZ text of a date is 24 characters long and reads back to the same date and time. |
| Literals.EncodeRoundTrip | FilterConstructor.cs:28-33 | Every literal the converters produce decodes to the value it came from: a quoted string, true/false, a datetime'…' literal or an integer. |
| Literals.EncodeInjective | FilterConstructor.cs:161-165 | Two different modelled values (dates to the millisecond, integers by value) never produce the same literal. |
| Literals.EncodeSamples | FilterConstructor.cs:29-32 | A string is quoted ('Tom'). A boolean is lower-case (false, true). An integer is plain decimal (1000, -7). |
| Literals.DateTextSample | FilterConstructor.cs:31 | 2024-01-02 03:04:05.678 is written 2024-01-02T03:04:05.678Z. Every field is zero-padded to its width. |
| Semantics.BufferFrame | FilterConstructor.cs:62-142 | A visit depends on the builder's earlier text only as a prefix. What it appends, the stack it leaves and whether it throws are the same for any earlier text. |
| Semantics.Visit | FilterConstructor.cs:62-142 | Its own contract: after any visit, finished or thrown, the builder starts with its text from before the visit, and KeyNotFound is raised only for a node type missing from the table. Its full behaviour is stated by Semantics.BufferFrame, Semantics.BinaryAppends, Semantics.UnaryAppends, Semantics.VisitChain and Reference.VisitRefinesLower. |
| Semantics.GetValue | FilterConstructor.cs:144-167 | Its own contract: it only pops, so the stack it leaves is a prefix of the one it was given; it raises only NullReference or EmptyStack; and EmptyStack comes only once every name is gone. Its walk is stated by Reference.GetValueFollowsPath and Reference.WalkPops. |
| Semantics.GetQuery | FilterConstructor.cs:46-60 | Its own contract: the text already in the builder comes first, in the returned query or in the builder after a throw, and a query that returns text leaves the builder empty. Its exact result is stated by Semantics.QueryText and Reference.QueryReturnsLower. |
| Literals.Encode | FilterConstructor.cs:161-165 | Its own contract: a literal is never empty, it starts with a quote exactly when it came from a string, and with a sign or digit exactly when it came from an integer. That it loses nothing of the modelled value is stated by Literals.EncodeRoundTrip. |
| Semantics.BinaryAppends | FilterConstructor.cs:85-93 | A binary node appends "(" + left + " " + token + " " + right + ")". A node type missing from the table throws KeyNotFound after "(" and the left operand are in the builder. A throw in an operand keeps the partial text. |
| Semantics.UnaryAppends | FilterConstructor.cs:66-74 | A unary node other than Not throws NotSupported and leaves the buffer and the stack unchanged. Not appends "not (" + operand + ")". |
| Semantics.VisitChain | FilterConstructor.cs:124-130 | Each member of a chain pushes its name before visiting its target, so the names go on leaf first. A chain rooted at a constant visits that constant with the whole path on the stack, root name on top. Any other chain appends only the name nearest its root and leaves the other names on the stack. |
| Semantics.QueryText | FilterConstructor.cs:55-59 | A query that finishes returns the text left by earlier failed queries plus what this visit appended, and empties the builder. A query that throws clears nothing and keeps its partial text. |
| Reference.GetValueFollowsPath | FilterConstructor.cs:144-158 | With a path pushed leaf first, GetValue reads the path's members root first, a field before a property. When the path ends exactly at a simple value, it returns that value's literal and pops exactly the path's names. A null value or a missing name throws the same error that resolving the path gives. |
| Reference.WalkPops | FilterConstructor.cs:147-158 | Whatever object or value a walk along the pushed names reaches, GetValue continues from there. Exactly the walked names have been popped, and the names below them are untouched. |
| Reference.StackRunsOut | FilterConstructor.cs:149 | When the pushed names run out at an object, the Pop on the empty stack throws. Every name the chain pushed has been consumed. |
| Reference.SimpleValueLeavesNames | FilterConstructor.cs:147 | When a walk reaches a simple value with names still pushed above it, that value's literal is returned and those names stay on the stack. |
| Reference.VisitRefinesLower | FilterConstructor.cs:62-142 | Whenever a tree has an intended text, any visit of it appends exactly that text and leaves the stack as it found it. Whenever the tree's intended meaning is an exception, the visit throws that exception. |
| Reference.QueryReturnsLower | FilterConstructor.cs:46-60 | On an instance with an empty builder, GetQuery returns the tree's intended text and leaves the instance as it found it, so a following query behaves as on a fresh instance. |
| Reference.LowerBalanced | FilterConstructor.cs:85-93 | For every tree whose member names and literals contain no parentheses, the parentheses of its intended text balance. A binary node's text is wrapped in exactly one pair, and a negation's text is "not " followed by one such pair. Literals are not escaped, so a captured string such as "a(b" can unbalance the text. |
| Reference.DeepParameterChainLeavesName | FilterConstructor.cs:124-130 | x => x.A.B returns "A" and leaves "B" on the stack. |
| Reference.StringMemberLeavesName | FilterConstructor.cs:147 | A member of a captured string (s.Length) writes the quoted string and leaves "Length" on the stack. |
| Reference.LeftoverNameChangesLaterQuery | FilterConstructor.cs:149 | A captured object with nothing to pop throws on a fresh instance. After x => x.A.B it reads member "B" instead. |
| Reference.FailedQueryLeaksText | FilterConstructor.cs:55-57 | A query that throws at an unsupported binary operator leaves "(A" in the builder. The next query returns "(A" in front of its own text. |
| FilterConstructors.FilterConstructor.constructor | FilterConstructor.cs:38-43 | A new instance has an empty builder and an empty name stack. |
| FilterConstructors.FilterConstructor.GetQuery | FilterConstructor.cs:46-60 | Returns, and leaves in the fields, exactly what Semantics.GetQuery gives from the fields on entry. |
| FilterConstructors.FilterConstructor.Visit | FilterConstructor.cs:55 | Dispatches on the node type. The fields end as Semantics.Visit says, and it returns the exception that Semantics.Visit raises. |
| FilterConstructors.FilterConstructor.VisitUnary | FilterConstructor.cs:62-79 | The same as Semantics.Visit on a unary node, including the NotSupported throw before anything is appended. |
| FilterConstructors.FilterConstructor.VisitBinary | FilterConstructor.cs:82-96 | The same as Semantics.Visit on a binary node, including the KeyNotFound throw after the left operand. |
| FilterConstructors.FilterConstructor.VisitMember | FilterConstructor.cs:98-132 | The same as Semantics.Visit on a member access: it pushes the name and descends, or appends the name. |
| FilterConstructors.FilterConstructor.VisitConstant | FilterConstructor.cs:136-142 | The same as Semantics.Visit on a constant: it appends GetValue's text, or throws GetValue's error. |
| FilterConstructors.FilterConstructor.GetValue | FilterConstructor.cs:144-167 | Leaves the builder alone. It returns the text or error that Semantics.GetValue gives and leaves the stack it gives, popping in place. |
| ExpressionTestController.Get | Controllers/ExpressionTest.cs:20-36 | A new constructor turns the sample filter into (((Customer eq 'Tom') and (Amount gt 1000)) or ((TheDate eq datetime'<date>') and not (Dicount))). |
| ExpressionTestController.SampleQuery | Controllers/ExpressionTest.cs:28-33 | GetQuery on the sample filter returns that text and leaves the instance empty. |
| ExpressionTestController.SampleLower | Controllers/ExpressionTest.cs:28-29 | The intended text of the sample filter is that text. |
| ExpressionTestController.SampleMembers | Controllers/ExpressionTest.cs:21-22 | The captured order.Customer, order.Amount and date resolve to 'Tom', 1000 and the date's datetime literal. |

## Left out

- Console tracing (FilterConstructor.cs:47-48, 63-64, 83-84, 121-122, 138-139 and Controllers/ExpressionTest.cs:34) is output only and changes no state.
- `ToUniversalTime()` depends on the host's time zone. Dates are modelled as records that are already UTC, and only the zero-padded layout is specified.
- Literals.IntText, Literals.DateText: both are modelled in the invariant culture. The source calls `ToString()` (FilterConstructor.cs:165) and `ToString("yyyy-MM-ddTHH:mm:ss.fffZ")` (FilterConstructor.cs:31), which format in the host's current culture. That culture can change the negative sign of an integer (some cultures use U+2212), the calendar behind `yyyy`, `MM` and `dd` (th-TH writes the Buddhist-era year), and the time separator. The model writes an ASCII '-', Gregorian dates and ':'.
- Literals.EncodeInjective: holds only for the modelled values. The source's encoder loses information. The `fff` format (FilterConstructor.cs:31) drops the ticks below a millisecond, so two DateTimes in the same millisecond share a literal. `ToString()` (FilterConstructor.cs:165) writes the same text for equal numbers of different types, such as an Int32 5 and an Int64 5. The model's dates stop at milliseconds and its integers carry no type.
- Reflection (`GetType`, `IsClass`, `GetField`, `GetProperty`) is replaced by an object value that carries a map of fields and a map of properties. Value types other than string, bool, integers and DateTime are not modelled. For the other simple types, `ToString` is modelled for integers only. Floating-point and decimal text is left out.
- A static member access has a null target, so `node.Expression.NodeType` throws at FilterConstructor.cs:124. This case is not modelled, because the expression datatype always has a target.
- Node kinds that the class does not override are handled by the base `ExpressionVisitor`, which is not part of this model. Method calls and nested lambdas are left out. A bare parameter reaches the base class's `VisitParameter`, which appends nothing, and the model does the same.
- The `Expression` values that the visit methods return are not modelled, because every override returns its own node unchanged.
- Integers are unbounded. The width of `int` and the other integer types of the captured values plays no part in the text they produce.
- Thread safety is not modelled. The instance is shared mutable state and is not safe for concurrent use.
- An exception is modelled as an error value that the class methods return and their callers pass on. The fields are updated in place up to the point of the throw, as in the source. The .NET exception types are named by the `Semantics.Error` constructors: NotSupportedException, KeyNotFoundException, NullReferenceException, and InvalidOperationException for `Pop` on an empty stack.
