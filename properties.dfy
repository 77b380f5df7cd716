/** Properties of the transformer, case by case. */
module Properties {
  import opened Results
  import opened Json
  import opened Syntax
  import opened Transformer
  import Operators
  import Binder
  import Template
  import Objects

  // ---------------------------------------------------------------------------
  // Mapping over children

  /** `map` keeps one result per child, in order, and throws exactly when
      some child throws. */
  lemma {:induction false} ProcessAllElements(nodes: seq<Node>)
    ensures ProcessAll(nodes).Done? ==>
      forall i :: 0 <= i < |nodes| ==> ProcessNode(nodes[i], false) == Done(ProcessAll(nodes).value[i])
    ensures ProcessAll(nodes).Threw? <==> exists i :: 0 <= i < |nodes| && ProcessNode(nodes[i], false).Threw?
  {
    if |nodes| > 0 {
      var init := nodes[..|nodes| - 1];
      ProcessAllElements(init);
      assert forall i :: 0 <= i < |init| ==> init[i] == nodes[i];
    }
  }

  /** Conversely, children that all succeed map to their results. */
  lemma {:induction false} ProcessAllOf(nodes: seq<Node>, values: seq<Json>)
    requires |values| == |nodes|
    requires forall i :: 0 <= i < |nodes| ==> ProcessNode(nodes[i], false) == Done(values[i])
    ensures ProcessAll(nodes) == Done(values)
  {
    if |nodes| > 0 {
      var n := |nodes| - 1;
      ProcessAllOf(nodes[..n], values[..n]);
      assert values == values[..n] + [values[n]];
    }
  }

  /** One child that throws makes the whole map throw. */
  lemma ProcessAllThrewAt(nodes: seq<Node>, k: nat)
    requires k < |nodes| && ProcessNode(nodes[k], false).Threw?
    ensures ProcessAll(nodes).Threw?
  {
    ProcessAllElements(nodes);
  }

  /** A throw while collecting the assignments of a prefix of an object's
      members is a throw for the whole object. */
  lemma {:induction false} PropertyPairsPrefixThrew(properties: seq<Property>, k: nat)
    requires k <= |properties| && PropertyPairs(properties[..k]).Threw?
    ensures PropertyPairs(properties).Threw?
  {
    if k < |properties| {
      var n := |properties| - 1;
      assert properties[..n][..k] == properties[..k];
      PropertyPairsPrefixThrew(properties[..n], k);
    } else {
      assert properties[..k] == properties;
    }
  }

  // ---------------------------------------------------------------------------
  // Literals and identifiers

  /** Literals come back as their values; `null` and `undefined` as null. */
  lemma Literals(s: string, n: int, b: bool, valueOnly: bool)
    ensures ProcessNode(StringLiteral(s), valueOnly) == Done(JStr(s))
    ensures ProcessNode(NumericLiteral(n), valueOnly) == Done(JNum(n))
    ensures ProcessNode(BooleanLiteral(b), valueOnly) == Done(JBool(b))
    ensures ProcessNode(NullLiteral, valueOnly) == Done(JNull)
    ensures ProcessNode(Identifier("undefined"), valueOnly) == Done(JNull)
    ensures ProcessNode(DirectiveLiteral(s), valueOnly) == Done(JStr(s))
  {
  }

  /** A regular expression literal becomes the pair `[pattern, flags]`. */
  lemma RegExpPair(pattern: string, flags: string, valueOnly: bool)
    ensures ProcessNode(RegExpLiteral(pattern, flags), valueOnly) == Done(JArr([JStr(pattern), JStr(flags)]))
  {
  }

  /** An identifier is a variable reference, or its bare name when only the value is asked for. */
  lemma IdentifierRule(name: string)
    requires name != "undefined"
    ensures ProcessNode(Identifier(name), false) == Done(Var(name))
    ensures ProcessNode(Identifier(name), true) == Done(JStr(name))
  {
  }

  // ---------------------------------------------------------------------------
  // Statements

  /** A file, an expression statement, a directive and a return with an
      argument stand for their child; a return without one throws. */
  lemma Wrappers(child: Node, valueOnly: bool)
    ensures ProcessNode(File(child), valueOnly) == ProcessNode(child, false)
    ensures ProcessNode(ExpressionStatement(child), valueOnly) == ProcessNode(child, false)
    ensures ProcessNode(Directive(child), valueOnly) == ProcessNode(child, false)
    ensures ProcessNode(ReturnStatement(Some(child)), valueOnly) == ProcessNode(child, false)
    ensures ProcessNode(ReturnStatement(None), valueOnly).Threw?
  {
  }

  /** A program runs its one directive, whatever its statements, or else its
      one statement; a block runs its one statement. Nothing to run throws. */
  lemma SingleStatement(child: Node, body: seq<Node>, loc: Json, valueOnly: bool)
    ensures ProcessNode(Program([child], body, loc), valueOnly) == ProcessNode(child, false)
    ensures ProcessNode(Program([], [child], loc), valueOnly) == ProcessNode(child, false)
    ensures ProcessNode(BlockStatement([child], loc), valueOnly) == ProcessNode(child, false)
    ensures ProcessNode(Program([], [], loc), valueOnly).Threw?
    ensures ProcessNode(BlockStatement([], loc), valueOnly).Threw?
  {
  }

  // ---------------------------------------------------------------------------
  // Member expressions

  /** One link of a member chain: `.name` or `[index]`. */
  datatype Segment = Key(key: string) | Index(index: nat)

  function SegmentNode(segment: Segment): Node {
    match segment
    case Key(k) => Identifier(k)
    case Index(i) => NumericLiteral(i)
  }

  function SegmentText(segment: Segment): string {
    match segment
    case Key(k) => k
    case Index(i) => NumToString(i)
  }

  /** The syntax tree of `base.s1.s2...` (with `[i]` for index segments). */
  function Chain(base: string, segments: seq<Segment>): Node {
    if |segments| == 0 then Identifier(base)
    else MemberExpression(Chain(base, segments[..|segments| - 1]), SegmentNode(segments[|segments| - 1]))
  }

  /** The dot-joined path of a chain. */
  function ChainPath(base: string, segments: seq<Segment>): string {
    if |segments| == 0 then base
    else ChainPath(base, segments[..|segments| - 1]) + "." + SegmentText(segments[|segments| - 1])
  }

  /** A member expression joins the strings of its two legs with a dot. */
  lemma MemberRule(obj: Node, prop: Node, o: string, p: string, valueOnly: bool)
    requires MemberLeg(obj) == Done(o) && MemberLeg(prop) == Done(p)
    ensures ProcessNode(MemberExpression(obj, prop), valueOnly)
         == Done(if valueOnly then JStr(o + "." + p) else Var(o + "." + p))
  {
    assert ProcessNode(MemberExpression(obj, prop), valueOnly) == ProcessMember(MemberExpression(obj, prop), valueOnly);
  }

  /** A chain of names and numeric indices of any depth is one variable
      reference to its dot-joined path, or that path when only the value is
      asked for. */
  lemma {:induction false} MemberChain(base: string, segments: seq<Segment>)
    requires |segments| > 0
    ensures ProcessNode(Chain(base, segments), true) == Done(JStr(ChainPath(base, segments)))
    ensures ProcessNode(Chain(base, segments), false) == Done(Var(ChainPath(base, segments)))
  {
    var n := |segments| - 1;
    var inner := Chain(base, segments[..n]);
    var last := segments[n];
    assert Chain(base, segments) == MemberExpression(inner, SegmentNode(last));
    assert ChainPath(base, segments) == ChainPath(base, segments[..n]) + "." + SegmentText(last);
    assert MemberLeg(SegmentNode(last)) == Done(SegmentText(last));
    if n > 0 {
      MemberChain(base, segments[..n]);
      assert MemberLeg(inner) == Done(ChainPath(base, segments[..n]));
    } else {
      assert segments[..n] == [];
      assert inner == Identifier(base);
      assert ChainPath(base, segments[..n]) == base;
      assert MemberLeg(inner) == Done(base);
    }
    MemberRule(inner, SegmentNode(last), ChainPath(base, segments[..n]), SegmentText(last), true);
    MemberRule(inner, SegmentNode(last), ChainPath(base, segments[..n]), SegmentText(last), false);
  }

  /** A leg or callee that is not an identifier contributes its value-only
      rule converted to a string, and throws exactly when that rule cannot be
      converted. */
  lemma MemberLegConversion(leg: Node, j: Json)
    requires !leg.Identifier? && ProcessNode(leg, true) == Done(j)
    ensures MemberLeg(leg) == ToJsString(j)
    ensures MemberLeg(leg).Threw? <==> !Convertible(j)
  {
    ToJsStringThrows(j);
  }

  // ---------------------------------------------------------------------------
  // Calls

  /** A call is keyed by the string of its callee, with its arguments' rules
      as the array. */
  lemma CallRule(callee: Node, args: seq<Node>, name: string, values: seq<Json>, valueOnly: bool)
    requires MemberLeg(callee) == Done(name) && ProcessAll(args) == Done(values)
    ensures ProcessNode(CallExpression(callee, args), valueOnly) == Done(JObj([(name, JArr(values))]))
  {
    assert ProcessNode(CallExpression(callee, args), valueOnly) == ProcessCall(CallExpression(callee, args));
  }

  /** A call of a plain name is `{name: args}`. */
  lemma CallOfName(name: string, args: seq<Node>, values: seq<Json>, valueOnly: bool)
    requires ProcessAll(args) == Done(values)
    ensures ProcessNode(CallExpression(Identifier(name), args), valueOnly) == Done(JObj([(name, JArr(values))]))
  {
    CallRule(Identifier(name), args, name, values, valueOnly);
  }

  /** A call of a method chain is keyed by the chain's dot-joined path. */
  lemma CallOfMember(base: string, segments: seq<Segment>, args: seq<Node>, values: seq<Json>, valueOnly: bool)
    requires |segments| > 0 && ProcessAll(args) == Done(values)
    ensures ProcessNode(CallExpression(Chain(base, segments), args), valueOnly)
         == Done(JObj([(ChainPath(base, segments), JArr(values))]))
  {
    MemberChain(base, segments);
    CallRule(Chain(base, segments), args, ChainPath(base, segments), values, valueOnly);
  }

  /** An argument that throws makes the call throw. */
  lemma CallThrows(callee: Node, args: seq<Node>, valueOnly: bool)
    requires ProcessAll(args).Threw?
    ensures ProcessNode(CallExpression(callee, args), valueOnly).Threw?
  {
  }

  // ---------------------------------------------------------------------------
  // Operators

  /** Binary and logical expressions always apply the normalised operator to
      exactly their two operands; nothing is flattened. */
  lemma TwoOperands(operator: string, left: Node, right: Node, l: Json, r: Json, logical: bool)
    requires ProcessNode(left, false) == Done(l) && ProcessNode(right, false) == Done(r)
    ensures var node := if logical then LogicalExpression(operator, left, right) else BinaryExpression(operator, left, right);
      ProcessNode(node, false) == Done(JObj([(Operators.ProcessOp(operator), JArr([l, r]))]))
  {
    var node := if logical then LogicalExpression(operator, left, right) else BinaryExpression(operator, left, right);
    assert ProcessNode(node, false) == ProcessBinary(node);
  }

  /** `!!x` is the single-argument operator `!!`. */
  lemma DoubleNegation(inner: Node, v: Json)
    requires ProcessNode(inner, false) == Done(v)
    ensures ProcessNode(UnaryExpression("!", UnaryExpression("!", inner)), false) == Done(Op("!!", [v]))
  {
  }

  /** `-n` of a numeric literal folds into the negated number. */
  lemma NegatedLiteral(n: int)
    ensures ProcessNode(UnaryExpression("-", NumericLiteral(n)), false) == Done(JNum(-n))
  {
  }

  /** Every other unary expression applies its operator to one argument. */
  lemma OtherUnary(operator: string, argument: Node, v: Json)
    requires !(operator == "!" && OperatorOf(argument) == Some("!"))
    requires !(operator == "-" && argument.NumericLiteral?)
    requires ProcessNode(argument, false) == Done(v)
    ensures ProcessNode(UnaryExpression(operator, argument), false) == Done(Op(operator, [v]))
  {
  }

  // ---------------------------------------------------------------------------
  // Conditionals

  /** A ternary always has three arguments. */
  lemma TernaryThreeArguments(test: Node, consequent: Node, alternate: Node, t: Json, c: Json, a: Json)
    requires ProcessNode(test, false) == Done(t)
    requires ProcessNode(consequent, false) == Done(c)
    requires ProcessNode(alternate, false) == Done(a)
    ensures ProcessNode(ConditionalExpression(test, consequent, alternate), false) == Done(Op("if", [t, c, a]))
  {
  }

  /** `.filter(Boolean)` keeps a value exactly when it is truthy, never keeps
      more values than it gets, and keeps an all-truthy list whole; the order
      is stated by `KeepTruthyConcat`. */
  lemma {:induction false} KeepTruthyFilters(values: seq<Json>)
    ensures forall x :: x in KeepTruthy(values) <==> x in values && Truthy(x)
    ensures |KeepTruthy(values)| <= |values|
    ensures (forall i :: 0 <= i < |values| ==> Truthy(values[i])) ==> KeepTruthy(values) == values
  {
    if |values| > 0 {
      var init := values[..|values| - 1];
      KeepTruthyFilters(init);
      assert forall i :: 0 <= i < |init| ==> init[i] == values[i];
      assert values == init + [values[|values| - 1]];
    }
  }

  /** Filtering distributes over concatenation, so the survivors keep their
      order and their multiplicity. */
  lemma {:induction false} KeepTruthyConcat(a: seq<Json>, b: seq<Json>)
    ensures KeepTruthy(a + b) == KeepTruthy(a) + KeepTruthy(b)
  {
    if |b| > 0 {
      var n := |b| - 1;
      KeepTruthyConcat(a, b[..n]);
      assert (a + b)[..|a + b| - 1] == a + b[..n];
      assert b[..n] + [b[n]] == b;
    } else {
      assert a + b == a;
    }
  }

  /** A single value survives exactly when it is truthy. */
  lemma KeepTruthyOne(x: Json)
    ensures KeepTruthy([x]) == if Truthy(x) then [x] else []
  {
  }

  /** The filter over an if statement's test, consequent and alternatives. */
  lemma KeepTruthyBranches(t: Json, c: Json, rest: seq<Json>)
    ensures var args := KeepTruthy([t, c] + rest);
      && |args| <= 1 + |[c] + rest|
      && (forall x :: x in args <==> x in [t, c] + rest && Truthy(x))
      && args == (if Truthy(t) then [t] else []) + (if Truthy(c) then [c] else []) + KeepTruthy(rest)
  {
    KeepTruthyFilters([t, c] + rest);
    assert [t, c] + rest == [t] + [c] + rest;
    KeepTruthyConcat([t] + [c], rest);
    KeepTruthyConcat([t], [c]);
    KeepTruthyOne(t);
    KeepTruthyOne(c);
  }

  /** An if statement keeps the truthy ones among test, consequent and
      alternate, so an if with a falsy branch loses that branch. */
  lemma IfRule(test: Node, consequent: Node, alternative: Option<Node>, t: Json, c: Json, rest: seq<Json>)
    requires ProcessNode(test, false) == Done(t)
    requires ProcessNode(consequent, false) == Done(c)
    requires alternative.None? ==> rest == []
    requires alternative.Some? ==> |rest| == 1 && ProcessNode(alternative.value, false) == Done(rest[0])
    ensures ProcessNode(IfStatement(test, consequent, alternative), false) == Done(Op("if", KeepTruthy([t, c] + rest)))
  {
    if alternative.Some? {
      assert rest == [rest[0]];
    }
  }

  /** So the arguments of the `if` are the truthy ones among the results, in
      source order, and no more of them. */
  lemma IfStatementBranches(test: Node, consequent: Node, alternative: Option<Node>, t: Json, c: Json, rest: seq<Json>)
    requires ProcessNode(test, false) == Done(t)
    requires ProcessNode(consequent, false) == Done(c)
    requires alternative.None? ==> rest == []
    requires alternative.Some? ==> |rest| == 1 && ProcessNode(alternative.value, false) == Done(rest[0])
    ensures ProcessNode(IfStatement(test, consequent, alternative), false).Done?
    ensures var r := ProcessNode(IfStatement(test, consequent, alternative), false).value;
      && r.JObj? && |r.entries| == 1 && r.entries[0].0 == "if" && r.entries[0].1.JArr?
      && var args := r.entries[0].1.items;
      && |args| <= 1 + |[c] + rest|
      && (forall x :: x in args <==> x in [t, c] + rest && Truthy(x))
      && args == (if Truthy(t) then [t] else []) + (if Truthy(c) then [c] else []) + KeepTruthy(rest)
  {
    IfRule(test, consequent, alternative, t, c, rest);
    KeepTruthyBranches(t, c, rest);
  }

  // ---------------------------------------------------------------------------
  // Array literals

  /** One entry per element, in order; a spread element contributes its
      argument's rule; `merge` exactly when some element is a spread. */
  lemma ArrayLiteral(elements: seq<Node>, values: seq<Json>)
    requires |values| == |elements|
    requires forall i :: 0 <= i < |elements| ==> ProcessNode(elements[i], false) == Done(values[i])
    ensures ProcessNode(ArrayExpression(elements), false)
         == Done(if HasSpread(elements) then Op("merge", values) else JArr(values))
  {
    ProcessAllOf(elements, values);
  }

  /** An array literal throws exactly when one of its elements does (a hole among them). */
  lemma ArrayLiteralThrows(elements: seq<Node>)
    ensures ProcessNode(ArrayExpression(elements), false).Threw?
        <==> exists i :: 0 <= i < |elements| && ProcessNode(elements[i], false).Threw?
  {
    ProcessAllElements(elements);
  }

  lemma SpreadIsItsArgument(argument: Node, valueOnly: bool)
    ensures ProcessNode(SpreadElement(argument), valueOnly) == ProcessNode(argument, false)
  {
  }

  // ---------------------------------------------------------------------------
  // Template literals

  /** The result is the single piece, or `cat` of the pieces; there are never
      more pieces than chunks plus expressions. */
  lemma TemplateLiteralResult(quasis: seq<string>, expressions: seq<Node>, values: seq<Json>)
    requires |values| == Min(|quasis|, |expressions|)
    requires forall i :: 0 <= i < |values| ==> ProcessNode(expressions[i], false) == Done(values[i])
    ensures var pieces := Template.Pieces(quasis, values);
      && |pieces| <= |quasis| + |expressions|
      && ProcessNode(TemplateLiteral(quasis, expressions), false)
         == Done(if |pieces| == 1 then pieces[0] else Op("cat", pieces))
  {
    var consumed := Consumed(quasis, expressions);
    assert forall i :: 0 <= i < |consumed| ==> consumed[i] == expressions[i];
    ProcessAllOf(consumed, values);
    Template.PiecesBounds(quasis, values);
    assert ProcessNode(TemplateLiteral(quasis, expressions), false)
        == Done(Template.Collapse(Template.Pieces(quasis, values)));
  }

  /** A template literal collapses the pieces of the values of the
      expressions its chunks consume, and throws when one of them does. */
  lemma TemplateRule(quasis: seq<string>, expressions: seq<Node>)
    ensures ProcessAll(Consumed(quasis, expressions)).Threw? ==> ProcessNode(TemplateLiteral(quasis, expressions), false).Threw?
    ensures ProcessAll(Consumed(quasis, expressions)).Done? ==>
      var values := ProcessAll(Consumed(quasis, expressions)).value;
      ProcessNode(TemplateLiteral(quasis, expressions), false) == Done(Template.Collapse(Template.Pieces(quasis, values)))
  {
    var node := TemplateLiteral(quasis, expressions);
    assert ProcessNode(node, false) == ProcessTemplate(node);
  }

  /** `${e}` alone is the rule of `e` itself. */
  lemma TemplateSingleExpression(e: Node)
    ensures ProcessNode(TemplateLiteral(["", ""], [e]), false) == ProcessNode(e, false)
  {
    match ProcessNode(e, false)
    case Threw =>
      ProcessAllThrewAt([e], 0);
      var node := TemplateLiteral(["", ""], [e]);
      assert ProcessNode(node, false) == ProcessTemplate(node);
    case Done(v) =>
      TemplateLiteralResult(["", ""], [e], [v]);
      assert Template.PiecesUpTo(["", ""], [v], 1) == [v];
  }

  /** A template of parsed shape alternates text and values; with at least
      one expression it is a `cat`. */
  lemma TemplateParsed(quasis: seq<string>, expressions: seq<Node>, values: seq<Json>)
    requires |quasis| == |expressions| + 1 && |expressions| > 0 && Template.AllNonEmpty(quasis)
    requires |values| == |expressions|
    requires forall i :: 0 <= i < |values| ==> ProcessNode(expressions[i], false) == Done(values[i])
    ensures var pieces := Template.Pieces(quasis, values);
      && |pieces| == |quasis| + |expressions|
      && (forall i :: 0 <= i < |values| ==> pieces[2 * i] == JStr(quasis[i]) && pieces[2 * i + 1] == values[i])
      && ProcessNode(TemplateLiteral(quasis, expressions), false) == Done(Op("cat", pieces))
  {
    Template.PiecesAlternate(quasis, values);
    TemplateLiteralResult(quasis, expressions, values);
  }

  // ---------------------------------------------------------------------------
  // Object literals

  /** An object literal assigns its pairs in order: keys unique, each read as
      its last assignment, in order of first assignment. */
  lemma ObjectLiteral(properties: seq<Property>, pairs: seq<(string, Json)>, key: string)
    requires PropertyPairs(properties) == Done(pairs)
    ensures ProcessNode(ObjectExpression(properties), false) == Done(JObj(Objects.Build(pairs)))
    ensures Objects.UniqueKeys(Objects.Build(pairs))
    ensures Objects.Keys(Objects.Build(pairs)) == Objects.FirstOccurrences(Objects.Keys(pairs))
    ensures Get(Objects.Build(pairs), key) == Objects.LastValue(pairs, key)
  {
    assert ProcessNode(ObjectExpression(properties), false) == Done(JObj(Objects.Build(pairs)));
    Objects.BuildKeys(pairs);
    Objects.BuildGet(pairs, key);
  }

  /** A member assigns under its key's value-only rule converted to a string,
      and throws exactly when that rule cannot be converted (an object with an
      own `toString` property, say). */
  lemma PropertyKeyConversion(key: Node, value: Node, k: Json, v: Json)
    requires ProcessNode(key, true) == Done(k) && ProcessNode(value, false) == Done(v)
    ensures PropertyPair(ObjectProperty(key, value)).Threw? <==> !Convertible(k)
    ensures PropertyPair(ObjectProperty(key, value)).Done? ==>
      PropertyPair(ObjectProperty(key, value)) == Done([(ToJsString(k).value, v)])
  {
    ToJsStringThrows(k);
  }

  function WithoutSpreads(properties: seq<Property>): seq<Property> {
    if |properties| == 0 then []
    else
      var init := WithoutSpreads(properties[..|properties| - 1]);
      if properties[|properties| - 1].ObjectSpread? then init else init + [properties[|properties| - 1]]
  }

  /** Spread members are skipped (their arguments are not even transformed). */
  lemma {:induction false} SpreadsIgnored(properties: seq<Property>)
    ensures PropertyPairs(properties) == PropertyPairs(WithoutSpreads(properties))
  {
    if |properties| > 0 {
      var n := |properties| - 1;
      SpreadsIgnored(properties[..n]);
      var w := WithoutSpreads(properties[..n]);
      if properties[n].ObjectSpread? {
        if PropertyPairs(properties[..n]).Done? {
          var init := PropertyPairs(properties[..n]).value;
          assert init + [] == init;
        }
      } else {
        assert (w + [properties[n]])[..|w|] == w;
      }
    }
  }

  // ---------------------------------------------------------------------------
  // Arrow functions

  /** A block body of more than one statement is rejected. */
  lemma ArrowBlockRejected(params: seq<Node>, statements: seq<Node>, blockLoc: Json, loc: Json)
    requires |statements| > 1
    ensures var r := ProcessNode(ArrowFunctionExpression(params, BlockStatement(statements, blockLoc), loc), false);
      r.Done? && ErrorOf(r.value) == Some((OneLineArrowOnly, loc))
  {
  }

  /** With no parameter, or several, the body's rule is the result. */
  lemma ArrowUnbound(params: seq<Node>, body: Node, loc: Json, b: Json)
    requires |params| != 1 && ProcessAll(params).Done?
    requires !(body.BlockStatement? && |body.body| > 1)
    requires ProcessNode(body, false) == Done(b)
    ensures ProcessNode(ArrowFunctionExpression(params, body, loc), false) == Done(b)
  {
  }

  /** With one parameter of any kind, the body's rule is rewritten for what
      `.var` reads from the parameter's rule: `null` (the rule of `undefined`)
      throws, an object gives its `var` entry, and anything else gives
      `undefined`. */
  lemma ArrowOneParameter(param: Node, body: Node, loc: Json, p: Json, b: Json)
    requires !(body.BlockStatement? && |body.body| > 1)
    requires ProcessNode(param, false) == Done(p) && ProcessNode(body, false) == Done(b)
    ensures var r := ProcessNode(ArrowFunctionExpression([param], body, loc), false);
      && (p.JNull? ==> r.Threw?)
      && (p.JObj? ==> r == Binder.ReplaceVariable(Get(p.entries, "var"), b))
      && (!p.JNull? && !p.JObj? ==> r == Binder.ReplaceVariable(None, b))
  {
    ProcessAllOf([param], [p]);
  }

  /** With one identifier parameter, the body's rule is rewritten for that
      parameter's name; a parameter named `undefined` throws. */
  lemma ArrowBound(param: string, body: Node, loc: Json, b: Json)
    requires !(body.BlockStatement? && |body.body| > 1)
    requires ProcessNode(body, false) == Done(b)
    ensures param != "undefined" ==>
      ProcessNode(ArrowFunctionExpression([Identifier(param)], body, loc), false)
      == Binder.ReplaceVariable(Some(JStr(param)), b)
    ensures param == "undefined" ==>
      ProcessNode(ArrowFunctionExpression([Identifier(param)], body, loc), false).Threw?
  {
    if param == "undefined" {
      ArrowOneParameter(Identifier(param), body, loc, JNull, b);
    } else {
      ArrowOneParameter(Identifier(param), body, loc, Var(param), b);
      assert Get(Var(param).entries, "var") == Some(JStr(param));
    }
  }

  // ---------------------------------------------------------------------------
  // Rejections

  /** Each unsupported kind yields its own message at the node's location. */
  lemma UnsupportedRejected(kind: UnsupportedKind, loc: Json, valueOnly: bool)
    ensures var r := ProcessNode(Unsupported(kind, loc), valueOnly);
      r.Done? && ErrorOf(r.value) == Some((UnsupportedMessage(kind), loc))
  {
  }

  /** A node of any kind without a case of its own is rejected as invalid. */
  lemma UnknownRejected(typeName: string, loc: Json, valueOnly: bool)
    requires !KnownKind(typeName)
    ensures var r := ProcessNode(Other(typeName, loc), valueOnly);
      r.Done? && ErrorOf(r.value) == Some(("Invalid node '" + typeName + "'. Not supported.", loc))
  {
  }

  /** A program of several directives, or several statements, and a block of
      several statements are rejected. */
  lemma TooManyStatements(directives: seq<Node>, body: seq<Node>, loc: Json)
    ensures |directives| > 1 ==>
      var r := ProcessNode(Program(directives, body, loc), false);
      r.Done? && ErrorOf(r.value) == Some((OneExpressionOnly, loc))
    ensures |directives| == 0 && |body| > 1 ==>
      var r := ProcessNode(Program(directives, body, loc), false);
      r.Done? && ErrorOf(r.value) == Some((OneStatementOnly, loc))
    ensures |body| > 1 ==>
      var r := ProcessNode(BlockStatement(body, loc), false);
      r.Done? && ErrorOf(r.value) == Some((OneStatementOnly, loc))
  {
  }

  // ---------------------------------------------------------------------------
  // The entry point

  /** A parsed tree gives its rule; a syntax error, and an exception while
      transforming, give "Could not parse code. " and the message, at the
      error's position (none for a runtime exception). */
  lemma TransformJSResult(parsed: ParseResult, thrownMessage: string)
    ensures parsed.SyntaxError? ==>
      ErrorOf(TransformJS(parsed, thrownMessage))
      == Some((ParseFailurePrefix + parsed.message, JObj([("start", parsed.position), ("end", parsed.position)])))
    ensures parsed.Parsed? && ProcessNode(parsed.file, false).Done? ==>
      TransformJS(parsed, thrownMessage) == ProcessNode(parsed.file, false).value
    ensures parsed.Parsed? && ProcessNode(parsed.file, false).Threw? ==>
      ErrorOf(TransformJS(parsed, thrownMessage)) == Some((ParseFailurePrefix + thrownMessage, JObj([])))
  {
  }
}
