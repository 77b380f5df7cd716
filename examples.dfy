/** Worked inputs and outputs of the transformer, each written as the syntax
    tree the parser produces for the JavaScript source quoted above it. A
    whole program is `File(Program(directives, body, loc))`; every location
    is a parameter because its contents are the parser's. */
module Examples {
  import opened Results
  import opened Json
  import opened Syntax
  import opened Transformer
  import Template
  import Objects
  import Binder
  import Properties

  /** A program of one expression statement. */
  function Statement(node: Node, loc: Json): Node {
    File(Program([], [ExpressionStatement(node)], loc))
  }

  /** A program of one statement of another kind. */
  function Program1(statement: Node, loc: Json): Node {
    File(Program([], [statement], loc))
  }

  lemma StatementIs(node: Node, loc: Json)
    ensures ProcessNode(Statement(node, loc), false) == ProcessNode(node, false)
  {
    Properties.Wrappers(Program([], [ExpressionStatement(node)], loc), false);
    Properties.SingleStatement(ExpressionStatement(node), [], loc, false);
    Properties.Wrappers(node, false);
  }

  lemma Program1Is(statement: Node, loc: Json)
    ensures ProcessNode(Program1(statement, loc), false) == ProcessNode(statement, false)
  {
    Properties.Wrappers(Program([], [statement], loc), false);
    Properties.SingleStatement(statement, [], loc, false);
  }

  // "hi"
  lemma PlainString(loc: Json)
    ensures ProcessNode(File(Program([Directive(DirectiveLiteral("hi"))], [], loc)), false) == Done(JStr("hi"))
  {
    Properties.Wrappers(Program([Directive(DirectiveLiteral("hi"))], [], loc), false);
    Properties.SingleStatement(Directive(DirectiveLiteral("hi")), [], loc, false);
    Properties.Wrappers(DirectiveLiteral("hi"), false);
    Properties.Literals("hi", 0, false, false);
  }

  // myVar
  lemma Variable(loc: Json)
    ensures ProcessNode(Statement(Identifier("myVar"), loc), false) == Done(Var("myVar"))
  {
    StatementIs(Identifier("myVar"), loc);
    Properties.IdentifierRule("myVar");
  }

  // undefined
  lemma Undefined(loc: Json)
    ensures ProcessNode(Statement(Identifier("undefined"), loc), false) == Done(JNull)
  {
    StatementIs(Identifier("undefined"), loc);
    Properties.Literals("", 0, false, false);
  }

  // say("hey!")
  lemma CallWithString(loc: Json)
    ensures ProcessNode(Statement(CallExpression(Identifier("say"), [StringLiteral("hey!")]), loc), false)
         == Done(JObj([("say", JArr([JStr("hey!")]))]))
  {
    StatementIs(CallExpression(Identifier("say"), [StringLiteral("hey!")]), loc);
    Properties.Literals("hey!", 0, false, false);
    Properties.ProcessAllOf([StringLiteral("hey!")], [JStr("hey!")]);
    Properties.CallOfName("say", [StringLiteral("hey!")], [JStr("hey!")], false);
  }

  // blue + "hey"
  lemma StringSum(loc: Json)
    ensures ProcessNode(Statement(BinaryExpression("+", Identifier("blue"), StringLiteral("hey")), loc), false)
         == Done(Op("+", [Var("blue"), JStr("hey")]))
  {
    StatementIs(BinaryExpression("+", Identifier("blue"), StringLiteral("hey")), loc);
    Properties.IdentifierRule("blue");
    Properties.Literals("hey", 0, false, false);
    Properties.TwoOperands("+", Identifier("blue"), StringLiteral("hey"), Var("blue"), JStr("hey"), false);
  }

  // arr[0]
  lemma IndexedMember(loc: Json)
    ensures ProcessNode(Statement(MemberExpression(Identifier("arr"), NumericLiteral(0)), loc), false)
         == Done(Var("arr.0"))
  {
    var segments := [Properties.Index(0)];
    assert Properties.Chain("arr", segments) == MemberExpression(Identifier("arr"), NumericLiteral(0));
    assert NumToString(0) == "0";
    assert Properties.ChainPath("arr", segments) == "arr.0";
    Properties.MemberChain("arr", segments);
    StatementIs(MemberExpression(Identifier("arr"), NumericLiteral(0)), loc);
  }

  // a.b[1].c
  lemma MixedMemberChain(loc: Json)
    ensures var node := MemberExpression(MemberExpression(MemberExpression(
              Identifier("a"), Identifier("b")), NumericLiteral(1)), Identifier("c"));
      ProcessNode(Statement(node, loc), false) == Done(Var("a.b.1.c"))
  {
    var ab := MemberExpression(Identifier("a"), Identifier("b"));
    var ab1 := MemberExpression(ab, NumericLiteral(1));
    assert MemberLeg(ab) == Done("a.b") by {
      Properties.MemberRule(Identifier("a"), Identifier("b"), "a", "b", true);
      assert "a" + "." + "b" == "a.b";
    }
    assert MemberLeg(NumericLiteral(1)) == Done("1") by {
      Properties.Literals("", 1, false, true);
      assert NumToString(1) == "1";
    }
    assert MemberLeg(ab1) == Done("a.b.1") by {
      Properties.MemberRule(ab, NumericLiteral(1), "a.b", "1", true);
      assert "a.b" + "." + "1" == "a.b.1";
    }
    assert ProcessNode(MemberExpression(ab1, Identifier("c")), false) == Done(Var("a.b.1.c")) by {
      Properties.MemberRule(ab1, Identifier("c"), "a.b.1", "c", false);
      assert "a.b.1" + "." + "c" == "a.b.1.c";
    }
    StatementIs(MemberExpression(ab1, Identifier("c")), loc);
  }

  // obj.deep.fn(plus, "args")
  lemma MemberCall(loc: Json)
    ensures var callee := MemberExpression(MemberExpression(
              Identifier("obj"), Identifier("deep")), Identifier("fn"));
      ProcessNode(Statement(CallExpression(callee, [Identifier("plus"), StringLiteral("args")]), loc), false)
      == Done(JObj([("obj.deep.fn", JArr([Var("plus"), JStr("args")]))]))
  {
    var inner := MemberExpression(Identifier("obj"), Identifier("deep"));
    var callee := MemberExpression(inner, Identifier("fn"));
    var args := [Identifier("plus"), StringLiteral("args")];
    assert MemberLeg(inner) == Done("obj.deep") by {
      Properties.MemberRule(Identifier("obj"), Identifier("deep"), "obj", "deep", true);
      assert "obj" + "." + "deep" == "obj.deep";
    }
    assert MemberLeg(callee) == Done("obj.deep.fn") by {
      Properties.MemberRule(inner, Identifier("fn"), "obj.deep", "fn", true);
      assert "obj.deep" + "." + "fn" == "obj.deep.fn";
    }
    assert ProcessAll(args) == Done([Var("plus"), JStr("args")]) by {
      Properties.IdentifierRule("plus");
      Properties.Literals("args", 0, false, false);
      Properties.ProcessAllOf(args, [Var("plus"), JStr("args")]);
    }
    Properties.CallRule(callee, args, "obj.deep.fn", [Var("plus"), JStr("args")], false);
    StatementIs(CallExpression(callee, args), loc);
  }

  // /word/
  lemma RegExp(loc: Json)
    ensures ProcessNode(Statement(RegExpLiteral("word", ""), loc), false) == Done(JArr([JStr("word"), JStr("")]))
  {
    StatementIs(RegExpLiteral("word", ""), loc);
    Properties.RegExpPair("word", "", false);
  }

  // price > wallet || price < 0
  lemma LogicalOr(loc: Json)
    ensures var node := LogicalExpression("||",
              BinaryExpression(">", Identifier("price"), Identifier("wallet")),
              BinaryExpression("<", Identifier("price"), NumericLiteral(0)));
      ProcessNode(Statement(node, loc), false)
      == Done(Op("or", [Op(">", [Var("price"), Var("wallet")]), Op("<", [Var("price"), JNum(0)])]))
  {
    var l := BinaryExpression(">", Identifier("price"), Identifier("wallet"));
    var r := BinaryExpression("<", Identifier("price"), NumericLiteral(0));
    Properties.IdentifierRule("price");
    Properties.IdentifierRule("wallet");
    Properties.Literals("", 0, false, false);
    Properties.TwoOperands(">", Identifier("price"), Identifier("wallet"), Var("price"), Var("wallet"), false);
    Properties.TwoOperands("<", Identifier("price"), NumericLiteral(0), Var("price"), JNum(0), false);
    Properties.TwoOperands("||", l, r, Op(">", [Var("price"), Var("wallet")]), Op("<", [Var("price"), JNum(0)]), true);
    StatementIs(LogicalExpression("||", l, r), loc);
  }

  // a && b && c: the chain nests, it is not flattened
  lemma LogicalChainNests(loc: Json)
    ensures var node := LogicalExpression("&&", LogicalExpression("&&", Identifier("a"), Identifier("b")), Identifier("c"));
      ProcessNode(Statement(node, loc), false)
      == Done(Op("and", [Op("and", [Var("a"), Var("b")]), Var("c")]))
  {
    var inner := LogicalExpression("&&", Identifier("a"), Identifier("b"));
    Properties.IdentifierRule("a");
    Properties.IdentifierRule("b");
    Properties.IdentifierRule("c");
    Properties.TwoOperands("&&", Identifier("a"), Identifier("b"), Var("a"), Var("b"), true);
    Properties.TwoOperands("&&", inner, Identifier("c"), Op("and", [Var("a"), Var("b")]), Var("c"), true);
    StatementIs(LogicalExpression("&&", inner, Identifier("c")), loc);
  }

  // a ? b : c
  lemma Ternary(loc: Json)
    ensures ProcessNode(Statement(ConditionalExpression(Identifier("a"), Identifier("b"), Identifier("c")), loc), false)
         == Done(Op("if", [Var("a"), Var("b"), Var("c")]))
  {
    Properties.IdentifierRule("a");
    Properties.IdentifierRule("b");
    Properties.IdentifierRule("c");
    Properties.TernaryThreeArguments(Identifier("a"), Identifier("b"), Identifier("c"), Var("a"), Var("b"), Var("c"));
    StatementIs(ConditionalExpression(Identifier("a"), Identifier("b"), Identifier("c")), loc);
  }

  // if (a > b) { "yes" }
  lemma IfWithoutElse(loc: Json, blockLoc: Json)
    ensures var node := IfStatement(BinaryExpression(">", Identifier("a"), Identifier("b")),
              BlockStatement([ExpressionStatement(StringLiteral("yes"))], blockLoc), None);
      ProcessNode(Program1(node, loc), false) == Done(Op("if", [Op(">", [Var("a"), Var("b")]), JStr("yes")]))
  {
    var test := BinaryExpression(">", Identifier("a"), Identifier("b"));
    var block := BlockStatement([ExpressionStatement(StringLiteral("yes"))], blockLoc);
    var t := Op(">", [Var("a"), Var("b")]);
    var c := JStr("yes");
    assert ProcessNode(test, false) == Done(t) by {
      Properties.IdentifierRule("a");
      Properties.IdentifierRule("b");
      Properties.TwoOperands(">", Identifier("a"), Identifier("b"), Var("a"), Var("b"), false);
    }
    assert ProcessNode(block, false) == Done(c) by {
      Properties.SingleStatement(ExpressionStatement(StringLiteral("yes")), [], blockLoc, false);
      Properties.Wrappers(StringLiteral("yes"), false);
      Properties.Literals("yes", 0, false, false);
    }
    assert KeepTruthy([t, c] + []) == [t, c] by {
      assert [t, c] + [] == [t, c];
      assert Truthy(c) by { assert c.s[0] == 'y'; }
      Properties.KeepTruthyFilters([t, c]);
    }
    Properties.IfRule(test, block, None, t, c, []);
    Program1Is(IfStatement(test, block, None), loc);
  }

  // if (a) { 0 }: the falsy branch is filtered out with the falsy values
  lemma IfDropsFalsyBranch(loc: Json, blockLoc: Json)
    ensures var node := IfStatement(Identifier("a"), BlockStatement([ExpressionStatement(NumericLiteral(0))], blockLoc), None);
      ProcessNode(Program1(node, loc), false) == Done(Op("if", [Var("a")]))
  {
    var block := BlockStatement([ExpressionStatement(NumericLiteral(0))], blockLoc);
    assert ProcessNode(Identifier("a"), false) == Done(Var("a")) by {
      Properties.IdentifierRule("a");
    }
    assert ProcessNode(block, false) == Done(JNum(0)) by {
      Properties.SingleStatement(ExpressionStatement(NumericLiteral(0)), [], blockLoc, false);
      Properties.Wrappers(NumericLiteral(0), false);
      Properties.Literals("", 0, false, false);
    }
    assert KeepTruthy([Var("a"), JNum(0)] + []) == [Var("a")] by {
      var args := [Var("a"), JNum(0)];
      assert args + [] == args;
      assert args[..1] == [Var("a")] && [Var("a")][..0] == [];
    }
    Properties.IfRule(Identifier("a"), block, None, Var("a"), JNum(0), []);
    Program1Is(IfStatement(Identifier("a"), block, None), loc);
  }

  // if (0) { a } else { b }: the falsy test is dropped, and the branches keep
  // their order
  lemma IfFalsyTestKeepsBranches(loc: Json, thenLoc: Json, elseLoc: Json)
    ensures var node := IfStatement(NumericLiteral(0),
              BlockStatement([ExpressionStatement(Identifier("a"))], thenLoc),
              Some(BlockStatement([ExpressionStatement(Identifier("b"))], elseLoc)));
      ProcessNode(Program1(node, loc), false) == Done(Op("if", [Var("a"), Var("b")]))
  {
    var thenBlock := BlockStatement([ExpressionStatement(Identifier("a"))], thenLoc);
    var elseBlock := BlockStatement([ExpressionStatement(Identifier("b"))], elseLoc);
    assert ProcessNode(NumericLiteral(0), false) == Done(JNum(0)) by {
      Properties.Literals("", 0, false, false);
    }
    assert ProcessNode(thenBlock, false) == Done(Var("a")) by {
      Properties.SingleStatement(ExpressionStatement(Identifier("a")), [], thenLoc, false);
      Properties.Wrappers(Identifier("a"), false);
      Properties.IdentifierRule("a");
    }
    assert ProcessNode(elseBlock, false) == Done(Var("b")) by {
      Properties.SingleStatement(ExpressionStatement(Identifier("b")), [], elseLoc, false);
      Properties.Wrappers(Identifier("b"), false);
      Properties.IdentifierRule("b");
    }
    assert KeepTruthy([JNum(0), Var("a")] + [Var("b")]) == [Var("a"), Var("b")] by {
      Properties.KeepTruthyBranches(JNum(0), Var("a"), [Var("b")]);
      Properties.KeepTruthyOne(Var("b"));
      assert [] + [Var("a")] + [Var("b")] == [Var("a"), Var("b")];
    }
    Properties.IfRule(NumericLiteral(0), thenBlock, Some(elseBlock), JNum(0), Var("a"), [Var("b")]);
    Program1Is(IfStatement(NumericLiteral(0), thenBlock, Some(elseBlock)), loc);
  }

  // !!variable
  lemma DoubleBang(loc: Json)
    ensures ProcessNode(Statement(UnaryExpression("!", UnaryExpression("!", Identifier("variable"))), loc), false)
         == Done(Op("!!", [Var("variable")]))
  {
    Properties.IdentifierRule("variable");
    Properties.DoubleNegation(Identifier("variable"), Var("variable"));
    StatementIs(UnaryExpression("!", UnaryExpression("!", Identifier("variable"))), loc);
  }

  // !variable
  lemma SingleBang(loc: Json)
    ensures ProcessNode(Statement(UnaryExpression("!", Identifier("variable")), loc), false)
         == Done(Op("!", [Var("variable")]))
  {
    Properties.IdentifierRule("variable");
    Properties.OtherUnary("!", Identifier("variable"), Var("variable"));
    StatementIs(UnaryExpression("!", Identifier("variable")), loc);
  }

  // a > -1
  lemma NegativeLiteral(loc: Json)
    ensures ProcessNode(Statement(BinaryExpression(">", Identifier("a"), UnaryExpression("-", NumericLiteral(1))), loc), false)
         == Done(Op(">", [Var("a"), JNum(-1)]))
  {
    Properties.IdentifierRule("a");
    Properties.NegatedLiteral(1);
    Properties.TwoOperands(">", Identifier("a"), UnaryExpression("-", NumericLiteral(1)), Var("a"), JNum(-1), false);
    StatementIs(BinaryExpression(">", Identifier("a"), UnaryExpression("-", NumericLiteral(1))), loc);
  }

  // [1, 2, 3]
  lemma PlainArray(loc: Json)
    ensures var elements := [NumericLiteral(1), NumericLiteral(2), NumericLiteral(3)];
      ProcessNode(Statement(ArrayExpression(elements), loc), false) == Done(JArr([JNum(1), JNum(2), JNum(3)]))
  {
    var elements := [NumericLiteral(1), NumericLiteral(2), NumericLiteral(3)];
    var values := [JNum(1), JNum(2), JNum(3)];
    Properties.Literals("", 1, false, false);
    Properties.Literals("", 2, false, false);
    Properties.Literals("", 3, false, false);
    assert !HasSpread(elements);
    Properties.ArrayLiteral(elements, values);
    StatementIs(ArrayExpression(elements), loc);
  }

  // [1, 2, ...myArray]
  lemma SpreadArray(loc: Json)
    ensures var elements := [NumericLiteral(1), NumericLiteral(2), SpreadElement(Identifier("myArray"))];
      ProcessNode(Statement(ArrayExpression(elements), loc), false)
      == Done(Op("merge", [JNum(1), JNum(2), Var("myArray")]))
  {
    var elements := [NumericLiteral(1), NumericLiteral(2), SpreadElement(Identifier("myArray"))];
    var values := [JNum(1), JNum(2), Var("myArray")];
    Properties.Literals("", 1, false, false);
    Properties.Literals("", 2, false, false);
    Properties.IdentifierRule("myArray");
    Properties.SpreadIsItsArgument(Identifier("myArray"), false);
    assert elements[2].SpreadElement?;
    Properties.ArrayLiteral(elements, values);
    StatementIs(ArrayExpression(elements), loc);
  }

  // ({ a: 1, b: 2, ...c })
  function ObjectMembers(): seq<Property> {
    [ObjectProperty(Identifier("a"), NumericLiteral(1)),
     ObjectProperty(Identifier("b"), NumericLiteral(2)),
     ObjectSpread(Identifier("c"))]
  }

  lemma ObjectMembersPairs()
    ensures PropertyPairs(ObjectMembers()) == Done([("a", JNum(1)), ("b", JNum(2))])
  {
    var properties := ObjectMembers();
    var a := properties[0];
    var b := properties[1];
    assert PropertyPair(a) == Done([("a", JNum(1))]) by {
      Properties.IdentifierRule("a");
      Properties.Literals("", 1, false, false);
    }
    assert PropertyPair(b) == Done([("b", JNum(2))]) by {
      Properties.IdentifierRule("b");
      Properties.Literals("", 2, false, false);
    }
    assert PropertyPairs([a]) == Done([("a", JNum(1))]) by {
      assert [a][..0] == [];
      assert [] + [("a", JNum(1))] == [("a", JNum(1))];
    }
    assert PropertyPairs([a, b]) == Done([("a", JNum(1)), ("b", JNum(2))]) by {
      assert [a, b][..1] == [a];
      assert [("a", JNum(1))] + [("b", JNum(2))] == [("a", JNum(1)), ("b", JNum(2))];
    }
    assert properties[..2] == [a, b];
    assert [("a", JNum(1)), ("b", JNum(2))] + [] == [("a", JNum(1)), ("b", JNum(2))];
  }

  lemma ObjectMembersBuild()
    ensures Objects.Build([("a", JNum(1)), ("b", JNum(2))]) == [("a", JNum(1)), ("b", JNum(2))]
  {
    var pairs := [("a", JNum(1)), ("b", JNum(2))];
    assert pairs[..1] == [("a", JNum(1))] && pairs[..1][..0] == [];
    assert Objects.Build(pairs[..1]) == [("a", JNum(1))];
  }

  lemma ObjectIgnoresSpread(loc: Json)
    ensures ProcessNode(Statement(ObjectExpression(ObjectMembers()), loc), false)
         == Done(JObj([("a", JNum(1)), ("b", JNum(2))]))
  {
    ObjectMembersPairs();
    ObjectMembersBuild();
    Properties.ObjectLiteral(ObjectMembers(), [("a", JNum(1)), ("b", JNum(2))], "a");
    StatementIs(ObjectExpression(ObjectMembers()), loc);
  }
  // ({[toString()]: 1}): the key's rule is {toString: []}, an object with an
  // own toString property, so converting it to a property key throws
  lemma ToStringKeyThrows()
    ensures PropertyPairs([ObjectProperty(CallExpression(Identifier("toString"), []), NumericLiteral(1))]).Threw?
  {
    var key := CallExpression(Identifier("toString"), []);
    var property := ObjectProperty(key, NumericLiteral(1));
    var k := JObj([("toString", JArr([]))]);
    assert ProcessNode(key, true) == Done(k) by {
      Properties.CallOfName("toString", [], [], true);
    }
    assert !Convertible(k) by {
      assert Get(k.entries, "toString") == Some(JArr([]));
    }
    Properties.Literals("", 1, false, false);
    Properties.PropertyKeyConversion(key, NumericLiteral(1), k, JNum(1));
    assert [property][..0] == [];
  }

  lemma ComputedKeyWithToStringThrows(loc: Json)
    ensures var key := CallExpression(Identifier("toString"), []);
      ProcessNode(Statement(ObjectExpression([ObjectProperty(key, NumericLiteral(1))]), loc), false).Threw?
  {
    var property := ObjectProperty(CallExpression(Identifier("toString"), []), NumericLiteral(1));
    ToStringKeyThrows();
    StatementIs(ObjectExpression([property]), loc);
  }

  // `Hello, ${first_name}!`
  lemma TemplateWithText(loc: Json)
    ensures ProcessNode(Statement(TemplateLiteral(["Hello, ", "!"], [Identifier("name")]), loc), false)
         == Done(Op("cat", [JStr("Hello, "), Var("name"), JStr("!")]))
  {
    var quasis := ["Hello, ", "!"];
    var values := [Var("name")];
    var pieces := [JStr("Hello, "), Var("name"), JStr("!")];
    assert Template.Pieces(quasis, values) == pieces by {
      assert Template.AllNonEmpty(quasis) by {
        assert quasis[0][0] == 'H' && quasis[1][0] == '!';
      }
      Template.PiecesAlternate(quasis, values);
    }
    assert ProcessNode(TemplateLiteral(quasis, [Identifier("name")]), false) == Done(Op("cat", pieces)) by {
      Properties.IdentifierRule("name");
      Properties.TemplateParsed(quasis, [Identifier("name")], values);
    }
    StatementIs(TemplateLiteral(quasis, [Identifier("name")]), loc);
  }

  // `Hello there`
  lemma TemplateWithoutExpressions(loc: Json)
    ensures ProcessNode(Statement(TemplateLiteral(["Hello there"], []), loc), false) == Done(JStr("Hello there"))
  {
    Properties.TemplateLiteralResult(["Hello there"], [], []);
    assert Template.PiecesUpTo(["Hello there"], [], 1) == [JStr("Hello there")];
    StatementIs(TemplateLiteral(["Hello there"], []), loc);
  }

  // `${hi}`
  lemma TemplateOfOneVariable(loc: Json)
    ensures ProcessNode(Statement(TemplateLiteral(["", ""], [Identifier("hi")]), loc), false) == Done(Var("hi"))
  {
    Properties.IdentifierRule("hi");
    Properties.TemplateSingleExpression(Identifier("hi"));
    StatementIs(TemplateLiteral(["", ""], [Identifier("hi")]), loc);
  }

  // x => x + 1
  lemma ArrowParameterBecomesCurrentValue(loc: Json, arrowLoc: Json)
    ensures var node := ArrowFunctionExpression([Identifier("x")], BinaryExpression("+", Identifier("x"), NumericLiteral(1)), arrowLoc);
      ProcessNode(Statement(node, loc), false) == Done(Op("+", [Var(""), JNum(1)]))
  {
    var body := BinaryExpression("+", Identifier("x"), NumericLiteral(1));
    var b := Op("+", [Var("x"), JNum(1)]);
    assert ProcessNode(body, false) == Done(b) by {
      Properties.IdentifierRule("x");
      Properties.Literals("", 1, false, false);
      Properties.TwoOperands("+", Identifier("x"), NumericLiteral(1), Var("x"), JNum(1), false);
    }
    assert Binder.ReplaceVariable(Some(JStr("x")), b) == Done(Op("+", [Var(""), JNum(1)])) by {
      Binder.ReplaceVariableReference("x", "y");
      Binder.ReplaceWithoutEntries(Some(JStr("x")), JNum(1));
      Binder.ReplaceOperation(Some(JStr("x")), "+", [Var("x"), JNum(1)], [Var(""), JNum(1)]);
    }
    Properties.ArrowBound("x", body, arrowLoc, b);
    StatementIs(ArrowFunctionExpression([Identifier("x")], body, arrowLoc), loc);
  }

  // x => y + 1
  lemma ArrowOtherVariableKept(loc: Json, arrowLoc: Json)
    ensures var node := ArrowFunctionExpression([Identifier("x")], BinaryExpression("+", Identifier("y"), NumericLiteral(1)), arrowLoc);
      ProcessNode(Statement(node, loc), false) == Done(Op("+", [Var("y"), JNum(1)]))
  {
    var body := BinaryExpression("+", Identifier("y"), NumericLiteral(1));
    var b := Op("+", [Var("y"), JNum(1)]);
    assert ProcessNode(body, false) == Done(b) by {
      Properties.IdentifierRule("y");
      Properties.Literals("", 1, false, false);
      Properties.TwoOperands("+", Identifier("y"), NumericLiteral(1), Var("y"), JNum(1), false);
    }
    assert Binder.ReplaceVariable(Some(JStr("x")), b) == Done(b) by {
      Binder.ReplaceVariableReference("x", "y");
      Binder.ReplaceWithoutEntries(Some(JStr("x")), JNum(1));
      Binder.ReplaceOperation(Some(JStr("x")), "+", [Var("y"), JNum(1)], [Var("y"), JNum(1)]);
    }
    Properties.ArrowBound("x", body, arrowLoc, b);
    StatementIs(ArrowFunctionExpression([Identifier("x")], body, arrowLoc), loc);
  }

  // x => x.y: a path that starts with the parameter is not a reference to it,
  // so it is left as it is
  lemma ArrowMemberPathKept(loc: Json, arrowLoc: Json)
    ensures var node := ArrowFunctionExpression([Identifier("x")], MemberExpression(Identifier("x"), Identifier("y")), arrowLoc);
      ProcessNode(Statement(node, loc), false) == Done(Var("x.y"))
  {
    var body := MemberExpression(Identifier("x"), Identifier("y"));
    assert ProcessNode(body, false) == Done(Var("x.y")) by {
      Properties.MemberRule(Identifier("x"), Identifier("y"), "x", "y", false);
      assert "x" + "." + "y" == "x.y";
    }
    assert Binder.ReplaceVariable(Some(JStr("x")), Var("x.y")) == Done(Var("x.y")) by {
      Binder.ReplaceVariableReference("x", "x.y");
    }
    Properties.ArrowBound("x", body, arrowLoc, Var("x.y"));
    StatementIs(ArrowFunctionExpression([Identifier("x")], body, arrowLoc), loc);
  }

  // ({k: x})
  lemma KeyedReference()
    ensures ProcessNode(ObjectExpression([ObjectProperty(Identifier("k"), Identifier("x"))]), false)
         == Done(JObj([("k", Var("x"))]))
  {
    var property := ObjectProperty(Identifier("k"), Identifier("x"));
    var pairs := [("k", Var("x"))];
    assert PropertyPairs([property]) == Done(pairs) by {
      Properties.IdentifierRule("k");
      Properties.IdentifierRule("x");
      Properties.PropertyKeyConversion(Identifier("k"), Identifier("x"), JStr("k"), Var("x"));
      assert [property][..0] == [];
      assert [] + pairs == pairs;
    }
    assert Objects.Build(pairs) == pairs by {
      assert pairs[..0] == [];
    }
    Properties.ObjectLiteral([property], pairs, "k");
  }

  // x => ({k: x}): the rule's first entry holds no array, so the reference
  // inside it is not rewritten
  lemma ArrowObjectKept(loc: Json, arrowLoc: Json)
    ensures var node := ArrowFunctionExpression([Identifier("x")],
              ObjectExpression([ObjectProperty(Identifier("k"), Identifier("x"))]), arrowLoc);
      ProcessNode(Statement(node, loc), false) == Done(JObj([("k", Var("x"))]))
  {
    var body := ObjectExpression([ObjectProperty(Identifier("k"), Identifier("x"))]);
    var b := JObj([("k", Var("x"))]);
    KeyedReference();
    assert Binder.ReplaceVariable(Some(JStr("x")), b) == Done(b) by {
      Binder.ReplaceOtherwise(Some(JStr("x")), b);
    }
    Properties.ArrowBound("x", body, arrowLoc, b);
    StatementIs(ArrowFunctionExpression([Identifier("x")], body, arrowLoc), loc);
  }

  // x => x === null: the rewrite reaches the null, and Object.entries(null)
  // throws, so the whole transformation fails
  lemma ArrowNullOperandThrows(loc: Json, arrowLoc: Json, message: string)
    ensures var node := ArrowFunctionExpression([Identifier("x")], BinaryExpression("===", Identifier("x"), NullLiteral), arrowLoc);
      && ProcessNode(Statement(node, loc), false).Threw?
      && ErrorOf(TransformJS(Parsed(Statement(node, loc)), message)) == Some((ParseFailurePrefix + message, JObj([])))
  {
    var body := BinaryExpression("===", Identifier("x"), NullLiteral);
    var b := Op("===", [Var("x"), JNull]);
    assert ProcessNode(body, false) == Done(b) by {
      Properties.IdentifierRule("x");
      Properties.Literals("", 0, false, false);
      Properties.TwoOperands("===", Identifier("x"), NullLiteral, Var("x"), JNull, false);
    }
    assert Binder.ReplaceVariable(Some(JStr("x")), b).Threw? by {
      Binder.ReplaceIntoArray(Some(JStr("x")), b);
      assert b.entries[0].1.items[1] == JNull;
    }
    Properties.ArrowBound("x", body, arrowLoc, b);
    var node := ArrowFunctionExpression([Identifier("x")], body, arrowLoc);
    StatementIs(node, loc);
    Properties.TransformJSResult(Parsed(Statement(node, loc)), message);
  }

  // () => x + 1
  lemma ArrowWithoutParameters(loc: Json, arrowLoc: Json)
    ensures var node := ArrowFunctionExpression([], BinaryExpression("+", Identifier("x"), NumericLiteral(1)), arrowLoc);
      ProcessNode(Statement(node, loc), false) == Done(Op("+", [Var("x"), JNum(1)]))
  {
    var body := BinaryExpression("+", Identifier("x"), NumericLiteral(1));
    Properties.IdentifierRule("x");
    Properties.Literals("", 1, false, false);
    Properties.TwoOperands("+", Identifier("x"), NumericLiteral(1), Var("x"), JNum(1), false);
    Properties.ProcessAllOf([], []);
    Properties.ArrowUnbound([], body, arrowLoc, Op("+", [Var("x"), JNum(1)]));
    StatementIs(ArrowFunctionExpression([], body, arrowLoc), loc);
  }

  // (x) => { a === b; c === d ; }
  lemma ArrowWithLongBody(loc: Json, arrowLoc: Json, blockLoc: Json)
    ensures var block := BlockStatement([
              ExpressionStatement(BinaryExpression("===", Identifier("a"), Identifier("b"))),
              ExpressionStatement(BinaryExpression("===", Identifier("c"), Identifier("d")))], blockLoc);
      var r := ProcessNode(Statement(ArrowFunctionExpression([Identifier("x")], block, arrowLoc), loc), false);
      r.Done? && ErrorOf(r.value) == Some((OneLineArrowOnly, arrowLoc))
  {
    var statements := [
      ExpressionStatement(BinaryExpression("===", Identifier("a"), Identifier("b"))),
      ExpressionStatement(BinaryExpression("===", Identifier("c"), Identifier("d")))];
    Properties.ArrowBlockRejected([Identifier("x")], statements, blockLoc, arrowLoc);
    StatementIs(ArrowFunctionExpression([Identifier("x")], BlockStatement(statements, blockLoc), arrowLoc), loc);
  }

  // a++
  lemma UpdateRejected(loc: Json, nodeLoc: Json)
    ensures var r := ProcessNode(Statement(Unsupported(UpdateExpression, nodeLoc), loc), false);
      r.Done? && ErrorOf(r.value) == Some((UpdateExpressionMessage, nodeLoc))
  {
    Properties.UnsupportedRejected(UpdateExpression, nodeLoc, false);
    StatementIs(Unsupported(UpdateExpression, nodeLoc), loc);
  }

  // x = 1
  lemma AssignmentRejected(loc: Json, nodeLoc: Json)
    ensures var r := ProcessNode(Statement(Unsupported(AssignmentExpression, nodeLoc), loc), false);
      r.Done? && ErrorOf(r.value) == Some(("Assignments not supported.", nodeLoc))
  {
    Properties.UnsupportedRejected(AssignmentExpression, nodeLoc, false);
    StatementIs(Unsupported(AssignmentExpression, nodeLoc), loc);
  }

  // with (a) {}
  lemma WithRejected(loc: Json, nodeLoc: Json)
    ensures var r := ProcessNode(Program1(Other("WithStatement", nodeLoc), loc), false);
      r.Done? && ErrorOf(r.value) == Some((InvalidNodeMessage("WithStatement"), nodeLoc))
  {
    Properties.UnknownRejected("WithStatement", nodeLoc, false);
    Program1Is(Other("WithStatement", nodeLoc), loc);
  }

  lemma WithMessage()
    ensures InvalidNodeMessage("WithStatement") == "Invalid node 'WithStatement'. Not supported."
  {
  }

  // "hi";"hey";
  lemma TwoDirectivesRejected(loc: Json)
    ensures var r := ProcessNode(File(Program([Directive(DirectiveLiteral("hi")), Directive(DirectiveLiteral("hey"))], [], loc)), false);
      r.Done? && ErrorOf(r.value) == Some((OneExpressionOnly, loc))
  {
    var program := Program([Directive(DirectiveLiteral("hi")), Directive(DirectiveLiteral("hey"))], [], loc);
    Properties.TooManyStatements(program.directives, [], loc);
    Properties.Wrappers(program, false);
  }

  // a === b; b === c;
  lemma TwoStatementsRejected(loc: Json)
    ensures var body := [
              ExpressionStatement(BinaryExpression("===", Identifier("a"), Identifier("b"))),
              ExpressionStatement(BinaryExpression("===", Identifier("b"), Identifier("c")))];
      var r := ProcessNode(File(Program([], body, loc)), false);
      r.Done? && ErrorOf(r.value) == Some((OneStatementOnly, loc))
  {
    var body := [
      ExpressionStatement(BinaryExpression("===", Identifier("a"), Identifier("b"))),
      ExpressionStatement(BinaryExpression("===", Identifier("b"), Identifier("c")))];
    Properties.TooManyStatements([], body, loc);
    Properties.Wrappers(Program([], body, loc), false);
  }

  // a++ + 1: the rejection of the operand is embedded in the sum
  lemma RejectionEmbedded(loc: Json, nodeLoc: Json)
    ensures var r := ProcessNode(Statement(BinaryExpression("+", Unsupported(UpdateExpression, nodeLoc), NumericLiteral(1)), loc), false);
      && r.Done? && r.value.JObj? && |r.value.entries| == 1 && r.value.entries[0].0 == "+"
      && r.value.entries[0].1.JArr? && |r.value.entries[0].1.items| == 2
      && ErrorOf(r.value.entries[0].1.items[0]) == Some((UpdateExpressionMessage, nodeLoc))
      && r.value.entries[0].1.items[1] == JNum(1)
  {
    var rejected := Unsupported(UpdateExpression, nodeLoc);
    Properties.UnsupportedRejected(UpdateExpression, nodeLoc, false);
    var e := ProcessNode(rejected, false).value;
    Properties.Literals("", 1, false, false);
    Properties.TwoOperands("+", rejected, NumericLiteral(1), e, JNum(1), false);
    StatementIs(BinaryExpression("+", rejected, NumericLiteral(1)), loc);
  }
}
