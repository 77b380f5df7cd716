/** The transformer: `processNode` turns a syntax node into a JsonLogic rule,
    or into a `{parsing_error: {message, at}}` value for a construct it
    rejects. Rejections are ordinary values, so a rejected child is embedded
    in its parent's rule. A JavaScript runtime exception (reading a property
    of a missing node, for one) is `Threw` and ends the whole transformation. */
module Transformer {
  import opened Results
  import opened Json
  import opened Syntax
  import Operators
  import Binder
  import Template
  import Objects

  /** `{parsing_error: {message, at: loc}}`. */
  function ProcessError(loc: Json, message: string): (r: Json)
    ensures ErrorOf(r) == Some((message, loc))
  {
    var fields := [("message", JStr(message)), ("at", loc)];
    assert Get(fields, "at") == Get(fields[1..], "at");
    JObj([("parsing_error", JObj(fields))])
  }

  /** Reads the message and location back out of a parsing-error value. */
  function ErrorOf(j: Json): Option<(string, Json)> {
    if !j.JObj? then None
    else
      match Get(j.entries, "parsing_error")
      case Some(JObj(fields)) =>
        (match (Get(fields, "message"), Get(fields, "at"))
         case (Some(JStr(message)), Some(at)) => Some((message, at))
         case _ => None)
      case _ => None
  }

  /** `processNode(node, valueOnly)`. `valueOnly` asks identifiers and member
      expressions for their bare path instead of a `{var: path}` rule. The
      larger cases have a function of their own. */
  function ProcessNode(node: Node, valueOnly: bool): Outcome<Json>
    decreases node, 1
  {
    match node
    case File(program) => ProcessNode(program, false)
    case Program(directives, body, loc) =>
      if |directives| > 0 then
        if |directives| > 1 then Done(ProcessError(loc, OneExpressionOnly))
        else ProcessNode(directives[0], false)
      else ProcessBody(body, loc)
    case TemplateLiteral(_, _) => ProcessTemplate(node)
    case Directive(value) => ProcessNode(value, false)
    case DirectiveLiteral(text) => Done(JStr(text))
    case BooleanLiteral(b) => Done(JBool(b))
    case StringLiteral(s) => Done(JStr(s))
    case NumericLiteral(n) => Done(JNum(n))
    case NullLiteral => Done(JNull)
    case SpreadElement(argument) => ProcessNode(argument, false)
    case RegExpLiteral(pattern, flags) => Done(JArr([JStr(pattern), JStr(flags)]))
    case ArrayExpression(elements) =>
      var values :- ProcessAll(elements);
      Done(if HasSpread(elements) then Op("merge", values) else JArr(values))
    case ObjectExpression(properties) =>
      var pairs :- PropertyPairs(properties);
      Done(JObj(Objects.Build(pairs)))
    case Identifier(name) =>
      Done(if name == "undefined" then JNull else if valueOnly then JStr(name) else Var(name))
    case ExpressionStatement(expression) => ProcessNode(expression, false)
    case BlockStatement(body, loc) => ProcessBody(body, loc)
    case CallExpression(_, _) => ProcessCall(node)
    case LogicalExpression(_, _, _) => ProcessBinary(node)
    case BinaryExpression(_, _, _) => ProcessBinary(node)
    case UnaryExpression(_, _) => ProcessUnary(node)
    case ConditionalExpression(_, _, _) => ProcessConditional(node)
    case MemberExpression(_, _) => ProcessMember(node, valueOnly)
    case IfStatement(_, _, _) => ProcessIf(node)
    case ArrowFunctionExpression(_, _, _) => ProcessArrow(node)
    case ReturnStatement(returned) =>
      if returned.None? then Threw else ProcessNode(returned.value, false)
    case Unsupported(kind, loc) => Done(ProcessError(loc, UnsupportedMessage(kind)))
    case Other(typeName, loc) => Done(ProcessError(loc, InvalidNodeMessage(typeName)))
    case Hole => Threw
  }

  /** The body of a program without directives, or of a block: one statement
      at most. `body[0]` of an empty body is `undefined`, and transforming it
      throws when its `type` is read. */
  function ProcessBody(body: seq<Node>, loc: Json): Outcome<Json>
    decreases body, 0
  {
    if |body| > 1 then Done(ProcessError(loc, OneStatementOnly))
    else if |body| == 0 then Threw
    else ProcessNode(body[0], false)
  }

  function ProcessTemplate(node: Node): Outcome<Json>
    requires node.TemplateLiteral?
    decreases node, 0
  {
    var values :- ProcessAll(Consumed(node.quasis, node.expressions));
    Done(Template.Collapse(Template.Pieces(node.quasis, values)))
  }

  /** The template loop consumes one expression per chunk, and never more
      expressions than there are. */
  function Consumed(quasis: seq<string>, expressions: seq<Node>): (r: seq<Node>)
    ensures |r| == Min(|quasis|, |expressions|)
    ensures forall i :: 0 <= i < |r| ==> r[i] == expressions[i]
  {
    if |quasis| < |expressions| then expressions[..|quasis|] else expressions
  }

  /** `{callee: args}`, the callee named as a member-expression leg is. */
  function ProcessCall(node: Node): Outcome<Json>
    requires node.CallExpression?
    decreases node, 0
  {
    var key :- MemberLeg(node.callee);
    var values :- ProcessAll(node.args);
    Done(JObj([(key, JArr(values))]))
  }

  /** `{op: [left, right]}` for binary and logical expressions alike. */
  function ProcessBinary(node: Node): Outcome<Json>
    requires node.LogicalExpression? || node.BinaryExpression?
    decreases node, 0
  {
    var l :- ProcessNode(node.left, false);
    var r :- ProcessNode(node.right, false);
    Done(Op(Operators.ProcessOp(node.operator), [l, r]))
  }

  function ProcessUnary(node: Node): Outcome<Json>
    requires node.UnaryExpression?
    decreases node, 0
  {
    var operator := node.operator;
    var argument := node.argument;
    if operator == "!" && OperatorOf(argument) == Some("!") then
      // `argument.argument` exists only on a unary operand
      if argument.UnaryExpression? then
        var inner :- ProcessNode(argument.argument, false);
        Done(Op("!!", [inner]))
      else Threw
    else if operator == "-" && argument.NumericLiteral? then
      Done(JNum(-argument.numValue))
    else
      var v :- ProcessNode(argument, false);
      Done(Op(operator, [v]))
  }

  function ProcessConditional(node: Node): Outcome<Json>
    requires node.ConditionalExpression?
    decreases node, 0
  {
    var t :- ProcessNode(node.test, false);
    var c :- ProcessNode(node.consequent, false);
    var a :- ProcessNode(node.alternate, false);
    Done(Op("if", [t, c, a]))
  }

  function ProcessMember(node: Node, valueOnly: bool): Outcome<Json>
    requires node.MemberExpression?
    decreases node, 0
  {
    var o :- MemberLeg(node.obj);
    var p :- MemberLeg(node.prop);
    var path := o + "." + p;
    Done(if valueOnly then JStr(path) else Var(path))
  }

  function ProcessIf(node: Node): Outcome<Json>
    requires node.IfStatement?
    decreases node, 0
  {
    var t :- ProcessNode(node.test, false);
    var c :- ProcessNode(node.consequent, false);
    var rest :- (match node.alternative
                 case None => Done([])
                 case Some(a) => (var v :- ProcessNode(a, false); Done([v])));
    Done(Op("if", KeepTruthy([t, c] + rest)))
  }

  function ProcessArrow(node: Node): Outcome<Json>
    requires node.ArrowFunctionExpression?
    decreases node, 0
  {
    var body := node.arrowBody;
    if body.BlockStatement? && |body.body| > 1 then Done(ProcessError(node.loc, OneLineArrowOnly))
    else
      var ps :- ProcessAll(node.params);
      var b :- ProcessNode(body, false);
      if |node.params| != 1 then Done(b)
      else
        var name :- ReadVar(ps[0]);
        Binder.ReplaceVariable(name, b)
  }

  /** The string a member-expression leg or a callee contributes: an
      identifier's own name, otherwise the node's value-only result as a
      template string converts it (which throws for an object with an own
      `toString` property). */
  function MemberLeg(leg: Node): Outcome<string>
    decreases leg, 2
  {
    if leg.Identifier? then Done(leg.name)
    else
      var j :- ProcessNode(leg, true);
      ToJsString(j)
  }

  /** `nodes.map((node) => processNode(node))`. */
  function ProcessAll(nodes: seq<Node>): (r: Outcome<seq<Json>>)
    ensures r.Done? ==> |r.value| == |nodes|
    decreases nodes, 0
  {
    if |nodes| == 0 then Done([])
    else
      var init :- ProcessAll(nodes[..|nodes| - 1]);
      var last :- ProcessNode(nodes[|nodes| - 1], false);
      Done(init + [last])
  }

  /** The (key, value) assignments an object literal performs, in order:
      spreads are skipped, a key is converted to a string (which can throw),
      and a method, which has no `value`, throws. */
  function PropertyPairs(properties: seq<Property>): Outcome<seq<(string, Json)>>
    decreases properties, 0
  {
    if |properties| == 0 then Done([])
    else
      var init :- PropertyPairs(properties[..|properties| - 1]);
      var last :- PropertyPair(properties[|properties| - 1]);
      Done(init + last)
  }

  /** The assignment one member of an object literal performs, if any. */
  function PropertyPair(property: Property): Outcome<seq<(string, Json)>>
    decreases property, 0
  {
    match property
    case ObjectSpread(_) => Done([])
    case ObjectMethod(_) => Threw
    case ObjectProperty(key, value) =>
      var k :- ProcessNode(key, true);
      var v :- ProcessNode(value, false);
      var name :- ToJsString(k);
      Done([(name, v)])
  }

  /** `.filter(Boolean)`. */
  function KeepTruthy(values: seq<Json>): (r: seq<Json>)
    ensures |r| <= |values|
    ensures forall i :: 0 <= i < |r| ==> Truthy(r[i])
  {
    if |values| == 0 then []
    else
      var init := KeepTruthy(values[..|values| - 1]);
      if Truthy(values[|values| - 1]) then init + [values[|values| - 1]] else init
  }

  /** What the parser hands over: a tree, or a syntax error at a position. */
  datatype ParseResult = Parsed(file: Node) | SyntaxError(position: Json, message: string)

  const ParseFailurePrefix := "Could not parse code. "

  /** `{start: e.loc, end: e.loc}` for an exception raised while transforming:
      such an exception (a TypeError) has no `loc`, so both properties are
      `undefined`. JSON has no `undefined`; the properties are omitted, as
      serialisation omits them. */
  const NoPosition := JObj([])

  /** `transformJS`: a syntax error, and a runtime exception during the
      transformation, become a parsing error whose message starts with
      "Could not parse code. ". The exception's message comes from the
      JavaScript engine and is a parameter here. */
  function TransformJS(parsed: ParseResult, thrownMessage: string): Json {
    match parsed
    case SyntaxError(position, message) =>
      ProcessError(JObj([("start", position), ("end", position)]), ParseFailurePrefix + message)
    case Parsed(file) =>
      match ProcessNode(file, false)
      case Done(rule) => rule
      case Threw => ProcessError(NoPosition, ParseFailurePrefix + thrownMessage)
  }
}
