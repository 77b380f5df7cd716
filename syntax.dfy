/** The syntax tree the transformer consumes: the node kinds of the Babel
    parser's output that the transformer distinguishes. Source locations are
    carried as opaque JSON values, and only on the kinds whose case reports
    an error at them. */
module Syntax {
  import opened Results
  import opened Json

  /** The statement and expression kinds that are rejected, each with its own message. */
  datatype UnsupportedKind =
    | UpdateExpression
    | TaggedTemplateExpression
    | NewExpression
    | ClassDeclaration
    | FunctionDeclaration
    | WhileStatement
    | ForStatement
    | SwitchStatement
    | VariableDeclaration
    | AssignmentExpression

  /** A syntax node. `Other` is a node of any kind not listed here (its type
      name is not one of the listed ones); `Hole` is the `null` that stands for
      an elided element of an array literal. */
  datatype Node =
    | File(program: Node)
    | Program(directives: seq<Node>, body: seq<Node>, loc: Json)
    | Directive(directiveValue: Node)
    | DirectiveLiteral(text: string)
    | BooleanLiteral(boolValue: bool)
    | StringLiteral(stringValue: string)
    | NumericLiteral(numValue: int)
    | NullLiteral
    | RegExpLiteral(pattern: string, flags: string)
    /** `quasis` are the cooked texts of the template's literal chunks. */
    | TemplateLiteral(quasis: seq<string>, expressions: seq<Node>)
    | Identifier(name: string)
    | SpreadElement(argument: Node)
    | ArrayExpression(elements: seq<Node>)
    | ObjectExpression(properties: seq<Property>)
    | ExpressionStatement(expression: Node)
    | BlockStatement(body: seq<Node>, loc: Json)
    | CallExpression(callee: Node, args: seq<Node>)
    | LogicalExpression(operator: string, left: Node, right: Node)
    | BinaryExpression(operator: string, left: Node, right: Node)
    | UnaryExpression(operator: string, argument: Node)
    | ConditionalExpression(test: Node, consequent: Node, alternate: Node)
    /** `a.b` and `a[b]` alike: the transformer ignores whether access is computed. */
    | MemberExpression(obj: Node, prop: Node)
    | IfStatement(test: Node, consequent: Node, alternative: Option<Node>)
    | ArrowFunctionExpression(params: seq<Node>, arrowBody: Node, loc: Json)
    | ReturnStatement(returned: Option<Node>)
    | Unsupported(kind: UnsupportedKind, loc: Json)
    | Other(typeName: string, loc: Json)
    | Hole

  /** A member of an object literal. */
  datatype Property =
    | ObjectProperty(key: Node, value: Node)
    /** `{ m() {} }`: a method has a key but no `value`. */
    | ObjectMethod(key: Node)
    | ObjectSpread(argument: Node)

  /** The `operator` field of a node, for the kinds that have one. */
  function OperatorOf(node: Node): Option<string> {
    match node
    case LogicalExpression(op, _, _) => Some(op)
    case BinaryExpression(op, _, _) => Some(op)
    case UnaryExpression(op, _) => Some(op)
    case _ => None
  }

  predicate HasSpread(elements: seq<Node>) {
    exists i :: 0 <= i < |elements| && elements[i].SpreadElement?
  }

  /** A list has a spread exactly when one of its parts has one. */
  lemma HasSpreadConcat(a: seq<Node>, b: seq<Node>)
    ensures !HasSpread([])
    ensures HasSpread(a + b) <==> HasSpread(a) || HasSpread(b)
  {
    if HasSpread(a + b) {
      var i :| 0 <= i < |a + b| && (a + b)[i].SpreadElement?;
      if i >= |a| {
        assert b[i - |a|] == (a + b)[i];
      }
    }
    if HasSpread(a) {
      var i :| 0 <= i < |a| && a[i].SpreadElement?;
      assert (a + b)[i] == a[i];
    }
    if HasSpread(b) {
      var i :| 0 <= i < |b| && b[i].SpreadElement?;
      assert (a + b)[|a| + i] == b[i];
    }
  }

  const OneExpressionOnly := "Only one expression statement allowed."
  const OneStatementOnly := "Block statements can only have one expression statement."
  const OneLineArrowOnly := "Only one-line arrow functions with implicit return are supported."

  /** The fixed rejection message of each unsupported kind. */
  const UpdateExpressionMessage := "Update expressions (x++, ++x, x--, --x, etc.) are not supported."
  const TaggedTemplateExpressionMessage := "Tagged template expressions are not supported."
  const NewExpressionMessage := "Expressions that use the `new` keyword are not supported."
  const ClassDeclarationMessage := "Classes are not supported."
  const FunctionDeclarationMessage := "Function declarations are not supported."
  const WhileStatementMessage := "While-loops are not supported."
  const ForStatementMessage := "For-loops are not supported."
  const SwitchStatementMessage := "Switch statements are not supported."
  const VariableDeclarationMessage := "Variable (var, let, const) declarations are not supported."
  const AssignmentExpressionMessage := "Assignments not supported."

  function UnsupportedMessage(kind: UnsupportedKind): string {
    match kind
    case UpdateExpression => UpdateExpressionMessage
    case TaggedTemplateExpression => TaggedTemplateExpressionMessage
    case NewExpression => NewExpressionMessage
    case ClassDeclaration => ClassDeclarationMessage
    case FunctionDeclaration => FunctionDeclarationMessage
    case WhileStatement => WhileStatementMessage
    case ForStatement => ForStatementMessage
    case SwitchStatement => SwitchStatementMessage
    case VariableDeclaration => VariableDeclarationMessage
    case AssignmentExpression => AssignmentExpressionMessage
  }

  /** The type names that have a case of their own in the transformer; an
      `Other` node stands for a kind whose name is not among them. */
  predicate KnownKind(typeName: string) {
    typeName in {
      "File", "Program", "TemplateLiteral", "Directive", "DirectiveLiteral",
      "BooleanLiteral", "StringLiteral", "NumericLiteral", "NullLiteral",
      "SpreadElement", "RegExpLiteral", "ArrayExpression", "ObjectExpression",
      "Identifier", "ExpressionStatement", "BlockStatement", "CallExpression",
      "LogicalExpression", "BinaryExpression", "UnaryExpression",
      "ConditionalExpression", "MemberExpression", "IfStatement",
      "ArrowFunctionExpression", "ReturnStatement", "UpdateExpression",
      "TaggedTemplateExpression", "NewExpression", "ClassDeclaration",
      "FunctionDeclaration", "WhileStatement", "ForStatement", "SwitchStatement",
      "VariableDeclaration", "AssignmentExpression"
    }
  }

  /** The message for a node of a kind the transformer does not know. */
  function InvalidNodeMessage(typeName: string): string {
    "Invalid node '" + typeName + "'. Not supported."
  }

  /** Each unsupported kind has a message of its own. */
  lemma UnsupportedMessagesDistinct(k: UnsupportedKind, l: UnsupportedKind)
    ensures k != l ==> UnsupportedMessage(k) != UnsupportedMessage(l)
  {
  }

  /** The message of an unknown kind names it, so two kinds never share a
      message. */
  lemma InvalidNodeMessageInjective(t: string, u: string)
    ensures InvalidNodeMessage(t) == InvalidNodeMessage(u) ==> t == u
  {
    var prefix := "Invalid node '";
    if InvalidNodeMessage(t) == InvalidNodeMessage(u) {
      assert |t| == |u|;
      assert t == InvalidNodeMessage(t)[|prefix|..|prefix| + |t|];
      assert u == InvalidNodeMessage(u)[|prefix|..|prefix| + |u|];
    }
  }
}
