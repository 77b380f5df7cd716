# js-to-json-logic in Dafny

This project models the transformer of js-to-json-logic (`lib/index.js`), which
turns a JavaScript expression into a JsonLogic rule, and proves what each case
of the transformation produces.

The parser's output is the input here. It is a `Syntax.Node` tree with one
constructor per node kind the transformer distinguishes; `Other(typeName, loc)`
covers every other kind. The output is a `Json.Json` value, and object entries
keep their insertion order. `Transformer.ProcessNode` is `processNode`, case
by case; its larger cases have a function of their own.

- A construct the transformer rejects yields the ordinary value
  `{parsing_error: {message, at}}`, built by `Transformer.ProcessError`.
- A JavaScript runtime exception is the `Threw` outcome. It propagates with `:-`,
  as the exception does, and `Transformer.TransformJS` turns it into a
  "Could not parse code. " error. Examples of such exceptions:
  reading `.type` in `processNode(undefined)` for the missing `body[0]` of an
  empty body, or in `processNode(null)` for the missing argument of a
  `return`, `Object.entries(null)`, and converting an object with an own `toString` property to a string.

The modules are:

- Operators: `processOp`.
- Binder: `replaceVariable`, as a function and as the loop the source writes.
- Objects: the object a literal builds, key by key.
- Template: the pieces of a template literal.
- Transformer: `processError`, `processNode` and `transformJS`.
- Cases: the template-literal and object-literal loops as methods, each proved
  equal to the corresponding case of `ProcessNode`.
- Properties: what every case promises.
- Examples: the inputs from the project's test suite worked through the model.

These behaviours of the code may be unexpected, and the model keeps them:

- `&&` and `||` chains are not flattened. `a && b && c` is `{and: [{and: [a, b]}, c]}`, as `Examples.LogicalChainNests` shows.
- A rejection does not end the transformation. It is a value, and it is embedded in its parent's rule (`Examples.RejectionEmbedded`).
- An `if` statement filters its test and branches with `Boolean`. A branch whose rule is `0`, `""`, `false` or `null` disappears, and so does a falsy test (`Examples.IfDropsFalsyBranch`).
- A member leg that is an identifier contributes its name even when access is computed: `a[b]` is `{var: "a.b"}`.
- A one-parameter arrow does not rewrite every reference to its parameter. Only the rule's first entry is looked at, and the rewrite descends only into an array under that entry. So `x => x.y` keeps `{var: "x.y"}` (`Examples.ArrowMemberPathKept`). `x => ({k: x})` comes back unchanged (`Examples.ArrowObjectKept`). And `x => x === null` throws on `Object.entries(null)` (`Examples.ArrowNullOperandThrows`).

## Model

| member | source | states |
|---|---|---|
| Operators.ProcessOp | lib/index.js:3-12 | `||` becomes `or` and `&&` becomes `and`. Every other token is returned unchanged. The result is never `||` or `&&`. |
| Operators.ProcessOpIdempotent | lib/index.js:3-12 | Normalising an operator a second time changes nothing. |
| Binder.Entries | lib/index.js:15 | `Object.entries` gives an object's own entries, and nothing for a boolean or a number. For an array or a string there is one entry per element or character, carrying it. Their keys start at "0", never repeat and are never "var". |
| Binder.StrictEquals | lib/index.js:20 | Definition of `value === name`, with `name` what `params[0].var` read. Stated by `Binder.StrictEqualsMeaning`. |
| Binder.StrictEqualsMeaning | lib/index.js:20 | An array or an object never strictly equals the name, because it is a different object. An `undefined` name equals nothing. Any other value equals the name exactly when it is that value. |
| Json.IndexKeys | lib/index.js:15 | Index keys are "0" first, pairwise distinct and never "var". |
| Binder.ReplaceVariable | lib/index.js:14-28 | Definition of `replaceVariable(name)(rule)`; its properties are the `Binder` lemmas below. |
| Binder.ReplaceVariableLoop | lib/index.js:14-28 | The `for ... of` loop, which returns in its first iteration, computes `ReplaceVariable`. |
| Binder.ReplaceAll | lib/index.js:23 | Mapping the rewrite keeps one result per rule. |
| Binder.ReplaceWithoutEntries | lib/index.js:17 | A rule without entries comes back unchanged. |
| Binder.ReplaceReference | lib/index.js:20 | A first entry `var` becomes `{var: ""}` when its value is the parameter's name. Otherwise it becomes that single entry, and later entries are dropped. |
| Binder.ReplaceVariableReference | lib/index.js:20 | `{var: p}` rewritten for parameter `p` is `{var: ""}`. Any other `{var: q}` is unchanged. |
| Binder.ReplaceIntoArray | lib/index.js:22-23 | A first entry with an array value keeps its key alone and maps the rewrite over the array, preserving length and order. It throws exactly when some element's rewrite throws. |
| Binder.ReplaceAllOf | lib/index.js:23 | Rules that all rewrite successfully map to their rewrites, in order. |
| Binder.ReplaceOperation | lib/index.js:22-23 | An operation `{op: args}` other than `var` keeps its name and has every argument rewritten. |
| Binder.ReplaceOtherwise | lib/index.js:24-26 | A first entry that is neither `var` nor has an array value leaves the rule unchanged. |
| Binder.ReplaceAllElements | lib/index.js:23 | The mapped results are the elements' rewrites, and the map throws exactly when one element's rewrite throws. |
| Binder.ReplaceTotal | lib/index.js:14-28 | A rule with no `null` anywhere inside is always rewritten without throwing. |
| Binder.ReplaceAllTotal | lib/index.js:23 | A list of rules with no `null` maps without throwing. |
| Binder.ReplaceIdempotent | lib/index.js:14-28 | Rewriting an already rewritten rule changes nothing. |
| Binder.ReplaceAllIdempotent | lib/index.js:23 | Mapping the rewrite over already rewritten rules changes nothing. |
| Json.ToJsString | lib/index.js:184 | Definition of `String(j)` for a rule. It throws for an object with an own `toString` property. `Json.ToJsStringThrows` states when. |
| Json.ToJsStringThrows | lib/index.js:184 | Conversion throws exactly when the value is not `Convertible`: an object with an own `toString` property, possibly inside an array. |
| Json.JoinElements | lib/index.js:184 | The `join` of an array throws exactly when one of its elements is not convertible. |
| Json.JoinElementsThrows | lib/index.js:184 | Joining throws exactly when some element cannot be converted. |
| Json.ReadVar | lib/index.js:211 | `params[0].var` throws exactly on `null`. Only an object can have a `var` property. |
| Json.Truthy | lib/index.js:197 | Definition of `Boolean(j)`. Stated by `Json.FalsyValues`. |
| Json.FalsyValues | lib/index.js:197 | The falsy rules are exactly `null`, `false`, `0` and `""`. Every array and object is truthy, even an empty one. |
| Json.NumToString | lib/index.js:184 | Definition of `String(n)` for an integer, also used for number keys (lib/index.js:117) and callees (lib/index.js:139). Stated by `Json.NumToStringInjective` and `Json.DigitsRoundTrip`. |
| Json.NumToStringInjective | lib/index.js:184 | Distinct numbers render as distinct strings in a member path. |
| Json.DigitsRoundTrip | lib/index.js:184 | The decimal rendering of a number reads back as that number. |
| Transformer.ProcessNode | lib/index.js:39-254 | Definition of `processNode`, case by case. What each case gives is stated by the `Properties` lemmas. |
| Transformer.ProcessBody | lib/index.js:44-54 | Definition of the one-statement body of a program or a block. Stated by `Properties.SingleStatement` and `Properties.TooManyStatements`. |
| Transformer.ProcessTemplate | lib/index.js:55-76 | Definition of the template case. Stated by `Properties.TemplateRule` and proved equal to `Cases.TemplateLiteralLoop`. |
| Transformer.ProcessCall | lib/index.js:138-144 | Definition of the call case. Stated by `Properties.CallRule` and `Properties.CallThrows`. |
| Transformer.ProcessBinary | lib/index.js:146-151 | Definition of the binary and logical case. Stated by `Properties.TwoOperands`. |
| Transformer.ProcessUnary | lib/index.js:153-167 | Definition of the unary case. Stated by `Properties.DoubleNegation`, `Properties.NegatedLiteral` and `Properties.OtherUnary`. |
| Transformer.ProcessConditional | lib/index.js:169-177 | Definition of the ternary case. Stated by `Properties.TernaryThreeArguments`. |
| Transformer.ProcessMember | lib/index.js:178-187 | Definition of the member case. Stated by `Properties.MemberRule` and `Properties.MemberChain`. |
| Transformer.ProcessIf | lib/index.js:189-199 | Definition of the if case. Stated by `Properties.IfRule` and `Properties.IfStatementBranches`. |
| Transformer.ProcessArrow | lib/index.js:201-212 | Definition of the arrow case. Stated by the `Properties.Arrow...` lemmas. |
| Transformer.MemberLeg | lib/index.js:179-183 | Definition of the string a leg or callee contributes. Stated by `Properties.MemberLegConversion`. |
| Transformer.PropertyPairs | lib/index.js:113-120 | Definition of the assignments an object literal makes. Stated by `Properties.ObjectLiteral`, `Properties.SpreadsIgnored` and `Properties.PropertyPairsPrefixThrew`. |
| Transformer.PropertyPair | lib/index.js:116-117 | Definition of one member's assignment. Stated by `Properties.PropertyKeyConversion`. |
| Transformer.KeepTruthy | lib/index.js:197 | `filter(Boolean)` keeps only truthy values, and never more values than it gets. Its order is stated by `Properties.KeepTruthyConcat`. |
| Transformer.TransformJS | lib/index.js:256-267 | Definition of `transformJS`. Stated by `Properties.TransformJSResult`. |
| Transformer.ProcessError | lib/index.js:30-37 | The error value carries the message and the location, and both read back. |
| Transformer.Consumed | lib/index.js:59-69 | The template loop consumes the first min(chunks, expressions) expressions, in order. |
| Transformer.ProcessAll | lib/index.js:110 | `map(processNode)` keeps one result per node. |
| Properties.ProcessAllElements | lib/index.js:110 | Each mapped result is its node's rule, and the map throws exactly when one node's transformation throws. |
| Properties.ProcessAllOf | lib/index.js:110 | Nodes that all transform successfully map to their rules, in order. |
| Properties.ProcessAllThrewAt | lib/index.js:110 | One node that throws makes the whole map throw. |
| Properties.PropertyPairsPrefixThrew | lib/index.js:115-118 | A throw among the first members of an object literal is a throw for the whole literal. |
| Properties.Literals | lib/index.js:81-90 | String, numeric, boolean and directive literals give their values. `null` and `undefined` give null. |
| Properties.RegExpPair | lib/index.js:96-98 | A regular expression literal is the pair `[pattern, flags]`. |
| Properties.IdentifierRule | lib/index.js:122-126 | An identifier other than `undefined` is `{var: name}`, or its bare name in value-only mode. |
| Properties.Wrappers | lib/index.js:41-43 | File, expression statement, directive and return with an argument all have their child's rule. A return without an argument throws. |
| Properties.SingleStatement | lib/index.js:44-54 | A single directive, a single statement and a single-statement block have that child's rule. An empty program or block throws. |
| Properties.TooManyStatements | lib/index.js:45-53 | Several directives give "Only one expression statement allowed.". Several statements in a program or a block give "Block statements can only have one expression statement.". Each error is at the node's location. |
| Properties.MemberRule | lib/index.js:178-187 | A member expression joins its two legs' strings with a dot. The result is that path in value-only mode, `{var: path}` otherwise. |
| Properties.MemberChain | lib/index.js:178-187 | A chain of names and numeric indices of any depth is one variable reference to its dot-joined path. |
| Properties.MemberLegConversion | lib/index.js:179-184 | A leg that is not an identifier contributes its value-only rule as `String` converts it, and throws exactly when that rule is not convertible. |
| Properties.CallRule | lib/index.js:138-144 | A call is `{callee string: argument rules}`. |
| Properties.CallOfName | lib/index.js:138-144 | Calling a plain name gives `{name: argument rules}`. |
| Properties.CallOfMember | lib/index.js:138-144 | Calling a method chain is keyed by the chain's dot-joined path. |
| Properties.CallThrows | lib/index.js:142 | An argument that throws makes the call throw. |
| Properties.TwoOperands | lib/index.js:146-151 | Binary and logical expressions give the normalised operator applied to exactly their two operands' rules. |
| Properties.DoubleNegation | lib/index.js:154-158 | `!!x` is `{"!!": [x]}`. |
| Properties.NegatedLiteral | lib/index.js:160-162 | `-n` of a numeric literal is the number `-n`. |
| Properties.OtherUnary | lib/index.js:164-166 | Any other unary expression applies its operator to its one argument's rule. |
| Properties.TernaryThreeArguments | lib/index.js:169-177 | A ternary is `{if: [test, consequent, alternate]}`. |
| Properties.KeepTruthyFilters | lib/index.js:197 | `filter(Boolean)` keeps exactly the truthy values, and no more of them. An all-truthy list is kept whole. |
| Properties.KeepTruthyConcat | lib/index.js:197 | Filtering distributes over concatenation, so the survivors keep their order and their multiplicity. |
| Properties.KeepTruthyOne | lib/index.js:197 | One value survives exactly when it is truthy. |
| Properties.KeepTruthyBranches | lib/index.js:191-197 | The filtered list of test, consequent and alternatives is test (if truthy), then consequent (if truthy), then the truthy alternatives. It holds exactly the truthy ones among them. |
| Properties.IfRule | lib/index.js:189-199 | An if statement is `{if: ...}` over the truthy ones among test, consequent and alternate, in order. |
| Properties.IfStatementBranches | lib/index.js:189-199 | The `if` arguments are the truthy ones among test, consequent and alternate, in that order, and nothing else. |
| Properties.ArrayLiteral | lib/index.js:100-111 | One rule per element, in order. The result is `{merge: ...}` exactly when some element is a spread. |
| Syntax.HasSpread | lib/index.js:102 | Definition of `elements.some(node => node.type === "SpreadElement")`. Stated by `Syntax.HasSpreadConcat`. |
| Syntax.HasSpreadConcat | lib/index.js:102 | An empty list has no spread. A list has a spread exactly when one of its parts has one. |
| Properties.ArrayLiteralThrows | lib/index.js:100-111 | An array literal throws exactly when one of its elements does. |
| Properties.SpreadIsItsArgument | lib/index.js:92-94 | A spread element has its argument's rule. |
| Properties.TemplateLiteralResult | lib/index.js:55-76 | A template literal is its single piece, or otherwise `{cat: pieces}`. There are never more pieces than chunks and expressions together. |
| Properties.TemplateRule | lib/index.js:55-76 | A template literal collapses the pieces of the values of the expressions it consumes, and throws when one of them throws. |
| Properties.TemplateSingleExpression | lib/index.js:71 | `${e}` alone has the rule of `e`. |
| Properties.TemplateParsed | lib/index.js:55-76 | A template with expressions, one chunk more than expressions and no empty chunk alternates text and values and is a `cat`. |
| Template.Pieces | lib/index.js:56-69 | Definition of the pieces the template loop pushes. Stated by the `Template.Pieces...` lemmas. |
| Template.Collapse | lib/index.js:71-75 | Definition: a single piece stands for itself, otherwise `{cat: pieces}`. |
| Template.Chunk | lib/index.js:61-63 | Definition of the chunk test. Stated by `Template.ChunkTruthy`. |
| Template.ChunkTruthy | lib/index.js:61-63 | A chunk is pushed exactly when its cooked text is truthy, and at most one piece is pushed for it. |
| Template.PiecesBounds | lib/index.js:56-69 | There are at least as many pieces as values, and at most as many as chunks and values together. |
| Template.PiecesLength | lib/index.js:56-69 | There is one piece per non-empty chunk and one per value. |
| Template.PiecesValuePositions | lib/index.js:56-69 | Value `i` is at position `i` plus the number of non-empty chunks up to and including chunk `i`. |
| Template.PiecesTextPositions | lib/index.js:56-69 | A non-empty chunk `i` is at the position after the non-empty chunks and the values before it. |
| Template.PiecesPaired | lib/index.js:56-69 | With one value per non-empty chunk, the pieces alternate chunk, value, … |
| Template.PiecesAlternate | lib/index.js:56-69 | With one chunk more than values and none empty, the pieces start and end with text and alternate between. |
| Template.PiecesWithoutText | lib/index.js:61-63 | With empty chunks only, the pieces are exactly the values. |
| Template.PiecesWithoutValues | lib/index.js:56-69 | Without expressions, the pieces are the non-empty chunks. |
| Cases.TemplateLiteralLoop | lib/index.js:55-76 | The loop over the chunks, pushing to `nodes` and advancing `index`, computes the template case of `ProcessNode`. |
| Cases.ObjectExpressionLoop | lib/index.js:113-120 | The loop assigning into `result` and skipping spreads computes the object case of `ProcessNode`. |
| Objects.Assign | lib/index.js:117 | Definition of `o[key] = value`. Stated by `Objects.AssignEffect`. |
| Objects.Build | lib/index.js:114-119 | An object built by assignments never repeats a key. |
| Objects.AssignEffect | lib/index.js:117 | After `o[key] = value`, the key reads as the value and every other key reads as before. A new key goes last, and keys stay unique. |
| Objects.BuildGet | lib/index.js:114-119 | Each key reads as its last assignment. |
| Objects.BuildKeys | lib/index.js:114-119 | The object's keys are the assigned keys, each once, in order of first assignment. |
| Properties.ObjectLiteral | lib/index.js:113-120 | An object literal has unique keys in order of first assignment, and each key reads as its last assigned value. |
| Properties.PropertyKeyConversion | lib/index.js:117 | A member assigns under its key's value-only rule, converted to a string. It throws exactly when that rule cannot be converted. |
| Properties.SpreadsIgnored | lib/index.js:116 | Spread members are skipped, and their arguments are not transformed. |
| Properties.ArrowBlockRejected | lib/index.js:202-204 | A block body of several statements gives "Only one-line arrow functions with implicit return are supported." at the arrow's location. |
| Properties.ArrowUnbound | lib/index.js:206-210 | With zero or several parameters, the arrow is its body's rule, unchanged. |
| Properties.ArrowOneParameter | lib/index.js:206-211 | With one parameter of any kind, the body's rule is rewritten for what `.var` reads from the parameter's rule. A `null` rule throws. An object gives its `var` entry. Anything else gives `undefined`. |
| Properties.ArrowBound | lib/index.js:206-211 | With one identifier parameter, the arrow is its body's rule rewritten for that parameter's name. A parameter named `undefined` throws. |
| Properties.UnsupportedRejected | lib/index.js:218-248 | Each unsupported kind gives its own fixed message at the node's location. |
| Properties.UnknownRejected | lib/index.js:249-252 | A kind with no case of its own gives "Invalid node '<type>'. Not supported." at the node's location. |
| Syntax.UnsupportedMessage | lib/index.js:218-248 | Definition of the fixed message of each unsupported kind. Stated by `Syntax.UnsupportedMessagesDistinct`. |
| Syntax.UnsupportedMessagesDistinct | lib/index.js:218-248 | Different unsupported kinds have different messages. |
| Syntax.InvalidNodeMessage | lib/index.js:249-252 | Definition of the message for an unknown kind. Stated by `Syntax.InvalidNodeMessageInjective`. |
| Syntax.InvalidNodeMessageInjective | lib/index.js:249-252 | The message names the kind, so two kinds never share a message. |
| Properties.TransformJSResult | lib/index.js:256-267 | A tree that transforms gives its rule. A syntax error gives "Could not parse code. " followed by its message, at `{start, end}` equal to its position. A runtime exception gives the same prefix and its message, at `{start: undefined, end: undefined}`, which is `{}` once the undefined properties are dropped. |
| Examples.PlainString | test/index.js:27 | `"hi"` is `"hi"`. |
| Examples.CallWithString | test/index.js:28 | `say("hey!")` is `{say: ["hey!"]}`. |
| Examples.StringSum | test/index.js:29 | `blue + "hey"` is `{"+": [{var: "blue"}, "hey"]}`. |
| Examples.Variable | test/index.js:34 | `myVar` is `{var: "myVar"}`. |
| Examples.Undefined | test/index.js:36 | `undefined` is null. |
| Examples.IndexedMember | test/index.js:40 | `arr[0]` is `{var: "arr.0"}`. |
| Examples.MixedMemberChain | lib/index.js:178-187 | `a.b[1].c` is `{var: "a.b.1.c"}`. |
| Examples.MemberCall | lib/index.js:138-144 | `obj.deep.fn(plus, "args")` is `{"obj.deep.fn": [{var: "plus"}, "args"]}`. |
| Examples.RegExp | test/index.js:63 | `/word/` is `["word", ""]`. |
| Examples.PlainArray | test/index.js:72 | `[1, 2, 3]` is `[1, 2, 3]`. |
| Examples.SpreadArray | test/index.js:93-99 | `[1, 2, ...myArray]` is `{merge: [1, 2, {var: "myArray"}]}`. |
| Examples.ObjectIgnoresSpread | test/index.js:103-106 | `({a: 1, b: 2, ...c})` is `{a: 1, b: 2}`. |
| Examples.ComputedKeyWithToStringThrows | lib/index.js:117 | `({[toString()]: 1})` throws: its key's rule `{toString: []}` cannot be converted to a property key. |
| Examples.TemplateWithText | lib/index.js:55-76 | `` `Hello, ${name}!` `` is `{cat: ["Hello, ", {var: "name"}, "!"]}`. |
| Examples.TemplateWithoutExpressions | test/index.js:139 | `` `Hello there` `` is `"Hello there"`. |
| Examples.TemplateOfOneVariable | test/index.js:140 | `` `${hi}` `` is `{var: "hi"}`. |
| Examples.LogicalOr | test/index.js:189-194 | `price > wallet \|\| price < 0` is `{or: [{">": ...}, {"<": ...}]}`. |
| Examples.LogicalChainNests | lib/index.js:146-151 | `a && b && c` nests as `{and: [{and: [a, b]}, c]}`. |
| Examples.Ternary | test/index.js:204-210 | `a ? b : c` is `{if: [{var: "a"}, {var: "b"}, {var: "c"}]}`. |
| Examples.IfWithoutElse | lib/index.js:189-199 | `if (a > b) { "yes" }` is `{if: [{">": [a, b]}, "yes"]}`. |
| Examples.IfDropsFalsyBranch | lib/index.js:197 | `if (a) { 0 }` is `{if: [{var: "a"}]}`: the falsy branch is dropped. |
| Examples.IfFalsyTestKeepsBranches | lib/index.js:189-199 | `if (0) { a } else { b }` is `{if: [{var: "a"}, {var: "b"}]}`: the falsy test is dropped and the branches keep their order. |
| Examples.SingleBang | test/index.js:255 | `!variable` is `{"!": [{var: "variable"}]}`. |
| Examples.DoubleBang | test/index.js:256 | `!!variable` is `{"!!": [{var: "variable"}]}`. |
| Examples.NegativeLiteral | test/index.js:257 | `a > -1` is `{">": [{var: "a"}, -1]}`. |
| Examples.ArrowParameterBecomesCurrentValue | test/index.js:262 | `x => x + 1` is `{"+": [{var: ""}, 1]}`. |
| Examples.ArrowWithoutParameters | test/index.js:263 | `() => x + 1` is `{"+": [{var: "x"}, 1]}`. |
| Examples.ArrowOtherVariableKept | test/index.js:278 | `x => y + 1` is `{"+": [{var: "y"}, 1]}`. |
| Examples.ArrowMemberPathKept | lib/index.js:14-28 | `x => x.y` is `{var: "x.y"}`: a path starting at the parameter is not rewritten. |
| Examples.ArrowObjectKept | lib/index.js:14-28 | `x => ({k: x})` is `{k: {var: "x"}}`: a first entry that holds no array stops the rewrite. |
| Examples.ArrowNullOperandThrows | lib/index.js:14-28 | `x => x === null` throws when `Object.entries(null)` is reached, and `transformJS` reports "Could not parse code. ", followed by the message. |
| Examples.ArrowWithLongBody | test/index.js:279 | A two-statement arrow body is rejected with the one-line message. |
| Examples.UpdateRejected | test/index.js:283 | `a++` is rejected with the update-expression message. |
| Examples.AssignmentRejected | test/index.js:292 | `x = 1` is rejected with "Assignments not supported.". |
| Examples.WithRejected | test/index.js:293 | `with (a) {}` is rejected as an invalid `WithStatement` node. |
| Examples.WithMessage | lib/index.js:249-252 | That message reads "Invalid node 'WithStatement'. Not supported.". |
| Examples.TwoStatementsRejected | test/index.js:298 | `a === b; b === c;` is rejected with the block-statement message. |
| Examples.TwoDirectivesRejected | test/index.js:299 | `"hi";"hey";` is rejected with "Only one expression statement allowed.". |
| Examples.RejectionEmbedded | lib/index.js:146-151 | In `a++ + 1`, the rejection of `a++` is the first operand of the sum, and the transformation goes on. |

## Left out

- The parser (`@babel/parser`). The model starts from its tree. A syntax error, with its position and message, is an input of `TransformJS`.
- Exception text. A runtime exception's message comes from the JavaScript engine, so it is a parameter of `TransformJS`.
- Properties.TransformJSResult: a runtime exception has no `loc`, so the source reports `at: {start: undefined, end: undefined}`. JSON cannot hold `undefined`, so the model reports `{}`, which is what serialisation makes of it. A deep-equality comparison would still tell the two apart, because it counts the two undefined keys.
- Floating point. Numbers are integers, so `2.40`, exponent notation and the `-0` that `0 * -1` produces are not modelled. `Json.NumToString` is `String(n)` for integers only.
- Source locations. They are opaque JSON values, carried only by the node kinds whose case reports an error at them.
- Object keys that look like integers. JavaScript lists them first, in numeric order. The model keeps all keys in insertion order, and it does not model the special meaning of a `__proto__` key.
- Strings. They are sequences of characters, with no UTF-16 detail. `Object.entries` of a string, used by `replaceVariable`, is taken character by character.
- Other node kinds. Every kind not listed in `Syntax.Node` is `Other(typeName, loc)`, which matches the source's default case. Kinds the transformer shares cases for, such as computed and plain member access, are one constructor each.
- Properties.CallOfMember: states the key only for callees that are chains of names and numeric indices. `Properties.CallRule` covers any callee whose leg string is known.
- String conversion of objects covers only an own `toString` property. The model does not cover the effect of `valueOf`, `Symbol.toPrimitive` and the prototype chain, because a rule is plain data with none of them.
