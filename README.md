# InstantiationPrinter, modelled in Dafny

The `InstantiationPrinter` of php-parser-instantiation-printer takes a PHP-Parser
AST node and builds the expression `new <NodeClass>(arguments...)`. Evaluating that
expression rebuilds an equal node. This project models how it does this:

- **Arguments.** For each constructor parameter, in declaration order, the first of
  these rules that applies gives the value:
  - a `subNodes` parameter gets a keyed bag of the sub-nodes that are not
    parameters themselves. A `Class_` leaves out the keys that hold their
    "unspecified" value;
  - the `name` parameter of a `Name` gets its parts joined with backslashes;
  - `attributes` gets `[]`;
  - any other parameter reads the property of the same name;
  - if no rule applies, the whole build fails with an error naming the parameter
    and the class.
- **Trimming.** A backwards scan drops trailing arguments that are optional and
  strictly equal to their default.
- **Classification.** Each remaining value becomes an expression: a node becomes
  its own instantiation, a scalar its literal, `true`/`false`/`null` a constant
  fetch, and an array an array literal. Any other value is an error.
- **Array wrapping.** Keys are emitted on every item when some key is a string,
  and on none otherwise.
- **Top-level choice.** One parsed statement gives a bare `return <expr>;`. Any
  other number of statements gives `return [ ... ];`.

Reflection is replaced by a class descriptor carried by every node. The descriptor
holds the class name, its kind (a `Name`, a `Class_`, or another node class), the
constructor parameters (name, optional, default when one is available) and the
sub-node names. A node is that descriptor plus a map from property name to value.
The output is an expression tree, not source text. The abstract evaluator in
`Evaluation` gives literal expressions their PHP value:
`Evaluation.LiteralRoundTrip` proves that evaluating the classifier's literal
gives back the value.

Modules, in dependency order:

| module | file | what it holds |
|---|---|---|
| `Values` | values.dfy | values, nodes, class descriptors, errors, expressions |
| `Trimmer` | trimmer.dfy | the trailing-default scan |
| `Introspector` | introspector.dfy | the per-parameter rules, the bag, the name, and the two loops that reconstruct the arguments |
| `Builder` | builder.dfy | the classifier, the instantiation, array wrapping, and the whole argument procedure |
| `Evaluation` | evaluation.dfy | the literal evaluator and the round trip |
| `Printer` | printer.dfy | the two public entry points, before printing |
| `Scenarios` | scenarios.dfy | PHP-Parser 4 class descriptors and the nodes of the repository's tests |

Two facts about the source that the model keeps:

- A single parsed statement is always returned bare (src/InstantiationPrinter.php:36,
  `count(...) === 1`). There is no option to wrap it in a one-element array.
- The constant `true` is rebuilt as the instantiation `new ConstFetch(new Name('true'))`.
  It is not turned into the bare literal `true`.

## Model

| member | source | states |
|---|---|---|
| Trimmer.Omittable | src/InstantiationPrinter.php:151-159 | Neither `break` fires exactly when the parameter is optional and its available default is the argument's value, so PHP would supply that same value. |
| Trimmer.KeptCount | src/InstantiationPrinter.php:148-163 | The arguments kept are those before the maximal trailing run of omittable arguments. Every argument from the cut on is optional, has a default, and strictly equals it; the argument just before the cut is not omittable. |
| Trimmer.KeptCountIsUnique | src/InstantiationPrinter.php:148-163 | Any cut with the two properties above is the cut KeptCount makes, so the dropped run is exactly the maximal one. |
| Trimmer.TrimIsIdempotent | src/InstantiationPrinter.php:149-163 | Scanning the trimmed list again removes nothing. |
| Trimmer.NonOmittableTailKeepsAll | src/InstantiationPrinter.php:151-159 | When the last argument is not optional, has no default, or differs from its default, the scan stops at once and every argument is kept. |
| Trimmer.RemoveDefaultedTrailingArguments | src/InstantiationPrinter.php:148-163 | The backwards loop with its two `break`s returns exactly the prefix `args[..KeptCount(args)]`, so no middle argument is ever removed. |
| Introspector.ParamNames | src/InstantiationPrinter.php:81-84 | The names indexing the constructor parameters are exactly the parameters' names. |
| Introspector.NamesNotIn | src/InstantiationPrinter.php:86-89 | `array_diff`: a name is in the result if and only if it is a sub-node name that is not a parameter name. |
| Introspector.BagKeyIff | src/InstantiationPrinter.php:86-89 | A name is a key of the bag if and only if it is a sub-node name that no constructor parameter carries. |
| Introspector.NamesNotInAppend | src/InstantiationPrinter.php:86-89 | `array_diff` keeps the order of the sub-node names: filtering a concatenation concatenates the filtered parts. |
| Introspector.LeftOutOfBagIff | src/InstantiationPrinter.php:109-116 | A key is left out of the bag if and only if the node is a `Class_` and the key holds the value its constructor fills in when the key is missing: `flags` 0, `extends` null, `implements`, `stmts` and `attrGroups` empty. |
| Introspector.Bag | src/InstantiationPrinter.php:98-122 | The bag fails if and only if a key has no property, and then the error names a missing key. Every entry is a string key with that property's value. Every key that is not left out has its entry. Only a `Class_` leaves keys out. For any other class the bag is every key with its value, in order. |
| Introspector.BagAppend | src/InstantiationPrinter.php:99-122 | The bag follows the order of its keys: the bag of concatenated keys is the concatenation of the bags. |
| Introspector.UnspecifiedBagIsEmpty | src/InstantiationPrinter.php:109-119 | A `Class_` whose `flags` is 0, `extends` null, and `implements`, `stmts` and `attrGroups` empty passes an empty bag. |
| Introspector.BagErrorPersists | src/InstantiationPrinter.php:99-102 | A key without a property aborts the bag: later keys do not change the error. |
| Introspector.DecimalDigitsValue | src/InstantiationPrinter.php:124-129 | The decimal text `implode` gives an integer part reads back as that integer. |
| Introspector.PartString | src/InstantiationPrinter.php:124-129 | `implode`'s conversion of one part: a string is kept, an integer becomes its decimal text (with `-` when negative), `true` becomes "1", `false` and `null` become "", a float its text, an array "Array"; only an `Other` value (an object, a closure or a resource) or a node has no string form here. |
| Introspector.NameString | src/InstantiationPrinter.php:124-129 | `toString()` of a `Name` succeeds if and only if `parts` is an array and no part is an object; otherwise the error names the class. |
| Introspector.Join | src/InstantiationPrinter.php:124-129 | `implode('\\', ...)`: the joined name starts with the first part, and it is empty if and only if there are no parts or a single empty one. |
| Introspector.EntryStrings | src/InstantiationPrinter.php:124-129 | The parts turned into strings, one per part in order, each by `implode`'s conversion. |
| Introspector.ExplodeJoin | src/InstantiationPrinter.php:124-129 | Splitting the joined name on backslashes gives back the parts, when no part contains one. |
| Introspector.NameStringRebuildsParts | src/InstantiationPrinter.php:124-129 | When the joined name is not empty and no part holds a backslash, the `Name` constructor splits it back into the string forms of the node's parts. When every part is a string, these are the node's parts themselves. |
| Introspector.ArgumentFor | src/InstantiationPrinter.php:91-143 | The rules in priority order: `subNodes` gets the bag or its error; `name` of a `Name` gets the joined parts or their error; `attributes` gets `[]`; otherwise the same-named property; otherwise an error naming the parameter and the class. |
| Introspector.ArgumentList | src/InstantiationPrinter.php:91-146 | The list succeeds if and only if every parameter has a value. It then holds one argument per parameter, in declaration order, each paired with its parameter and the value its rule selected. |
| Introspector.ArgumentListFailsAtFirst | src/InstantiationPrinter.php:138-142 | A failing list reports the error of the first parameter without a value; every parameter before it had one. |
| Introspector.ArgumentListErrorPersists | src/InstantiationPrinter.php:91-146 | A failure among the first parameters is the failure of the whole list. |
| Introspector.BuildSubNodesBag | src/InstantiationPrinter.php:98-122 | The loop filling the bag, with its `continue` for unspecified `Class_` keys, computes Bag. |
| Introspector.ValueForParameter | src/InstantiationPrinter.php:92-143 | The if-cascade for one parameter computes ArgumentFor. |
| Introspector.ReconstructArguments | src/InstantiationPrinter.php:77-146 | The loop indexing parameters by name, the `array_diff`, and the loop over parameters together compute the argument list, or the first error. |
| Builder.StringKeyCount | src/InstantiationPrinter.php:205 | The number of string keys is at most the number of elements, and it is zero if and only if every key is an integer. |
| Builder.HasStringKey | src/InstantiationPrinter.php:205 | `$isAssociativeArray`: a positive count of string keys means exactly that some key is a string. |
| Builder.WrapInArray | src/InstantiationPrinter.php:203-214 | The array literal has one item per element, in order, with the element as its value. Some item has a key if and only if some key is a string, and then every item carries its own key. |
| Builder.WrapNodesInArray | src/InstantiationPrinter.php:203-214 | The loop appending items computes WrapInArray. |
| Builder.ExprsOfEntries | src/InstantiationPrinter.php:193-194 | The `array_map` of the classifier over the elements from a position on: on success, one keyed expression per remaining element. |
| Builder.ExprOfValue | src/InstantiationPrinter.php:171-198 | An unsupported value is an error naming it. A node becomes its own instantiation, a `new` of its class, or that instantiation's error. An array becomes an array literal with one item per element. |
| Builder.InstantiationOf | src/InstantiationPrinter.php:64-70 | The instantiation is a `new` of the node's class, with no more arguments than its constructor has parameters. |
| Builder.InstantiationArgs | src/InstantiationPrinter.php:148-168 | There are exactly KeptCount arguments, and an error in reconstruction is passed on unchanged. |
| Builder.ArgExprs | src/InstantiationPrinter.php:165-168 | `array_map` to `Arg`: one argument per kept value. |
| Builder.ArgExprsAt | src/InstantiationPrinter.php:165-168 | The `j`-th argument is the classification of the `j`-th kept value. |
| Builder.ArgExprsSucceed | src/InstantiationPrinter.php:165-168 | When every kept value classifies, the arguments are exactly those expressions, in order. |
| Builder.ArgExprsFailsAtFirst | src/InstantiationPrinter.php:165-168 | A failing classification is that of the first kept value that fails. |
| Builder.CreateArgumentsForInstantiationOfNode | src/InstantiationPrinter.php:75-169 | Reconstructing, trimming and mapping compute InstantiationArgs. |
| Builder.InstantiationArgumentAt | src/InstantiationPrinter.php:91-168 | The `i`-th argument of the instantiation belongs to the `i`-th constructor parameter. It is the classification of the value that parameter's rule selected. |
| Builder.AttributesArgumentIsEmpty | src/InstantiationPrinter.php:130-132 | An `attributes` argument, when one is passed, is the literal `[]`. |
| Builder.AttributesAreIgnored | src/InstantiationPrinter.php:130-132 | Replacing a node's attributes with anything leaves its instantiation, or its error, unchanged. |
| Builder.BagIgnoresOtherProps | src/InstantiationPrinter.php:99-122 | The bag reads only the properties named by its keys. |
| Builder.UnmatchedParameterAborts | src/InstantiationPrinter.php:138-142 | A parameter that no rule covers, after parameters that all had values, makes the instantiation fail with an error naming that parameter and the class. |
| Evaluation.LiteralRoundTrip | src/InstantiationPrinter.php:171-198 | A string, integer, float, boolean, null, or array without nodes or unsupported values is classified, and the literal evaluates back to exactly that value. This needs each array to be a list, or non-empty and keyed by strings only, which are the arrays the program emits without a `TypeError` and without losing keys. |
| Evaluation.ArrayRoundTrip | src/InstantiationPrinter.php:193-195 | An array whose elements round-trip and whose keys can be recovered (a list, or non-empty and keyed by strings only) round-trips as a whole. |
| Evaluation.ExprsOfEntriesAt | src/InstantiationPrinter.php:194 | The `array_map` over an array classifies element `j` into position `j` and keeps its key. |
| Evaluation.ExprsOfEntriesOk | src/InstantiationPrinter.php:194 | The `array_map` over an array succeeds when every element classifies. |
| Evaluation.UnsupportedFails | src/InstantiationPrinter.php:193-197 | An unsupported value, alone or nested in arrays, makes classification fail. |
| Evaluation.NonListIntegerKeysAreLost | src/InstantiationPrinter.php:203-214 | `[1 => 'x']` is emitted without keys and evaluates to `[0 => 'x']`. |
| Printer.InstantiationNodeFor | src/InstantiationPrinter.php:45-52 | `return <instantiation>;` is produced exactly when the instantiation succeeds; otherwise its error. |
| Printer.InstantiationsOf | src/InstantiationPrinter.php:34 | The `array_map` over the statements, when it succeeds, has one entry per statement. |
| Printer.InstantiationsAt | src/InstantiationPrinter.php:34 | Entry `i` is statement `i`'s instantiation under the integer key `i`. |
| Printer.InstantiationsFailAtFirst | src/InstantiationPrinter.php:34 | A failing `array_map` reports the first statement that fails. |
| Printer.PrintInstantiationCodeFor | src/InstantiationPrinter.php:30-43 | The result succeeds if and only if every statement does, and otherwise carries the first error. One statement gives exactly the statement of printInstantiationNodeFor. Any other count gives an array literal of the instantiations, in order, without keys. |
| Scenarios.SingleOperandOf | src/InstantiationPrinter.php:130-168 | A node with one operand and attributes is rebuilt from its operand alone, whatever its attributes hold. |
| Scenarios.StringLiteralScenario | tests/InstantiationPrinterTest.php:123-127 | `String_('foo', [...positions...])` becomes `new String_('foo')`; the attributes are stripped and then dropped as a default. |
| Scenarios.IntegerLiteralScenario | tests/InstantiationPrinterTest.php:129 | `LNumber(123)` becomes `new LNumber(123)`. |
| Scenarios.ExpressionStatementScenario | tests/InstantiationPrinterTest.php:86-93 | `"foo";` gives `return new Expression(new String_('foo'));`. |
| Scenarios.EmptyClassBag | src/InstantiationPrinter.php:109-119 | The bag of `class X {}` is empty. |
| Scenarios.EmptyClassArguments | src/InstantiationPrinter.php:91-143 | `class X {}` yields its name, an empty bag and empty attributes. |
| Scenarios.EmptyClassArgumentsAre | src/InstantiationPrinter.php:91-146 | The arguments reconstructed for an empty class are exactly its name, the empty bag and the empty attributes, in that order. |
| Scenarios.EmptyClassKeepsName | src/InstantiationPrinter.php:148-163 | Of these, only the name is kept. |
| Scenarios.IdentifierScenario | tests/InstantiationPrinterTest.php:98-105 | `Identifier('Simple')`, with any attributes, becomes `new Identifier('Simple')`. |
| Scenarios.EmptyClassOf | src/InstantiationPrinter.php:109-119 | An empty `Class_` is rebuilt from its name's expression alone: its bag and attributes are dropped as defaults. |
| Scenarios.EmptyClassScenario | tests/InstantiationPrinterTest.php:98-105 | `class Simple {}` becomes `new Class_(new Identifier('Simple'))`, whatever position attributes the identifier carries. |
| Scenarios.NameScenario | tests/InstantiationPrinterTest.php:131 | `Name('true')` becomes `new Name('true')`, built from its parts. |
| Scenarios.IntegerPartNameScenario | src/InstantiationPrinter.php:124-129 | A `Name` with parts `['Foo', 12]` becomes `new Name('Foo\\12')`: the integer part is turned into its text. |
| Scenarios.ConstantScenario | tests/InstantiationPrinterTest.php:131 | `ConstFetch(Name('true'))` becomes `new ConstFetch(new Name('true'))`. |
| Scenarios.VariableScenario | tests/InstantiationPrinterTest.php:130 | `Variable('foo')` becomes `new Variable('foo')`. |
| Scenarios.AssignArgumentsAre | tests/InstantiationPrinterTest.php:130 | An assignment passes both operands and drops its attributes. |
| Scenarios.AssignmentOf | tests/InstantiationPrinterTest.php:130 | An assignment is rebuilt from the expressions of its two operands. |
| Scenarios.AssignmentScenario | tests/InstantiationPrinterTest.php:130 | `Assign(Variable('foo'), String_('bar'))` becomes `new Assign(new Variable('foo'), new String_('bar'))`. |

## Left out

- The parser and the pretty-printer (`parse`, `print`). Statements arrive as nodes, and the result is the `return` statement before printing.
- PHP reflection: `ReflectionObject`, `ReflectionProperty`, `setAccessible`, class loading and visibility. Each node carries a class descriptor instead. Its parameters are taken as the constructor's, its sub-node names as `getSubNodeNames()`, and its map as the readable properties.
- A sub-node name with no property behind it. PHP throws a `ReflectionException` there; the model returns the error `MissingProperty`.
- Introspector.NameString: a part that is an object gives the error `MalformedName`. PHP would use the object's `__toString()` where it has one (a `Name` does) and fail otherwise. A resource part, which `implode` turns into `Resource id #n`, is an `Other` and also gives `MalformedName`. A missing or non-array `parts`, where PHP raises a `TypeError` inside `implode`, gives `MalformedName` too.
- Introspector.NameStringRebuildsParts: a part that is not a string comes back from the split as its string form (`12` as `'12'`), so the rebuilt `Name` differs from the node there. An empty joined name (parts `[]`, `['']`, `[false]` or `[null]`) is excluded, because the `Name` constructor rejects it.
- Introspector.PartString: a float part becomes its token's text, standing for PHP's float-to-string conversion, which the model does not compute.
- Evaluating a `new` expression, which needs the node constructors. The equal-object round trip of the tests is therefore stated only for literals (Evaluation.LiteralRoundTrip). For nodes, the scenarios state the expression generated for the tests' nodes. That evaluating it rebuilds an equal node is not stated.
- Float contents. A float is an opaque token compared by its text, so `NaN` is not modelled.
- Object identity in the `!==` against a default. Defaults are literals or arrays, compared by value.
- PHP's normalisation of numeric-string keys to integers.
- Integer keys in an array that also has a string key. These are emitted as `Key` items, whereas under `strict_types` PHP would raise a `TypeError` at `new String_($key)`. The round trip (Evaluation.LiteralRoundTrip) is stated only for arrays that are lists or keyed by strings only, so it does not cover this case.
- Duplicate sub-node names, which PHP would collapse into one bag key. The model keeps one entry per name listed.
- The command-line tool and its tests: process spawning, files and standard output.
- The source does its argument work in one method. The model splits it into ReconstructArguments, ValueForParameter, BuildSubNodesBag, RemoveDefaultedTrailingArguments and CreateArgumentsForInstantiationOfNode, each proved against its specification function.
- Builder.ExprOfValue: its contract states the error, node and array cases. The scalar cases are stated through Evaluation.LiteralRoundTrip instead.
- Builder.ExprsOfEntries: its contract states the count only. The element-wise content, each key with its element's expression, is in Evaluation.ExprsOfEntriesAt, and success when every element classifies is in Evaluation.ExprsOfEntriesOk.
- Builder.ArgExprs: its contract states the count only. The element-wise content is in Builder.ArgExprsAt and Builder.ArgExprsSucceed.
- Printer.InstantiationsOf: its contract states the count only. The element-wise content is in Printer.InstantiationsAt, and the first failure is in Printer.InstantiationsFailAtFirst.
- Builder.AttributesAreIgnored: stated for the node's own attributes. That nested nodes lose theirs too follows from the same rule at every level, but it is not stated as a lemma.
