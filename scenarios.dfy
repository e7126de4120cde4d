/** The node classes of PHP-Parser 4 that the repository's tests exercise, as
    reflection and `getSubNodeNames()` describe them, and what the printer
    builds for the tests' nodes (tests/InstantiationPrinterTest.php). */
module Scenarios {
  import opened Values
  import opened Introspector
  import opened Trimmer
  import opened Builder
  import opened Printer

  /** `array $attributes = []`, the last parameter of every node constructor. */
  const AttributesParam := Param("attributes", true, Some(Arr([])))

  const StringClass :=
    Class("PhpParser\\Node\\Scalar\\String_", OtherNode,
          [Param("value", false, None), AttributesParam], ["value"])
  const LNumberClass :=
    Class("PhpParser\\Node\\Scalar\\LNumber", OtherNode,
          [Param("value", false, None), AttributesParam], ["value"])
  const ExpressionClass :=
    Class("PhpParser\\Node\\Stmt\\Expression", OtherNode,
          [Param("expr", false, None), AttributesParam], ["expr"])
  const IdentifierClass :=
    Class("PhpParser\\Node\\Identifier", OtherNode,
          [Param("name", false, None), AttributesParam], ["name"])
  const ClassClass :=
    Class("PhpParser\\Node\\Stmt\\Class_", ClassNode,
          [Param("name", false, None), Param("subNodes", true, Some(Arr([]))), AttributesParam],
          ["attrGroups", "flags", "name", "extends", "implements", "stmts"])
  const VariableClass :=
    Class("PhpParser\\Node\\Expr\\Variable", OtherNode,
          [Param("name", false, None), AttributesParam], ["name"])
  const AssignClass :=
    Class("PhpParser\\Node\\Expr\\Assign", OtherNode,
          [Param("var", false, None), Param("expr", false, None), AttributesParam], ["var", "expr"])
  const NameClass :=
    Class("PhpParser\\Node\\Name", NameNode,
          [Param("name", false, None), AttributesParam], ["parts"])
  const ConstFetchClass :=
    Class("PhpParser\\Node\\Expr\\ConstFetch", OtherNode,
          [Param("name", false, None), AttributesParam], ["name"])

  /** Position attributes as the parser records them. */
  function Positions(): Value {
    Arr([Entry(StrKey("startLine"), Int(1)), Entry(StrKey("endLine"), Int(1))])
  }

  /** A node whose constructor takes `value`, with the given attributes. */
  function ScalarNode(cls: Class, v: Value, attributes: Value): Node {
    Node(cls, map["value" := v, "attributes" := attributes])
  }

  /** Arguments are exactly `args` when each parameter yields its value. */
  lemma ArgumentsAre(n: Node, args: seq<Argument>)
    requires |args| == |n.cls.params|
    requires forall i | 0 <= i < |args| ::
               args[i].param == n.cls.params[i] && ArgumentFor(n, n.cls.params[i]) == Ok(args[i].value)
    ensures Arguments(n) == Ok(args)
  {
    assert Arguments(n).Ok?;
    assert Arguments(n).value == args;
  }

  /** The instantiation is `new <class>(exprs)` when the arguments are `args`,
      `exprs` are as many as the kept ones, and each kept argument classifies
      to its expression. */
  lemma InstantiationIs(n: Node, args: seq<Argument>, exprs: seq<Arg>)
    requires Arguments(n) == Ok(args)
    requires |exprs| == KeptCount(args)
    requires forall i | 0 <= i < |exprs| :: ExprOfValue(args[i].value) == Ok(exprs[i].value)
    ensures InstantiationOf(n) == Ok(New(n.cls.name, exprs))
  {
    ArgumentsAreLower(n, args);
    var kept := args[..KeptCount(args)];
    ArgExprsSucceed(n, kept, exprs);
  }

  /** A node with one operand besides its attributes, such as an expression
      statement or a constant fetch, is rebuilt from its operand alone, whatever
      its attributes hold. */
  lemma SingleOperandOf(cls: Class, operand: string, child: Value, attributes: Value, e: Expr)
    requires cls.kind == OtherNode
    requires cls.params == [Param(operand, false, None), AttributesParam]
    requires operand != "subNodes" && operand != "attributes"
    requires ExprOfValue(child) == Ok(e)
    ensures InstantiationOf(Node(cls, map[operand := child, "attributes" := attributes]))
            == Ok(New(cls.name, [Arg(e)]))
  {
    var n := Node(cls, map[operand := child, "attributes" := attributes]);
    var args := [Argument(cls.params[0], child), Argument(AttributesParam, Arr([]))];
    ArgumentsAre(n, args);
    assert KeptCount(args[..1]) == 1;
    InstantiationIs(n, args, [Arg(e)]);
  }

  /** A string literal loses its attributes, whatever they hold: only the
      value is passed, the empty attributes being the default. */
  lemma StringLiteralScenario(value: string, attributes: Value)
    ensures InstantiationOf(ScalarNode(StringClass, Str(value), attributes))
            == Ok(New(StringClass.name, [Arg(StringLit(value))]))
  {
    SingleOperandOf(StringClass, "value", Str(value), attributes, StringLit(value));
  }

  /** An integer literal becomes its own literal argument. */
  lemma IntegerLiteralScenario()
    ensures InstantiationOf(ScalarNode(LNumberClass, Int(123), Arr([])))
            == Ok(New(LNumberClass.name, [Arg(IntLit(123))]))
  {
    SingleOperandOf(LNumberClass, "value", Int(123), Arr([]), IntLit(123));
  }

  /** `"foo";` parses to one expression statement, printed bare as
      `return new Expression(new String_('foo'));`. */
  lemma ExpressionStatementScenario()
    ensures var stmt := Node(ExpressionClass, map["expr" := NodeV(ScalarNode(StringClass, Str("foo"), Positions())),
                                                  "attributes" := Positions()]);
            InstantiationNodeFor(stmt)
            == Ok(Return(New(ExpressionClass.name, [Arg(New(StringClass.name, [Arg(StringLit("foo"))]))])))
  {
    var inner := ScalarNode(StringClass, Str("foo"), Positions());
    StringLiteralScenario("foo", Positions());
    SingleOperandOf(ExpressionClass, "expr", NodeV(inner), Positions(), New(StringClass.name, [Arg(StringLit("foo"))]));
  }

  /** The identifier `Simple`, with whatever attributes the parser gave it. */
  function SimpleIdentifier(attributes: Value): Node {
    Node(IdentifierClass, map["name" := Str("Simple"), "attributes" := attributes])
  }

  /** A `Class_` node as the parser returns it for `class <name> {}`: no
      attribute groups, flags, parent, interfaces or statements. Other
      properties, such as its attributes, may hold anything. */
  predicate IsEmptyClass(cls: Node, name: Node) {
    && cls.cls == ClassClass
    && "attrGroups" in cls.props && cls.props["attrGroups"] == Arr([])
    && "flags" in cls.props && cls.props["flags"] == Int(0)
    && "name" in cls.props && cls.props["name"] == NodeV(name)
    && "extends" in cls.props && cls.props["extends"] == Null
    && "implements" in cls.props && cls.props["implements"] == Arr([])
    && "stmts" in cls.props && cls.props["stmts"] == Arr([])
  }

  /** The sub-nodes of an empty class all hold the values the constructor
      fills in, so its bag is empty. */
  lemma EmptyClassBag(cls: Node, name: Node)
    requires IsEmptyClass(cls, name)
    ensures Bag(cls, BagKeys(ClassClass)) == Ok([])
  {
    var keys := BagKeys(ClassClass);
    assert "name" in ParamNames(ClassClass.params) by {
      assert ClassClass.params[0] in ClassClass.params;
    }
    forall k <- keys ensures k in cls.props && LeftOutOfBag(cls, k) {
      assert k in ClassClass.subNodeNames && k != "name";
    }
    UnspecifiedBagIsEmpty(cls, keys);
  }

  /** An empty class passes its name, an empty bag and empty attributes. */
  lemma EmptyClassArguments(cls: Node, name: Node)
    requires IsEmptyClass(cls, name)
    ensures ArgumentFor(cls, ClassClass.params[0]) == Ok(NodeV(name))
    ensures ArgumentFor(cls, ClassClass.params[1]) == Ok(Arr([]))
    ensures ArgumentFor(cls, ClassClass.params[2]) == Ok(Arr([]))
  {
    EmptyClassBag(cls, name);
  }

  /** An identifier passes its name. */
  lemma IdentifierScenario(attributes: Value)
    ensures InstantiationOf(SimpleIdentifier(attributes)) == Ok(New(IdentifierClass.name, [Arg(StringLit("Simple"))]))
  {
    SingleOperandOf(IdentifierClass, "name", Str("Simple"), attributes, StringLit("Simple"));
  }

  /** The arguments reconstructed for an empty class: its name, the empty
      bag, the empty attributes. */
  function EmptyClassArgumentList(name: Node): seq<Argument> {
    [Argument(ClassClass.params[0], NodeV(name)),
     Argument(ClassClass.params[1], Arr([])),
     Argument(AttributesParam, Arr([]))]
  }

  /** Only the name is kept: the bag and the attributes equal their defaults. */
  lemma EmptyClassKeepsName(name: Node)
    ensures KeptCount(EmptyClassArgumentList(name)) == 1
  {
    var args := EmptyClassArgumentList(name);
    assert Omittable(args[2]) && Omittable(args[1]) && !Omittable(args[0]);
    assert args[..2][..1] == args[..1];
    assert KeptCount(args[..1]) == 1;
  }

  /** The arguments an empty class yields. */
  lemma EmptyClassArgumentsAre(cls: Node, name: Node)
    requires IsEmptyClass(cls, name)
    ensures Arguments(cls) == Ok(EmptyClassArgumentList(name))
  {
    EmptyClassArguments(cls, name);
    ArgumentsAre(cls, EmptyClassArgumentList(name));
  }

  /** An empty class is rebuilt from its name alone: the bag is empty and
      dropped with the attributes. */
  lemma EmptyClassOf(cls: Node, name: Node, e: Expr)
    requires IsEmptyClass(cls, name)
    requires ExprOfValue(NodeV(name)) == Ok(e)
    ensures InstantiationOf(cls) == Ok(New(ClassClass.name, [Arg(e)]))
  {
    EmptyClassArgumentsAre(cls, name);
    EmptyClassKeepsName(name);
    InstantiationIs(cls, EmptyClassArgumentList(name), [Arg(e)]);
  }

  /** `class Simple {}` becomes `new Class_(new Identifier('Simple'))`,
      whatever position attributes the parser gave the identifier. */
  lemma EmptyClassScenario(cls: Node, attributes: Value)
    requires IsEmptyClass(cls, SimpleIdentifier(attributes))
    ensures InstantiationOf(cls)
            == Ok(New(ClassClass.name, [Arg(New(IdentifierClass.name, [Arg(StringLit("Simple"))]))]))
  {
    IdentifierScenario(attributes);
    EmptyClassOf(cls, SimpleIdentifier(attributes), New(IdentifierClass.name, [Arg(StringLit("Simple"))]));
  }

  /** `new Name('true')`: a name whose one part is `true`. */
  function TrueName(): Node {
    Node(NameClass, map["parts" := Arr([Entry(IntKey(0), Str("true"))]), "attributes" := Arr([])])
  }

  /** A name is rebuilt from its joined parts, not from a property `name`. */
  lemma NameScenario()
    ensures InstantiationOf(TrueName()) == Ok(New(NameClass.name, [Arg(StringLit("true"))]))
  {
    var n := TrueName();
    assert EntryStrings(n.props["parts"].entries) == ["true"];
    assert NameString(n) == Ok("true");
    var args := [Argument(NameClass.params[0], Str("true")), Argument(AttributesParam, Arr([]))];
    ArgumentsAre(n, args);
    assert KeptCount(args[..1]) == 1;
    InstantiationIs(n, args, [Arg(StringLit("true"))]);
  }

  /** A name whose parts are not all strings: `implode` turns the integer
      part into its decimal text, so `new Name(['Foo', 12])` is rebuilt as
      `new Name('Foo\\12')`. */
  lemma IntegerPartNameScenario()
    ensures var n := Node(NameClass, map["parts" := Arr([Entry(IntKey(0), Str("Foo")), Entry(IntKey(1), Int(12))]),
                                         "attributes" := Arr([])]);
            InstantiationOf(n) == Ok(New(NameClass.name, [Arg(StringLit("Foo\\12"))]))
  {
    var n := Node(NameClass, map["parts" := Arr([Entry(IntKey(0), Str("Foo")), Entry(IntKey(1), Int(12))]),
                                 "attributes" := Arr([])]);
    assert IntText(12) == "12";
    assert EntryStrings(n.props["parts"].entries) == ["Foo", "12"];
    assert ["Foo", "12"][1..] == ["12"];
    assert Join(["Foo", "12"]) == "Foo\\12";
    assert NameString(n) == Ok("Foo\\12");
    var args := [Argument(NameClass.params[0], Str("Foo\\12")), Argument(AttributesParam, Arr([]))];
    ArgumentsAre(n, args);
    assert KeptCount(args[..1]) == 1;
    InstantiationIs(n, args, [Arg(StringLit("Foo\\12"))]);
  }

  /** The constant `true` is rebuilt as a constant fetch of the name `true`. */
  lemma ConstantScenario()
    ensures InstantiationOf(Node(ConstFetchClass, map["name" := NodeV(TrueName()), "attributes" := Arr([])]))
            == Ok(New(ConstFetchClass.name, [Arg(New(NameClass.name, [Arg(StringLit("true"))]))]))
  {
    NameScenario();
    SingleOperandOf(ConstFetchClass, "name", NodeV(TrueName()), Arr([]), New(NameClass.name, [Arg(StringLit("true"))]));
  }

  /** A variable passes its name. */
  lemma VariableScenario(name: string)
    ensures InstantiationOf(Node(VariableClass, map["name" := Str(name), "attributes" := Arr([])]))
            == Ok(New(VariableClass.name, [Arg(StringLit(name))]))
  {
    SingleOperandOf(VariableClass, "name", Str(name), Arr([]), StringLit(name));
  }

  /** An assignment of `expr` to `target`. */
  function AssignNode(target: Node, expr: Node): Node {
    Node(AssignClass, map["var" := NodeV(target), "expr" := NodeV(expr), "attributes" := Arr([])])
  }

  function AssignArguments(target: Node, expr: Node): seq<Argument> {
    [Argument(AssignClass.params[0], NodeV(target)),
     Argument(AssignClass.params[1], NodeV(expr)),
     Argument(AttributesParam, Arr([]))]
  }

  /** An assignment passes both operands and drops its attributes. */
  lemma AssignArgumentsAre(target: Node, expr: Node)
    ensures Arguments(AssignNode(target, expr)) == Ok(AssignArguments(target, expr))
    ensures KeptCount(AssignArguments(target, expr)) == 2
  {
    var args := AssignArguments(target, expr);
    ArgumentsAre(AssignNode(target, expr), args);
    assert Omittable(args[2]) && !Omittable(args[1]);
    assert args[..2] == args[..3][..2];
  }

  /** An assignment is rebuilt from the expressions of its operands. */
  lemma AssignmentOf(target: Node, expr: Node, t: Expr, e: Expr)
    requires ExprOfValue(NodeV(target)) == Ok(t) && ExprOfValue(NodeV(expr)) == Ok(e)
    ensures InstantiationOf(AssignNode(target, expr)) == Ok(New(AssignClass.name, [Arg(t), Arg(e)]))
  {
    AssignArgumentsAre(target, expr);
    InstantiationIs(AssignNode(target, expr), AssignArguments(target, expr), [Arg(t), Arg(e)]);
  }

  /** `$foo = 'bar'`: both operands are passed, each rebuilt in turn. */
  lemma AssignmentScenario()
    ensures var variable := Node(VariableClass, map["name" := Str("foo"), "attributes" := Arr([])]);
            var bar := ScalarNode(StringClass, Str("bar"), Arr([]));
            InstantiationOf(AssignNode(variable, bar))
            == Ok(New(AssignClass.name, [Arg(New(VariableClass.name, [Arg(StringLit("foo"))])),
                                         Arg(New(StringClass.name, [Arg(StringLit("bar"))]))]))
  {
    var variable := Node(VariableClass, map["name" := Str("foo"), "attributes" := Arr([])]);
    var bar := ScalarNode(StringClass, Str("bar"), Arr([]));
    VariableScenario("foo");
    StringLiteralScenario("bar", Arr([]));
    AssignmentOf(variable, bar, New(VariableClass.name, [Arg(StringLit("foo"))]),
                 New(StringClass.name, [Arg(StringLit("bar"))]));
  }
}
