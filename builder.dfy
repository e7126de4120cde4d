/** The instantiation expression for a node and the literal for each value
    (src/InstantiationPrinter.php:64-70, 75-214). */
module Builder {
  import opened Values
  import opened Trimmer
  import opened Introspector

  // ---------------------------------------------------------------------
  // A height measure. The arguments reconstructed for a node are not all
  // sub-terms of it (the bag is a new array of its properties, the joined
  // name and `[]` are new), but all of them are lower than the node.

  ghost function Max(a: nat, b: nat): nat { if a < b then b else a }

  ghost function Pick(keys: set<string>): string
    requires keys != {}
  {
    var k :| k in keys; k
  }

  ghost function Height(v: Value): nat
    decreases v, if v.Arr? then |v.entries| + 1 else 0
  {
    match v
    case NodeV(n) => 2 + PropsHeight(n, n.props.Keys)
    case Arr(es) => 1 + EntriesHeight(v, 0)
    case _ => 0
  }

  ghost function PropsHeight(n: Node, keys: set<string>): nat
    requires keys <= n.props.Keys
    decreases n, keys
  {
    if keys == {} then 0
    else
      var k := Pick(keys);
      Max(Height(n.props[k]), PropsHeight(n, keys - {k}))
  }

  ghost function EntriesHeight(v: Value, i: nat): nat
    requires v.Arr? && i <= |v.entries|
    decreases v, |v.entries| - i
  {
    if i == |v.entries| then 0 else Max(Height(v.entries[i].val), EntriesHeight(v, i + 1))
  }

  lemma {:induction false} PropsHeightBounds(n: Node, keys: set<string>, k: string)
    requires keys <= n.props.Keys && k in keys
    ensures Height(n.props[k]) <= PropsHeight(n, keys)
    decreases keys
  {
    var p := Pick(keys);
    if k != p {
      PropsHeightBounds(n, keys - {p}, k);
    }
  }

  lemma {:induction false} EntriesHeightBounds(v: Value, i: nat, j: nat)
    requires v.Arr? && i <= j < |v.entries|
    ensures Height(v.entries[j].val) <= EntriesHeight(v, i)
    decreases j - i
  {
    if i < j {
      EntriesHeightBounds(v, i + 1, j);
    }
  }

  lemma {:induction false} EntriesHeightAtMost(v: Value, i: nat, b: nat)
    requires v.Arr? && i <= |v.entries|
    requires forall e <- v.entries :: Height(e.val) <= b
    ensures EntriesHeight(v, i) <= b
    decreases |v.entries| - i
  {
    if i < |v.entries| {
      assert v.entries[i] in v.entries;
      EntriesHeightAtMost(v, i + 1, b);
    }
  }

  /** Every reconstructed argument is lower than the node it comes from. */
  lemma ArgumentIsLower(n: Node, p: Param)
    requires ArgumentFor(n, p).Ok?
    ensures Height(ArgumentFor(n, p).value) < Height(NodeV(n))
  {
    var v := ArgumentFor(n, p).value;
    var top := PropsHeight(n, n.props.Keys);
    if p.name == "subNodes" {
      forall e <- v.entries
        ensures Height(e.val) <= top
      {
        PropsHeightBounds(n, n.props.Keys, e.key.s);
      }
      EntriesHeightAtMost(v, 0, top);
    } else if p.name in n.props && v == n.props[p.name] {
      PropsHeightBounds(n, n.props.Keys, p.name);
    }
  }

  lemma ArgumentsAreLower(n: Node, args: seq<Argument>)
    requires Arguments(n) == Ok(args)
    ensures forall a <- args :: Height(a.value) < Height(NodeV(n))
  {
    forall i | 0 <= i < |args|
      ensures Height(args[i].value) < Height(NodeV(n))
    {
      ArgumentIsLower(n, n.cls.params[i]);
    }
  }

  // ---------------------------------------------------------------------
  // Array wrapping (src/InstantiationPrinter.php:203-214).

  /** `count(array_filter(array_keys($nodes), 'is_string'))`: how many
      keys are strings. */
  function StringKeyCount(nodes: seq<(Key, Expr)>): (c: nat)
    ensures c <= |nodes|
    ensures c == 0 <==> forall i | 0 <= i < |nodes| :: nodes[i].0.IntKey?
  {
    if nodes == [] then 0
    else StringKeyCount(nodes[..|nodes| - 1]) + if nodes[|nodes| - 1].0.StrKey? then 1 else 0
  }

  /** `$isAssociativeArray`: the count of string keys is positive exactly
      when some key is a string. */
  function HasStringKey(nodes: seq<(Key, Expr)>): (b: bool)
    ensures b <==> exists i | 0 <= i < |nodes| :: nodes[i].0.StrKey?
  {
    StringKeyCount(nodes) > 0
  }

  /** The items of the array literal, each keyed when `keyed` holds. */
  function ArrayItems(nodes: seq<(Key, Expr)>, keyed: bool): (items: seq<ArrayItem>)
    ensures |items| == |nodes|
    ensures forall i | 0 <= i < |nodes| ::
              items[i].value == nodes[i].1 && items[i].key == if keyed then Some(nodes[i].0) else None
  {
    if nodes == [] then []
    else
      var last := nodes[|nodes| - 1];
      ArrayItems(nodes[..|nodes| - 1], keyed) + [ArrayItem(last.1, if keyed then Some(last.0) else None)]
  }

  /** The array literal for keyed expressions: same count and order, and
      every item keyed if some key is a string, none keyed otherwise. */
  function WrapInArray(nodes: seq<(Key, Expr)>): (r: Expr)
    ensures r.ArrayLit? && |r.items| == |nodes|
    ensures forall i | 0 <= i < |nodes| :: r.items[i].value == nodes[i].1
    ensures HasStringKey(nodes) <==> exists i | 0 <= i < |nodes| :: r.items[i].key.Some?
    ensures HasStringKey(nodes) ==> forall i | 0 <= i < |nodes| :: r.items[i].key == Some(nodes[i].0)
  {
    ArrayLit(ArrayItems(nodes, HasStringKey(nodes)))
  }

  /** The loop of the source: decide once whether keys are emitted, then
      append one item per expression. */
  method WrapNodesInArray(nodes: seq<(Key, Expr)>) returns (wrapped: Expr)
    ensures wrapped == WrapInArray(nodes)
  {
    var isAssociativeArray := HasStringKey(nodes);
    var items: seq<ArrayItem> := [];
    for i := 0 to |nodes|
      invariant items == ArrayItems(nodes[..i], isAssociativeArray)
    {
      var key := if isAssociativeArray then Some(nodes[i].0) else None;
      assert nodes[..i + 1][..i] == nodes[..i];
      items := items + [ArrayItem(nodes[i].1, key)];
    }
    assert nodes[..|nodes|] == nodes;
    wrapped := ArrayLit(items);
  }

  // ---------------------------------------------------------------------
  // The classifier and the instantiation expression, mutually recursive.

  /** `createExpressionNodeForValue`: a node becomes its instantiation, a
      scalar its literal, `true`/`false`/`null` a constant fetch, an array an
      array literal of its classified elements; anything else is an error. */
  function ExprOfValue(v: Value): (r: Result<Expr>)
    ensures v.Other? ==> r == Err(UnsupportedValueType(v.description))
    ensures v.NodeV? ==> r == InstantiationOf(v.node)
    ensures r.Ok? && v.NodeV? ==> r.value.New? && r.value.className == v.node.cls.name
    ensures r.Ok? && v.Arr? ==> r.value.ArrayLit? && |r.value.items| == |v.entries|
    decreases Height(v), 3
  {
    match v
    case NodeV(n) => InstantiationOf(n)
    case Str(s) => Ok(StringLit(s))
    case Float(f) => Ok(FloatLit(f))
    case Int(i) => Ok(IntLit(i))
    case Bool(b) => Ok(ConstFetch(if b then "true" else "false"))
    case Null => Ok(ConstFetch("null"))
    case Arr(es) =>
      var exprs :- ExprsOfEntries(v, 0);
      Ok(WrapInArray(exprs))
    case Other(d) => Err(UnsupportedValueType(d))
  }

  /** `array_map` of the classifier over the entries from index `i`, keys kept;
      the first element that fails aborts. */
  function ExprsOfEntries(v: Value, i: nat): (r: Result<seq<(Key, Expr)>>)
    requires v.Arr? && i <= |v.entries|
    ensures r.Ok? ==> |r.value| == |v.entries| - i
    decreases Height(v), 0, |v.entries| - i
  {
    if i == |v.entries| then Ok([])
    else
      EntriesHeightBounds(v, 0, i);
      var e :- ExprOfValue(v.entries[i].val);
      var rest :- ExprsOfEntries(v, i + 1);
      Ok([(v.entries[i].key, e)] + rest)
  }

  /** `createInstantiationNodeFor`: `new <class of n>(arguments)`. */
  function InstantiationOf(n: Node): (r: Result<Expr>)
    ensures r.Ok? ==> r.value.New? && r.value.className == n.cls.name
    ensures r.Ok? ==> |r.value.args| <= |n.cls.params|
    decreases Height(NodeV(n)), 2
  {
    var args :- InstantiationArgs(n);
    Ok(New(n.cls.name, args))
  }

  /** The arguments of the instantiation: reconstructed, trimmed, and each
      kept value classified and wrapped in `Arg`. */
  function InstantiationArgs(n: Node): (r: Result<seq<Arg>>)
    ensures r.Ok? ==> Arguments(n).Ok? && |r.value| == KeptCount(Arguments(n).value)
    ensures Arguments(n).Err? ==> r == Err(Arguments(n).error)
    decreases Height(NodeV(n)), 1
  {
    var args :- Arguments(n);
    ArgumentsAreLower(n, args);
    ArgExprs(n, args[..KeptCount(args)])
  }

  /** The kept arguments, each classified and wrapped in `Arg`, in order;
      the first that fails aborts. */
  function ArgExprs(n: Node, kept: seq<Argument>): (r: Result<seq<Arg>>)
    requires forall a <- kept :: Height(a.value) < Height(NodeV(n))
    ensures r.Ok? ==> |r.value| == |kept|
    decreases Height(NodeV(n)), 0, |kept|
  {
    if kept == [] then Ok([])
    else
      assert kept[0] in kept;
      var e :- ExprOfValue(kept[0].value);
      var rest :- ArgExprs(n, kept[1..]);
      Ok([Arg(e)] + rest)
  }

  // ---------------------------------------------------------------------
  // The imperative procedure of the source and what the recursion promises.

  /** `createArgumentsForInstantiationOfNode`: reconstruct one argument per
      constructor parameter, unset the defaulted trailing ones, and classify
      what is left. */
  method CreateArgumentsForInstantiationOfNode(n: Node) returns (r: Result<seq<Arg>>)
    ensures r == InstantiationArgs(n)
  {
    var arguments := ReconstructArguments(n);
    if arguments.Err? {
      return Err(arguments.error);
    }
    var kept := RemoveDefaultedTrailingArguments(arguments.value);
    ArgumentsAreLower(n, arguments.value);
    r := ArgExprs(n, kept);
  }

  /** What ArgExprs computes at position `j`: the classified `j`-th argument. */
  lemma {:induction false} ArgExprsAt(n: Node, kept: seq<Argument>, j: nat)
    requires j < |kept|
    requires forall a <- kept :: Height(a.value) < Height(NodeV(n))
    requires ArgExprs(n, kept).Ok?
    ensures ExprOfValue(kept[j].value) == Ok(ArgExprs(n, kept).value[j].value)
    decreases j
  {
    if j > 0 {
      assert kept[1..][j - 1] == kept[j];
      ArgExprsAt(n, kept[1..], j - 1);
    }
  }

  /** When every kept argument classifies, the argument list is exactly the
      classified values, in order. */
  lemma {:induction false} ArgExprsSucceed(n: Node, kept: seq<Argument>, exprs: seq<Arg>)
    requires forall a <- kept :: Height(a.value) < Height(NodeV(n))
    requires |exprs| == |kept|
    requires forall j | 0 <= j < |kept| :: ExprOfValue(kept[j].value) == Ok(exprs[j].value)
    ensures ArgExprs(n, kept) == Ok(exprs)
    decreases |kept|
  {
    if kept != [] {
      assert forall j | 0 <= j < |kept| - 1 :: kept[1..][j] == kept[j + 1];
      ArgExprsSucceed(n, kept[1..], exprs[1..]);
      assert exprs == [Arg(exprs[0].value)] + exprs[1..];
    }
  }

  /** Where ArgExprs fails: at the first kept argument that cannot be classified. */
  lemma {:induction false} ArgExprsFailsAtFirst(n: Node, kept: seq<Argument>) returns (j: nat)
    requires forall a <- kept :: Height(a.value) < Height(NodeV(n))
    requires ArgExprs(n, kept).Err?
    ensures j < |kept|
    ensures ExprOfValue(kept[j].value) == Err(ArgExprs(n, kept).error)
    ensures forall l | 0 <= l < j :: ExprOfValue(kept[l].value).Ok?
    decreases |kept|
  {
    assert kept[0] in kept;
    if ExprOfValue(kept[0].value).Ok? {
      var k := ArgExprsFailsAtFirst(n, kept[1..]);
      j := k + 1;
      assert forall l | 0 < l <= k + 1 :: kept[l] == kept[1..][l - 1];
    } else {
      j := 0;
    }
  }

  /** The instantiation's `i`-th argument belongs to the `i`-th constructor
      parameter: it is the classified value that parameter's rule selected.
      (InstantiationArgs states that the arguments are the kept prefix.) */
  lemma InstantiationArgumentAt(n: Node, i: nat)
    requires InstantiationOf(n).Ok?
    requires i < |InstantiationOf(n).value.args|
    ensures Arguments(n).Ok? && i < |Arguments(n).value|
    ensures Arguments(n).value[i].param == n.cls.params[i]
    ensures ArgumentFor(n, n.cls.params[i]) == Ok(Arguments(n).value[i].value)
    ensures ExprOfValue(Arguments(n).value[i].value) == Ok(InstantiationOf(n).value.args[i].value)
  {
    var args := Arguments(n).value;
    ArgumentsAreLower(n, args);
    var kept := args[..KeptCount(args)];
    assert InstantiationOf(n).value.args == ArgExprs(n, kept).value;
    ArgExprsAt(n, kept, i);
    assert kept[i] == args[i];
  }

  /** The `attributes` argument, when it is passed at all, is the empty array. */
  lemma AttributesArgumentIsEmpty(n: Node, i: nat)
    requires InstantiationOf(n).Ok?
    requires i < |InstantiationOf(n).value.args|
    requires n.cls.params[i].name == "attributes"
    ensures InstantiationOf(n).value.args[i] == Arg(ArrayLit([]))
  {
    InstantiationArgumentAt(n, i);
  }

  /** ArgExprs depends on the node only through its termination measure. */
  lemma {:induction false} ArgExprsIgnoresNode(n: Node, m: Node, kept: seq<Argument>)
    requires forall a <- kept :: Height(a.value) < Height(NodeV(n))
    requires forall a <- kept :: Height(a.value) < Height(NodeV(m))
    ensures ArgExprs(n, kept) == ArgExprs(m, kept)
    decreases |kept|
  {
    if kept != [] {
      ArgExprsIgnoresNode(n, m, kept[1..]);
    }
  }

  /** Whatever attributes (positions, token kind) a node carries, its
      instantiation is the same. */
  lemma AttributesAreIgnored(n: Node, attributes: Value)
    requires "attributes" !in BagKeys(n.cls)
    ensures InstantiationOf(n.(props := n.props["attributes" := attributes])) == InstantiationOf(n)
  {
    var m := n.(props := n.props["attributes" := attributes]);
    forall p <- n.cls.params
      ensures ArgumentFor(m, p) == ArgumentFor(n, p)
    {
      if p.name == "subNodes" {
        BagIgnoresOtherProps(n, m, BagKeys(n.cls));
      }
    }
    SameArgumentsPerParameter(n, m, n.cls.params);
    if Arguments(n).Ok? {
      var args := Arguments(n).value;
      ArgumentsAreLower(n, args);
      ArgumentsAreLower(m, args);
      ArgExprsIgnoresNode(n, m, args[..KeptCount(args)]);
    }
  }

  /** The bag reads only the properties named by its keys. */
  lemma {:induction false} BagIgnoresOtherProps(n: Node, m: Node, keys: seq<string>)
    requires n.cls == m.cls
    requires forall k <- keys :: (k in n.props <==> k in m.props) && (k in n.props ==> n.props[k] == m.props[k])
    ensures Bag(n, keys) == Bag(m, keys)
    decreases |keys|
  {
    if keys != [] {
      BagIgnoresOtherProps(n, m, keys[..|keys| - 1]);
    }
  }

  lemma {:induction false} SameArgumentsPerParameter(n: Node, m: Node, params: seq<Param>)
    requires forall p <- params :: ArgumentFor(n, p) == ArgumentFor(m, p)
    ensures ArgumentList(n, params) == ArgumentList(m, params)
    decreases |params|
  {
    if params != [] {
      SameArgumentsPerParameter(n, m, params[..|params| - 1]);
    }
  }

  /** A parameter that no rule covers aborts the whole instantiation with an
      error naming the parameter and the class, provided every earlier
      parameter had a value. */
  lemma UnmatchedParameterAborts(n: Node, i: nat)
    requires i < |n.cls.params|
    requires forall j | 0 <= j < i :: ArgumentFor(n, n.cls.params[j]).Ok?
    requires var p := n.cls.params[i];
             && p.name != "subNodes" && p.name != "attributes"
             && !(n.cls.kind == NameNode && p.name == "name")
             && p.name !in n.props
    ensures InstantiationOf(n) == Err(UnreconstructableParameter(n.cls.params[i].name, n.cls.name))
  {
    var params := n.cls.params;
    var front := params[..i + 1];
    assert front[..i] == params[..i];
    assert ArgumentList(n, front[..i]).Ok?;
    ArgumentListErrorPersists(n, params, i + 1);
  }
}
