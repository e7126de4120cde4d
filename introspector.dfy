/** Reconstructing, per constructor parameter, the value a node was built
    from (src/InstantiationPrinter.php:75-146). */
module Introspector {
  import opened Values

  /** The names of the constructor parameters: the keys of the source's
      name-indexed `$constructorParameters` table. */
  function ParamNames(params: seq<Param>): (names: set<string>)
    ensures forall p <- params :: p.name in names
    ensures forall name <- names :: exists p <- params :: p.name == name
  {
    set p <- params :: p.name
  }

  /** `array_diff`: the names not excluded, in their original order. */
  function NamesNotIn(names: seq<string>, excluded: set<string>): (r: seq<string>)
    ensures |r| <= |names|
    ensures forall k :: k in r <==> k in names && k !in excluded
  {
    if names == [] then []
    else
      var front := NamesNotIn(names[..|names| - 1], excluded);
      var last := names[|names| - 1];
      assert names == names[..|names| - 1] + [last];
      if last in excluded then front else front + [last]
  }

  /** `array_diff` keeps the order of the names: filtering a concatenation
      is concatenating the filtered parts. */
  lemma {:induction false} NamesNotInAppend(a: seq<string>, b: seq<string>, excluded: set<string>)
    ensures NamesNotIn(a + b, excluded) == NamesNotIn(a, excluded) + NamesNotIn(b, excluded)
    decreases |b|
  {
    if b != [] {
      var front := b[..|b| - 1];
      assert (a + b)[..|a + b| - 1] == a + front;
      assert (a + b)[|a + b| - 1] == b[|b| - 1];
      NamesNotInAppend(a, front, excluded);
    } else {
      assert a + b == a;
    }
  }

  /** The keys of the `subNodes` bag: the sub-node names that are not
      constructor parameters in their own right. */
  function BagKeys(c: Class): seq<string> {
    NamesNotIn(c.subNodeNames, ParamNames(c.params))
  }

  /** A name is a bag key exactly when it is a sub-node name that no
      constructor parameter carries. */
  lemma BagKeyIff(c: Class, k: string)
    ensures k in BagKeys(c) <==> k in c.subNodeNames && forall p <- c.params :: p.name != k
  {
  }

  /** The values a `Class_` constructor fills in itself for the sub-nodes
      missing from its `subNodes` array. */
  const ClassSubNodeDefaults: map<string, Value> :=
    map["flags" := Int(0), "extends" := Null, "implements" := Arr([]),
        "stmts" := Arr([]), "attrGroups" := Arr([])]

  /** The five tests of the `Class_` special case: a key holding the value
      the constructor would fill in for it anyway. */
  predicate IsUnspecified(key: string, v: Value) {
    || (key == "flags" && v == Int(0))
    || (key == "extends" && v == Null)
    || (key == "implements" && v == Arr([]))
    || (key == "stmts" && v == Arr([]))
    || (key == "attrGroups" && v == Arr([]))
  }

  /** Whether the bag leaves out the key `key` of node `n`. */
  predicate LeftOutOfBag(n: Node, key: string)
    requires key in n.props
  {
    n.cls.kind == ClassNode && IsUnspecified(key, n.props[key])
  }

  /** Only a `Class_` leaves a key out of its bag, and only a key holding
      the value its constructor would fill in for it anyway. */
  lemma LeftOutOfBagIff(n: Node, key: string)
    requires key in n.props
    ensures LeftOutOfBag(n, key) <==>
              n.cls.kind == ClassNode && key in ClassSubNodeDefaults && ClassSubNodeDefaults[key] == n.props[key]
  {
  }

  /** The `subNodes` bag over `keys`: each key with the node's property
      value, except the unspecified ones of a `Class_`. A key with no
      property behind it is a reflection error. */
  function Bag(n: Node, keys: seq<string>): (r: Result<seq<Entry>>)
    ensures r.Ok? <==> forall k <- keys :: k in n.props
    ensures r.Err? ==> exists k <- keys :: k !in n.props && r.error == MissingProperty(n.cls.name, k)
    ensures r.Ok? ==> |r.value| <= |keys|
    ensures r.Ok? ==> forall e <- r.value ::
              && e.key.StrKey? && e.key.s in keys && e.key.s in n.props
              && e.val == n.props[e.key.s] && !LeftOutOfBag(n, e.key.s)
    ensures r.Ok? ==> forall k <- keys :: !LeftOutOfBag(n, k) ==> Entry(StrKey(k), n.props[k]) in r.value
    ensures r.Ok? && n.cls.kind != ClassNode ==>
              && |r.value| == |keys|
              && forall i | 0 <= i < |keys| :: r.value[i] == Entry(StrKey(keys[i]), n.props[keys[i]])
  {
    if keys == [] then Ok([])
    else
      var front := keys[..|keys| - 1];
      var key := keys[|keys| - 1];
      assert keys == front + [key];
      var entries :- Bag(n, front);
      if key !in n.props then Err(MissingProperty(n.cls.name, key))
      else if LeftOutOfBag(n, key) then Ok(entries)
      else Ok(entries + [Entry(StrKey(key), n.props[key])])
  }

  /** The bag keeps the order of its keys: the bag of a concatenation of
      keys is the concatenation of the bags. */
  lemma {:induction false} BagAppend(n: Node, a: seq<string>, b: seq<string>)
    requires Bag(n, a + b).Ok?
    ensures Bag(n, a).Ok? && Bag(n, b).Ok?
    ensures Bag(n, a + b).value == Bag(n, a).value + Bag(n, b).value
    decreases |b|
  {
    if b != [] {
      var front := b[..|b| - 1];
      assert (a + b)[..|a + b| - 1] == a + front;
      BagAppend(n, a, front);
    } else {
      assert a + b == a;
    }
  }

  /** A class whose sub-nodes all hold the values its constructor fills in
      passes an empty bag. */
  lemma {:induction false} UnspecifiedBagIsEmpty(n: Node, keys: seq<string>)
    requires forall k <- keys :: k in n.props && LeftOutOfBag(n, k)
    ensures Bag(n, keys) == Ok([])
    decreases |keys|
  {
    if keys != [] {
      UnspecifiedBagIsEmpty(n, keys[..|keys| - 1]);
    }
  }

  /** `implode('\\', $parts)`: the joined name starts with the first part,
      and it is empty only for no parts or one empty part. */
  function Join(parts: seq<string>): (r: string)
    ensures parts != [] ==> parts[0] <= r
    ensures r == [] <==> parts == [] || parts == [""]
  {
    if |parts| <= 1 then (if parts == [] then "" else parts[0])
    else parts[0] + "\\" + Join(parts[1..])
  }

  /** `explode('\\', $name)`, which the `Name` constructor applies to a
      string name: the inverse the name rule relies on. */
  function Explode(s: string): (parts: seq<string>)
    ensures |parts| >= 1
  {
    if s == [] then [""]
    else
      var rest := Explode(s[1..]);
      if s[0] == '\\' then [""] + rest
      else [[s[0]] + rest[0]] + rest[1..]
  }

  lemma {:induction false} ExplodeAppend(p: string, s: string)
    requires '\\' !in p
    ensures Explode(p + s) == [p + Explode(s)[0]] + Explode(s)[1..]
    decreases |p|
  {
    if p != [] {
      assert (p + s)[1..] == p[1..] + s;
      ExplodeAppend(p[1..], s);
      assert [p[0]] + (p[1..] + Explode(s)[0]) == p + Explode(s)[0];
    } else {
      var parts := Explode(s);
      assert p + s == s && p + parts[0] == parts[0];
      assert parts == [parts[0]] + parts[1..];
    }
  }

  /** Splitting the joined name gives back its parts, so a `Name` rebuilt from
      the joined string has the parts of the original. */
  lemma {:induction false} ExplodeJoin(parts: seq<string>)
    requires parts != []
    requires forall p <- parts :: '\\' !in p
    ensures Explode(Join(parts)) == parts
    decreases |parts|
  {
    if |parts| == 1 {
      ExplodeAppend(parts[0], "");
      assert parts[0] + "" == parts[0];
    } else {
      var rest := Join(parts[1..]);
      ExplodeJoin(parts[1..]);
      assert parts[0] + "\\" + rest == parts[0] + ("\\" + rest);
      ExplodeAppend(parts[0], "\\" + rest);
      assert ("\\" + rest)[1..] == rest;
      assert Explode("\\" + rest) == [""] + parts[1..];
      assert parts[0] + "" == parts[0];
    }
  }

  /** The decimal digits of a natural number, most significant first, with
      no leading zero. */
  function DecimalDigits(n: nat): (r: string)
    ensures r != [] && forall i | 0 <= i < |r| :: '0' <= r[i] <= '9'
    ensures |r| > 1 ==> r[0] != '0'
  {
    if n < 10 then ['0' + n as char]
    else DecimalDigits(n / 10) + ['0' + (n % 10) as char]
  }

  /** The number a string of decimal digits denotes. */
  function DigitsValue(s: string): nat
    requires forall i | 0 <= i < |s| :: '0' <= s[i] <= '9'
  {
    if s == [] then 0
    else DigitsValue(s[..|s| - 1]) * 10 + (s[|s| - 1] as int - '0' as int)
  }

  /** The digits read back give the number. */
  lemma {:induction false} DecimalDigitsValue(n: nat)
    ensures DigitsValue(DecimalDigits(n)) == n
  {
    if n >= 10 {
      var d := DecimalDigits(n);
      DecimalDigitsValue(n / 10);
      assert d[..|d| - 1] == DecimalDigits(n / 10);
    }
  }

  /** PHP's integer-to-string conversion: an optional minus sign, then the
      decimal digits of the magnitude. */
  function IntText(i: int): (r: string)
    ensures '\\' !in r
    ensures i >= 0 ==> r == DecimalDigits(i)
    ensures i < 0 ==> r == "-" + DecimalDigits(-i)
  {
    if i < 0 then "-" + DecimalDigits(-i) else DecimalDigits(i)
  }

  /** The string `implode` makes of one part: a string is itself, an integer
      its decimal text, a float its text, `true` is "1", `false` and `null`
      are empty, an array is "Array". An object has no string form here. */
  function PartString(v: Value): (r: Option<string>)
    ensures r.None? <==> v.NodeV? || v.Other?
    ensures v.Str? ==> r == Some(v.s)
    ensures v.Int? ==> r == Some(IntText(v.i))
    ensures v.Bool? ==> r == Some(if v.b then "1" else "")
    ensures v.Null? ==> r == Some("")
    ensures v.Float? ==> r == Some(v.f.text)
    ensures v.Arr? ==> r == Some("Array")
  {
    match v
    case Str(s) => Some(s)
    case Int(i) => Some(IntText(i))
    case Float(f) => Some(f.text)
    case Bool(b) => Some(if b then "1" else "")
    case Null => Some("")
    case Arr(_) => Some("Array")
    case NodeV(_) => None
    case Other(_) => None
  }

  /** The strings of a list of entries, in order (`implode` ignores keys). */
  function EntryStrings(es: seq<Entry>): (r: seq<string>)
    requires forall e <- es :: PartString(e.val).Some?
    ensures |r| == |es| && forall i | 0 <= i < |es| :: r[i] == PartString(es[i].val).value
  {
    if es == [] then [] else [PartString(es[0].val).value] + EntryStrings(es[1..])
  }

  /** `$node->toString()` of a `Name`: `implode('\\', $this->parts)`, which
      turns each part into a string and joins them with backslashes. It fails
      when `parts` is missing or not an array, or a part is an object. */
  function NameString(n: Node): (r: Result<string>)
    ensures r.Ok? <==> "parts" in n.props && n.props["parts"].Arr?
                       && forall e <- n.props["parts"].entries :: PartString(e.val).Some?
    ensures r.Err? ==> r.error == MalformedName(n.cls.name)
  {
    if "parts" in n.props && n.props["parts"].Arr? && forall e <- n.props["parts"].entries :: PartString(e.val).Some? then
      Ok(Join(EntryStrings(n.props["parts"].entries)))
    else Err(MalformedName(n.cls.name))
  }

  /** The joined name is the right argument: when it is not empty (the
      `Name` constructor rejects an empty name) and no part holds a
      backslash, the constructor splits it back into the string forms of the
      node's parts, which are the parts themselves when they are strings. */
  lemma NameStringRebuildsParts(n: Node)
    requires NameString(n).Ok? && NameString(n).value != ""
    requires forall p <- EntryStrings(n.props["parts"].entries) :: '\\' !in p
    ensures Explode(NameString(n).value) == EntryStrings(n.props["parts"].entries)
    ensures (forall e <- n.props["parts"].entries :: e.val.Str?) ==>
              var split := Explode(NameString(n).value);
              |split| == |n.props["parts"].entries| &&
              forall i | 0 <= i < |split| :: Str(split[i]) == n.props["parts"].entries[i].val
  {
    var parts := EntryStrings(n.props["parts"].entries);
    assert parts != [];
    ExplodeJoin(parts);
  }

  /** The value for one constructor parameter. The rules are tried in order:
      the `subNodes` bag, the joined name of a `Name`, `attributes` forced to
      the empty array, the same-named property; no rule is an error naming the
      parameter and the class. */
  function ArgumentFor(n: Node, p: Param): (r: Result<Value>)
    ensures p.name == "subNodes" ==> r == (var b := Bag(n, BagKeys(n.cls)); if b.Ok? then Ok(Arr(b.value)) else Err(b.error))
    ensures p.name == "attributes" ==> r == Ok(Arr([]))
    ensures n.cls.kind == NameNode && p.name == "name" ==>
              r == (var s := NameString(n); if s.Ok? then Ok(Str(s.value)) else Err(s.error))
    ensures p.name !in {"subNodes", "attributes"} && !(n.cls.kind == NameNode && p.name == "name") ==>
              r == if p.name in n.props then Ok(n.props[p.name])
                   else Err(UnreconstructableParameter(p.name, n.cls.name))
  {
    if p.name == "subNodes" then
      var entries :- Bag(n, BagKeys(n.cls));
      Ok(Arr(entries))
    else if n.cls.kind == NameNode && p.name == "name" then
      var s :- NameString(n);
      Ok(Str(s))
    else if p.name == "attributes" then
      Ok(Arr([]))
    else if p.name in n.props then
      Ok(n.props[p.name])
    else
      Err(UnreconstructableParameter(p.name, n.cls.name))
  }

  /** The arguments for `params`, in declaration order; the first parameter
      without a value aborts with its error. */
  function ArgumentList(n: Node, params: seq<Param>): (r: Result<seq<Argument>>)
    ensures r.Ok? ==> |r.value| == |params|
    ensures r.Ok? ==> forall i | 0 <= i < |params| ::
              r.value[i].param == params[i] && ArgumentFor(n, params[i]) == Ok(r.value[i].value)
    ensures r.Ok? <==> forall i | 0 <= i < |params| :: ArgumentFor(n, params[i]).Ok?
  {
    if params == [] then Ok([])
    else
      var front := params[..|params| - 1];
      var p := params[|params| - 1];
      var args :- ArgumentList(n, front);
      var v :- ArgumentFor(n, p);
      Ok(args + [Argument(p, v)])
  }

  /** A failing argument list reports the error of its first parameter
      without a value: there is no partial result. */
  lemma {:induction false} ArgumentListFailsAtFirst(n: Node, params: seq<Param>) returns (i: nat)
    requires ArgumentList(n, params).Err?
    ensures i < |params|
    ensures ArgumentFor(n, params[i]) == Err(ArgumentList(n, params).error)
    ensures forall j | 0 <= j < i :: ArgumentFor(n, params[j]).Ok?
    decreases |params|
  {
    var front := params[..|params| - 1];
    if ArgumentList(n, front).Err? {
      i := ArgumentListFailsAtFirst(n, front);
      assert params[i] == front[i];
      assert forall j | 0 <= j < i :: params[j] == front[j];
    } else {
      i := |params| - 1;
      assert forall j | 0 <= j < i :: params[j] == front[j];
    }
  }

  /** One more parameter with a value extends the argument list by one. */
  lemma ArgumentListExtends(n: Node, params: seq<Param>, i: nat, args: seq<Argument>, v: Value)
    requires i < |params|
    requires ArgumentList(n, params[..i]) == Ok(args)
    requires ArgumentFor(n, params[i]) == Ok(v)
    ensures ArgumentList(n, params[..i + 1]) == Ok(args + [Argument(params[i], v)])
  {
    assert params[..i + 1][..i] == params[..i];
  }

  /** The reconstructed arguments of a node, one per constructor parameter. */
  function Arguments(n: Node): Result<seq<Argument>> {
    ArgumentList(n, n.cls.params)
  }

  /** Once a prefix of the parameters has failed, the whole list fails with
      the same error. */
  lemma {:induction false} ArgumentListErrorPersists(n: Node, params: seq<Param>, i: nat)
    requires i <= |params|
    requires ArgumentList(n, params[..i]).Err?
    ensures ArgumentList(n, params) == ArgumentList(n, params[..i])
    decreases |params|
  {
    if i < |params| {
      var front := params[..|params| - 1];
      assert front[..i] == params[..i];
      ArgumentListErrorPersists(n, front, i);
    } else {
      assert params[..i] == params;
    }
  }

  /** Once a prefix of the bag keys has failed, the whole bag fails with the
      same error. */
  lemma {:induction false} BagErrorPersists(n: Node, keys: seq<string>, j: nat)
    requires j <= |keys|
    requires Bag(n, keys[..j]).Err?
    ensures Bag(n, keys) == Bag(n, keys[..j])
    decreases |keys|
  {
    if j < |keys| {
      var front := keys[..|keys| - 1];
      assert front[..j] == keys[..j];
      BagErrorPersists(n, front, j);
    } else {
      assert keys[..j] == keys;
    }
  }

  /** The loop that fills the `subNodes` bag key by key, skipping the
      unspecified keys of a `Class_`. */
  method BuildSubNodesBag(n: Node, bagKeys: seq<string>) returns (r: Result<seq<Entry>>)
    ensures r == Bag(n, bagKeys)
  {
    var bag: seq<Entry> := [];
    for j := 0 to |bagKeys|
      invariant Bag(n, bagKeys[..j]) == Ok(bag)
    {
      var subNodeName := bagKeys[j];
      assert bagKeys[..j + 1][..j] == bagKeys[..j] && bagKeys[..j + 1][j] == subNodeName;
      if subNodeName !in n.props {
        BagErrorPersists(n, bagKeys, j + 1);
        return Err(MissingProperty(n.cls.name, subNodeName));
      }
      var propertyValue := n.props[subNodeName];
      if n.cls.kind == ClassNode && IsUnspecified(subNodeName, propertyValue) {
        continue;
      }
      bag := bag + [Entry(StrKey(subNodeName), propertyValue)];
    }
    assert bagKeys[..|bagKeys|] == bagKeys;
    r := Ok(bag);
  }

  /** The body of the per-parameter loop: the rules tried in order. */
  method ValueForParameter(n: Node, parameter: Param, bagKeys: seq<string>) returns (r: Result<Value>)
    requires bagKeys == BagKeys(n.cls)
    ensures r == ArgumentFor(n, parameter)
  {
    if parameter.name == "subNodes" {
      var bag := BuildSubNodesBag(n, bagKeys);
      if bag.Err? {
        return Err(bag.error);
      }
      r := Ok(Arr(bag.value));
    } else if n.cls.kind == NameNode && parameter.name == "name" {
      var name := NameString(n);
      if name.Err? {
        return Err(name.error);
      }
      r := Ok(Str(name.value));
    } else if parameter.name == "attributes" {
      r := Ok(Arr([]));
    } else if parameter.name in n.props {
      r := Ok(n.props[parameter.name]);
    } else {
      r := Err(UnreconstructableParameter(parameter.name, n.cls.name));
    }
  }

  /** The first two loops of `createArgumentsForInstantiationOfNode`: index
      the constructor parameters by name, then give each parameter, in
      declaration order, the value of the first rule that applies. */
  method ReconstructArguments(n: Node) returns (r: Result<seq<Argument>>)
    ensures r == Arguments(n)
  {
    var params := n.cls.params;
    var constructorParameterNames: set<string> := {};
    for i := 0 to |params|
      invariant constructorParameterNames == ParamNames(params[..i])
    {
      assert params[..i + 1] == params[..i] + [params[i]];
      constructorParameterNames := constructorParameterNames + {params[i].name};
    }
    assert params[..|params|] == params;
    var bagKeys := NamesNotIn(n.cls.subNodeNames, constructorParameterNames);

    var arguments: seq<Argument> := [];
    for i := 0 to |params|
      invariant ArgumentList(n, params[..i]) == Ok(arguments)
    {
      var parameter := params[i];
      var value := ValueForParameter(n, parameter, bagKeys);
      if value.Err? {
        assert params[..i + 1][..i] == params[..i];
        ArgumentListErrorPersists(n, params, i + 1);
        return Err(value.error);
      }
      ArgumentListExtends(n, params, i, arguments, value.value);
      arguments := arguments + [Argument(parameter, value.value)];
    }
    assert params[..|params|] == params;
    r := Ok(arguments);
  }
}
