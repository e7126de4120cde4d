/** What PHP makes of the literal part of a generated expression, and the
    round trip it completes with the classifier
    (src/InstantiationPrinter.php:171-214). */
module Evaluation {
  import opened Values
  import opened Builder

  /** Whether every item of an array literal carries a key, or none does:
      the two shapes the printer emits. */
  predicate UniformlyKeyed(items: seq<ArrayItem>) {
    (forall it <- items :: it.key.Some?) || (forall it <- items :: it.key.None?)
  }

  /** The value a literal expression evaluates to; `None` for an instantiation
      (its meaning is the node constructor's), an unknown constant, or an array
      literal that mixes keyed and unkeyed items. */
  function EvalLiteral(e: Expr): Option<Value>
    decreases e, 1
  {
    match e
    case StringLit(s) => Some(Str(s))
    case IntLit(i) => Some(Int(i))
    case FloatLit(f) => Some(Float(f))
    case ConstFetch(name) =>
      if name == "true" then Some(Bool(true))
      else if name == "false" then Some(Bool(false))
      else if name == "null" then Some(Null)
      else None
    case ArrayLit(items) =>
      if UniformlyKeyed(items) then
        var entries :- EvalItems(items, 0);
        Some(Arr(entries))
      else None
    case New(_, _) => None
  }

  /** The entries of the array literal's items from `i` on: a keyed item
      keeps its key, an unkeyed one gets its position (PHP's list keys). */
  function EvalItems(items: seq<ArrayItem>, i: nat): Option<seq<Entry>>
    requires i <= |items|
    decreases ArrayLit(items), 0, |items| - i
  {
    if i == |items| then Some([])
    else
      assert items[i] in items;
      var v :- EvalLiteral(items[i].value);
      var rest :- EvalItems(items, i + 1);
      var key := if items[i].key.Some? then items[i].key.value else IntKey(i);
      Some([Entry(key, v)] + rest)
  }

  /** Whether an array's keys are 0, 1, 2, ... in order. */
  predicate IsList(es: seq<Entry>) {
    forall i | 0 <= i < |es| :: es[i].key == IntKey(i)
  }

  predicate HasStringKeyEntry(es: seq<Entry>) {
    exists i | 0 <= i < |es| :: es[i].key.StrKey?
  }

  /** Whether an array is non-empty and keyed by strings only: the keyed
      arrays for which `new String_($key)` accepts every key under
      `strict_types`. */
  predicate StringKeyed(es: seq<Entry>) {
    HasStringKeyEntry(es) && forall i | 0 <= i < |es| :: es[i].key.StrKey?
  }

  /** A value with no node and no unsupported value in it, whose arrays are
      lists or keyed by strings only. */
  predicate Literal(v: Value) {
    match v
    case NodeV(_) => false
    case Other(_) => false
    case Arr(es) => (IsList(es) || StringKeyed(es)) && forall e <- es :: Literal(e.val)
    case _ => true
  }

  /** A value that is unsupported itself or inside one of its arrays. */
  predicate UnsupportedOutsideNodes(v: Value) {
    match v
    case Other(_) => true
    case Arr(es) => exists e <- es :: UnsupportedOutsideNodes(e.val)
    case _ => false
  }

  /** The classified entries from `i` on, element by element. */
  lemma {:induction false} ExprsOfEntriesAt(v: Value, i: nat, j: nat)
    requires v.Arr? && i <= j < |v.entries|
    requires ExprsOfEntries(v, i).Ok?
    ensures ExprOfValue(v.entries[j].val).Ok?
    ensures ExprsOfEntries(v, i).value[j - i] == (v.entries[j].key, ExprOfValue(v.entries[j].val).value)
    decreases j - i
  {
    if i < j {
      ExprsOfEntriesAt(v, i + 1, j);
    }
  }

  /** Classifying the entries from `i` on succeeds when each entry does. */
  lemma {:induction false} ExprsOfEntriesOk(v: Value, i: nat)
    requires v.Arr? && i <= |v.entries|
    requires forall j | i <= j < |v.entries| :: ExprOfValue(v.entries[j].val).Ok?
    ensures ExprsOfEntries(v, i).Ok?
    decreases |v.entries| - i
  {
    if i < |v.entries| {
      ExprsOfEntriesOk(v, i + 1);
    }
  }

  /** Evaluating the items from `i` on gives back the entries, when each
      item's value evaluates back to its entry's and the keys are recoverable. */
  lemma {:induction false} EvalItemsRecovers(items: seq<ArrayItem>, es: seq<Entry>, i: nat)
    requires |items| == |es| && i <= |es|
    requires forall j | i <= j < |es| :: EvalLiteral(items[j].value) == Some(es[j].val)
    requires forall j | i <= j < |es| :: es[j].key == if items[j].key.Some? then items[j].key.value else IntKey(j)
    ensures EvalItems(items, i) == Some(es[i..])
    decreases |es| - i
  {
    if i < |es| {
      EvalItemsRecovers(items, es, i + 1);
      assert es[i..] == [es[i]] + es[i + 1..];
    }
  }

  /** An array that is a list or keyed by strings only, and whose entries
      each round-trip, round-trips as a whole. */
  lemma {:induction false} ArrayRoundTrip(v: Value)
    requires v.Arr? && (IsList(v.entries) || StringKeyed(v.entries))
    requires forall j | 0 <= j < |v.entries| ::
               ExprOfValue(v.entries[j].val).Ok? && EvalLiteral(ExprOfValue(v.entries[j].val).value) == Some(v.entries[j].val)
    ensures ExprOfValue(v).Ok?
    ensures EvalLiteral(ExprOfValue(v).value) == Some(v)
  {
    var es := v.entries;
    ExprsOfEntriesOk(v, 0);
    var nodes := ExprsOfEntries(v, 0).value;
    forall j | 0 <= j < |es|
      ensures nodes[j] == (es[j].key, ExprOfValue(es[j].val).value)
    {
      ExprsOfEntriesAt(v, 0, j);
    }
    var e := WrapInArray(nodes);
    assert ExprOfValue(v) == Ok(e);
    assert HasStringKey(nodes) == HasStringKeyEntry(es);
    EvalItemsRecovers(e.items, es, 0);
    assert es[0..] == es;
  }

  /** The classifier is inverted by evaluation on literal values: a string,
      number, boolean, null or array (list or string-keyed) is emitted as a
      literal that evaluates back to exactly that value. */
  lemma {:induction false} LiteralRoundTrip(v: Value)
    requires Literal(v)
    ensures ExprOfValue(v).Ok?
    ensures EvalLiteral(ExprOfValue(v).value) == Some(v)
    decreases v
  {
    if v.Arr? {
      var es := v.entries;
      forall j | 0 <= j < |es|
        ensures ExprOfValue(es[j].val).Ok? && EvalLiteral(ExprOfValue(es[j].val).value) == Some(es[j].val)
      {
        assert es[j] in es;
        LiteralRoundTrip(es[j].val);
      }
      ArrayRoundTrip(v);
    }
  }

  /** An unsupported value, on its own or anywhere inside arrays, makes the
      classification fail. */
  lemma {:induction false} UnsupportedFails(v: Value)
    requires UnsupportedOutsideNodes(v)
    ensures ExprOfValue(v).Err?
    decreases v
  {
    if v.Arr? {
      var e :| e in v.entries && UnsupportedOutsideNodes(e.val);
      UnsupportedFails(e.val);
      var j :| 0 <= j < |v.entries| && v.entries[j] == e;
      if ExprsOfEntries(v, 0).Ok? {
        ExprsOfEntriesAt(v, 0, j);
      }
    }
  }

  /** Keys are lost when an array has only integer keys that are not 0, 1,
      2, ...: no key is emitted, so the literal evaluates to a list. */
  lemma NonListIntegerKeysAreLost()
    ensures var v := Arr([Entry(IntKey(1), Str("x"))]);
            && ExprOfValue(v).Ok?
            && EvalLiteral(ExprOfValue(v).value) == Some(Arr([Entry(IntKey(0), Str("x"))]))
  {
    var v := Arr([Entry(IntKey(1), Str("x"))]);
    var nodes := [(IntKey(1), StringLit("x"))];
    assert ExprOfValue(v.entries[0].val) == Ok(StringLit("x"));
    assert ExprsOfEntries(v, 1) == Ok([]);
    assert ExprsOfEntries(v, 0) == Ok([(v.entries[0].key, StringLit("x"))] + []);
    assert [(v.entries[0].key, StringLit("x"))] + [] == nodes;
    assert !HasStringKey(nodes);
    var e := WrapInArray(nodes);
    assert e == ArrayLit([ArrayItem(StringLit("x"), None)]);
    assert ExprOfValue(v) == Ok(e);
    assert EvalItems(e.items, 1) == Some([]);
    assert EvalLiteral(e.items[0].value) == Some(Str("x"));
    assert EvalItems(e.items, 0) == Some([Entry(IntKey(0), Str("x"))] + []);
    assert UniformlyKeyed(e.items);
    assert [Entry(IntKey(0), Str("x"))] + [] == [Entry(IntKey(0), Str("x"))];
    assert EvalLiteral(e) == Some(Arr([Entry(IntKey(0), Str("x"))]));
  }
}
