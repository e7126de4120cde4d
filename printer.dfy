/** The public entry points of the printer (src/InstantiationPrinter.php:30-52):
    the instantiation statement for one node, and for a parsed program. The
    parser and the pretty-printer are outside the model: statements arrive as
    nodes and the result is the `return` statement that would be printed. */
module Printer {
  import opened Values
  import opened Builder

  /** `printInstantiationNodeFor` before printing: `return <instantiation>;`,
      or the error that building the instantiation raised. */
  function InstantiationNodeFor(n: Node): (r: Result<Stmt>)
    ensures r.Ok? <==> InstantiationOf(n).Ok?
    ensures r.Ok? ==> r.value.expr.New? && r.value.expr == InstantiationOf(n).value
    ensures r.Err? ==> r.error == InstantiationOf(n).error
  {
    var e :- InstantiationOf(n);
    Ok(Return(e))
  }

  /** The `array_map` over the parsed statements: the instantiation of each,
      keyed by its position; the first statement that fails aborts. */
  function InstantiationsOf(statements: seq<Node>): (r: Result<seq<(Key, Expr)>>)
    ensures r.Ok? ==> |r.value| == |statements|
  {
    if statements == [] then Ok([])
    else
      var init :- InstantiationsOf(statements[..|statements| - 1]);
      var last :- InstantiationOf(statements[|statements| - 1]);
      Ok(init + [(IntKey(|statements| - 1), last)])
  }

  /** Each statement's instantiation, keyed by its position. */
  lemma {:induction false} InstantiationsAt(statements: seq<Node>, i: nat)
    requires InstantiationsOf(statements).Ok? && i < |statements|
    ensures InstantiationOf(statements[i]).Ok?
    ensures InstantiationsOf(statements).value[i] == (IntKey(i), InstantiationOf(statements[i]).value)
  {
    var prefix := statements[..|statements| - 1];
    if i < |prefix| {
      InstantiationsAt(prefix, i);
    }
  }

  /** The error of the statements is that of the first one that fails. */
  lemma {:induction false} InstantiationsFailAtFirst(statements: seq<Node>) returns (i: nat)
    requires InstantiationsOf(statements).Err?
    ensures i < |statements|
    ensures InstantiationOf(statements[i]) == Err(InstantiationsOf(statements).error)
    ensures forall k | 0 <= k < i :: InstantiationOf(statements[k]).Ok?
  {
    var init := statements[..|statements| - 1];
    if InstantiationsOf(init).Err? {
      i := InstantiationsFailAtFirst(init);
      assert init[i] == statements[i];
      assert forall k | 0 <= k < i :: init[k] == statements[k];
    } else {
      i := |statements| - 1;
      forall k | 0 <= k < i
        ensures InstantiationOf(statements[k]).Ok?
      {
        InstantiationsAt(init, k);
        assert init[k] == statements[k];
      }
    }
  }

  /** `printInstantiationCodeFor` before printing: one statement is returned
      bare, any other number of statements as a list literal of their
      instantiations in order. */
  method PrintInstantiationCodeFor(statements: seq<Node>) returns (r: Result<Stmt>)
    ensures r.Ok? <==> forall i | 0 <= i < |statements| :: InstantiationOf(statements[i]).Ok?
    ensures r.Err? ==> InstantiationsOf(statements) == Err(r.error)
    ensures |statements| == 1 ==> r == InstantiationNodeFor(statements[0])
    ensures |statements| != 1 && r.Ok? ==>
              && r.value.expr.ArrayLit?
              && |r.value.expr.items| == |statements|
              && forall i | 0 <= i < |statements| ::
                   r.value.expr.items[i] == ArrayItem(InstantiationOf(statements[i]).value, None)
  {
    var instantiationNodes := InstantiationsOf(statements);
    if instantiationNodes.Err? {
      ghost var i := InstantiationsFailAtFirst(statements);
      r := Err(instantiationNodes.error);
    } else {
      var nodes := instantiationNodes.value;
      forall i | 0 <= i < |statements|
        ensures InstantiationOf(statements[i]).Ok? && nodes[i] == (IntKey(i), InstantiationOf(statements[i]).value)
      {
        InstantiationsAt(statements, i);
      }
      var ret: Expr;
      if |nodes| == 1 {
        ret := nodes[0].1;
      } else {
        ret := WrapNodesInArray(nodes);
        assert !HasStringKey(nodes);
      }
      r := Ok(Return(ret));
    }
  }
}
