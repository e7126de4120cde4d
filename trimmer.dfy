/** Dropping the trailing constructor arguments that PHP would supply anyway
    (src/InstantiationPrinter.php:148-163). */
module Trimmer {
  import opened Values

  /** An argument may be left out when neither `break` of the scan fires:
      its parameter is optional, has a default value available, and the value
      is strictly equal to that default. PHP then supplies that same value. */
  function Omittable(a: Argument): (b: bool)
    ensures b <==> a.param.isOptional && a.param.default == Some(a.value)
  {
    a.param.isOptional && a.param.default.Some? && a.param.default.value == a.value
  }

  /** The number of arguments that remain: everything before the maximal
      trailing run of omittable arguments. */
  function KeptCount(args: seq<Argument>): (k: nat)
    ensures k <= |args|
    ensures forall i | k <= i < |args| :: Omittable(args[i])
    ensures k == 0 || !Omittable(args[k - 1])
  {
    if args == [] then 0
    else if Omittable(args[|args| - 1]) then KeptCount(args[..|args| - 1])
    else |args|
  }

  /** The three properties of KeptCount determine it: no other cut leaves an
      omittable-only tail behind a kept argument that is not omittable. */
  lemma KeptCountIsUnique(args: seq<Argument>, k: nat)
    requires k <= |args|
    requires forall i | k <= i < |args| :: Omittable(args[i])
    requires k == 0 || !Omittable(args[k - 1])
    ensures k == KeptCount(args)
  {
  }

  /** Trimming a trimmed list removes nothing more. */
  lemma {:induction false} TrimIsIdempotent(args: seq<Argument>)
    ensures KeptCount(args[..KeptCount(args)]) == KeptCount(args)
  {
    var k := KeptCount(args);
    var kept := args[..k];
    if k > 0 {
      assert kept[k - 1] == args[k - 1];
    }
  }

  /** Appending an argument that cannot be omitted protects everything before it. */
  lemma {:induction false} NonOmittableTailKeepsAll(args: seq<Argument>, a: Argument)
    requires !Omittable(a)
    ensures KeptCount(args + [a]) == |args| + 1
  {
    assert (args + [a])[|args|] == a;
  }

  /** The backwards scan of the source: walk the arguments from the last one,
      unset each while it is omittable, stop at the first one that is not. */
  method RemoveDefaultedTrailingArguments(args: seq<Argument>) returns (kept: seq<Argument>)
    ensures kept == args[..KeptCount(args)]
  {
    kept := args;
    var i := |args|;
    while i > 0
      invariant 0 <= i <= |args|
      invariant kept == args[..i]
      invariant KeptCount(args[..i]) == KeptCount(args)
      decreases i
    {
      var parameter := args[i - 1].param;
      if !parameter.isOptional || parameter.default.None? {
        break;
      }
      if parameter.default.value != args[i - 1].value {
        break;
      }
      assert args[..i][..i - 1] == args[..i - 1];
      kept := kept[..i - 1];
      i := i - 1;
    }
  }
}
