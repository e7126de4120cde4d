/** The values the printer reads off PHP-Parser nodes, the nodes themselves
    together with the reflection facts the printer consults about their class,
    and the expression tree it builds. */
module Values {

  datatype Option<+T> = None | Some(value: T) {
    predicate IsFailure() { None? }
    function PropagateFailure<U>(): Option<U> requires None? { None }
    function Extract(): T requires Some? { value }
  }

  /** A PHP array is an ordered map whose keys are integers or strings. */
  datatype Key = IntKey(i: int) | StrKey(s: string)

  /** A float, kept as an opaque token: the printer never computes with floats. */
  datatype FloatToken = FloatToken(text: string)

  /** A PHP value as the printer can meet it in a node's property. */
  datatype Value =
    | Str(s: string)
    | Int(i: int)
    | Float(f: FloatToken)
    | Bool(b: bool)
    | Null
    | NodeV(node: Node)
    | Arr(entries: seq<Entry>)
    | Other(description: string)  // any other object, a closure, a resource

  datatype Entry = Entry(key: Key, val: Value)

  /** The two `instanceof` tests the printer makes: `Node\Name` (with its
      subclasses) and `Node\Stmt\Class_`. */
  datatype Kind = NameNode | ClassNode | OtherNode

  /** A constructor parameter as reflection reports it: its name, whether it
      is optional, and its default value when one is available. */
  datatype Param = Param(name: string, isOptional: bool, default: Option<Value>)

  /** What reflection and `getSubNodeNames()` tell about a node class:
      constructor parameters in declaration order and the sub-node names. */
  datatype Class = Class(name: string, kind: Kind, params: seq<Param>, subNodeNames: seq<string>)

  /** A node: its class and its properties by name. */
  datatype Node = Node(cls: Class, props: map<string, Value>)

  /** A reconstructed constructor argument, paired with its parameter. */
  datatype Argument = Argument(param: Param, value: Value)

  datatype Error =
    | UnreconstructableParameter(param: string, className: string)  // no rule gives the parameter a value
    | UnsupportedValueType(description: string)                     // a value the classifier has no literal for
    | MissingProperty(className: string, property: string)          // a sub-node name with no property behind it
    | MalformedName(className: string)                              // a Name whose parts are missing, not an array, or hold an object

  datatype Result<+T> = Ok(value: T) | Err(error: Error) {
    predicate IsFailure() { Err? }
    function PropagateFailure<U>(): Result<U> requires Err? { Err(error) }
    function Extract(): T requires Ok? { value }
  }

  /** The expression tree handed to the pretty-printer. */
  datatype Expr =
    | New(className: string, args: seq<Arg>)      // new <className>(args...)
    | StringLit(s: string)                          // Scalar\String_
    | IntLit(i: int)                                // Scalar\LNumber
    | FloatLit(f: FloatToken)                       // Scalar\DNumber
    | ConstFetch(name: string)                      // Expr\ConstFetch(new Name(name))
    | ArrayLit(items: seq<ArrayItem>)               // Expr\Array_

  datatype Arg = Arg(value: Expr)

  /** An array item, emitted with its key (`new String_($key)`) or without one. */
  datatype ArrayItem = ArrayItem(value: Expr, key: Option<Key>)

  /** The statement the printer wraps its expression in. */
  datatype Stmt = Return(expr: Expr)
}
