/** JavaScript values as the field comparers see them, and the library
    functions the comparers call but whose internals are not modelled. */
module JsValues {

  /** A value that can sit in a data-frame column. JavaScript numbers are
      modelled as mathematical integers; `Obj` stands for any object
      (a Date, a DateTime, an array), which is always truthy. */
  datatype Value =
    | Undefined
    | Null
    | Num(n: int)
    | Str(s: string)
    | Bool(b: bool)
    | Obj(id: nat)

  /** JavaScript truthiness, made explicit per kind of value:
      `0`, `""`, `false`, `null` and `undefined` are the falsy values. */
  predicate Truthy(v: Value) {
    match v
    case Undefined => false
    case Null => false
    case Num(n) => n != 0
    case Str(s) => s != ""
    case Bool(b) => b
    case Obj(_) => true
  }

  /** lodash `isNumber`: the value is of JavaScript type number. */
  predicate IsNumber(v: Value) {
    v.Num?
  }

  /** The collaborators the comparers call into:
      - `localeCompare(a, b)` is `a.localeCompare(b)`, locale-aware collation;
      - `isDateTimeInput(v)` classifies a raw value as something `dateTime` accepts;
      - `isBefore(a, b)` is `dateTime(a).isBefore(b)`. */
  datatype Host = Host(
    localeCompare: (string, string) -> int,
    isDateTimeInput: Value -> bool,
    isBefore: (Value, Value) -> bool)

  /** A collation whose sign is a total preorder: every string is equivalent
      to itself, swapping the operands flips the sign, and "not after" is transitive. */
  ghost predicate IsCollation(cmp: (string, string) -> int) {
    && (forall s :: cmp(s, s) == 0)
    && (forall s, t :: cmp(s, t) < 0 <==> cmp(t, s) > 0)
    && (forall s, t, u :: cmp(s, t) <= 0 && cmp(t, u) <= 0 ==> cmp(s, u) <= 0)
  }

  /** "Is before" on instants is a strict order. */
  ghost predicate IsStrictOrder(before: (Value, Value) -> bool) {
    && (forall v :: !before(v, v))
    && (forall u, v, w :: before(u, v) && before(v, w) ==> before(u, w))
  }

  /** What the comparers' ordering properties assume of the environment. */
  ghost predicate ValidHost(host: Host) {
    IsCollation(host.localeCompare) && IsStrictOrder(host.isBefore)
  }

  /** A host that meets the assumptions: collation by length, nothing before anything. */
  function LengthCollationHost(): Host {
    Host((s: string, t: string) => |s| - |t|, (v: Value) => true, (u: Value, v: Value) => false)
  }

  /** The assumptions of `ValidHost` can all be met at once. */
  lemma ValidHostExists()
    ensures ValidHost(LengthCollationHost())
  {
  }
}
