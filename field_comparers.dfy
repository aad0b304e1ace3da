/** The typed comparer family that dashboard tables use to order the rows of
    a data-frame column: value-level comparers, and index-level comparers
    that look two rows up in a column and delegate to a value comparer. */
module FieldComparers {
  import opened JsValues

  /** The column's declared element type. `OtherType` stands for every tag of
      the field-type enumeration that has no comparer of its own. */
  datatype FieldType = Time | Number | String | Boolean | OtherType(name: string)

  /** A column: its type tag and its values, read by position. */
  datatype Field = Field(fieldType: FieldType, values: seq<Value>)

  // ---------------------------------------------------------------------
  // Value-level comparers
  // ---------------------------------------------------------------------

  /** Empty or absent values sort after present ones; two falsy or two
      truthy values are equal. */
  function FalsyComparer(a: Value, b: Value): (r: int)
    ensures r == 1 <==> !Truthy(a) && Truthy(b)
    ensures r == -1 <==> Truthy(a) && !Truthy(b)
    ensures r == 0 <==> (Truthy(a) <==> Truthy(b))
  {
    if !Truthy(a) && Truthy(b) then 1
    else if Truthy(a) && !Truthy(b) then -1
    else 0
  }

  /** The raw difference: its sign is the numeric order of the operands. */
  function NumericComparer(a: int, b: int): (r: int)
    ensures r < 0 <==> a < b
    ensures r == 0 <==> a == b
    ensures r > 0 <==> a > b
  {
    a - b
  }

  /** A value of the declared `string` type, or any falsy value, which never
      reaches `localeCompare`. A truthy non-string first operand has no
      `localeCompare` and makes the call throw; a truthy non-string second
      operand would be converted to a string, but lies outside the declared
      type. */
  predicate StringCell(v: Value) {
    v.Str? || !Truthy(v)
  }

  /** Empty strings (and other falsy values) sort after every non-empty
      string and are equal to each other; two non-empty strings are ordered
      by the host's collation. */
  function StringComparer(host: Host, a: Value, b: Value): (r: int)
    requires StringCell(a) && StringCell(b)
    ensures !Truthy(a) && Truthy(b) ==> r == 1
    ensures Truthy(a) && !Truthy(b) ==> r == -1
    ensures !Truthy(a) && !Truthy(b) ==> r == 0
    ensures Truthy(a) && Truthy(b) ==> r == host.localeCompare(a.s, b.s)
  {
    if !Truthy(a) || !Truthy(b) then FalsyComparer(a, b)
    else host.localeCompare(a.s, b.s)
  }

  /** `true` sorts before `false`; any other value sorts as its truthiness. */
  function BooleanComparer(a: Value, b: Value): (r: int)
    ensures r == -1 <==> Truthy(a) && !Truthy(b)
    ensures r == 1 <==> !Truthy(a) && Truthy(b)
    ensures r == 0 <==> (Truthy(a) <==> Truthy(b))
    ensures a.Bool? && b.Bool? ==>
              && (r == -1 <==> a.b && !b.b)
              && (r == 1 <==> !a.b && b.b)
              && (r == 0 <==> a.b == b.b)
  {
    FalsyComparer(a, b)
  }

  /** Both operands are inputs the date-time library accepts. */
  predicate DateTimeInputs(host: Host, a: Value, b: Value) {
    host.isDateTimeInput(a) && host.isDateTimeInput(b)
  }

  /** Time values: falsy values last; two numbers (timestamps) by their
      difference; two date-time inputs by "is before"; anything else equal. */
  function TimeComparer(host: Host, a: Value, b: Value): (r: int)
    ensures !Truthy(a) && Truthy(b) ==> r == 1
    ensures Truthy(a) && !Truthy(b) ==> r == -1
    ensures !Truthy(a) && !Truthy(b) ==> r == 0
    ensures Truthy(a) && Truthy(b) && IsNumber(a) && IsNumber(b) ==>
              (r < 0 <==> a.n < b.n) && (r == 0 <==> a.n == b.n)
    ensures Truthy(a) && Truthy(b) && !(IsNumber(a) && IsNumber(b)) ==>
              && (r == -1 <==> DateTimeInputs(host, a, b) && host.isBefore(a, b))
              && (r == 1 <==> DateTimeInputs(host, a, b) && !host.isBefore(a, b) && host.isBefore(b, a))
              && (r == 0 <==> !DateTimeInputs(host, a, b) || (!host.isBefore(a, b) && !host.isBefore(b, a)))
  {
    if !Truthy(a) || !Truthy(b) then FalsyComparer(a, b)
    else if IsNumber(a) && IsNumber(b) then NumericComparer(a.n, b.n)
    else if DateTimeInputs(host, a, b) then
      if host.isBefore(a, b) then -1
      else if host.isBefore(b, a) then 1
      else 0
    else 0
  }

  // ---------------------------------------------------------------------
  // Index-level comparers
  // ---------------------------------------------------------------------

  /** The comparer over row positions that `FieldIndexComparer` hands to a
      sort: the column and the reverse flag it closes over, and which value
      comparer it delegates to. */
  datatype IndexComparer =
    | NumericIndexComparer(values: seq<Value>, reverse: bool)
    | StringIndexComparer(values: seq<Value>, reverse: bool)
    | BooleanIndexComparer(values: seq<Value>, reverse: bool)
    | TimeIndexComparer(values: seq<Value>, reverse: bool)
    | NaturalIndexComparer(reverse: bool)
  {
    /** The positions the comparer may be called with: inside the column,
        and, for numbers, holding a number; for strings, holding a string or
        a falsy value (see `StringCell`). The natural comparer never looks a
        position up. */
    predicate Admits(i: int) {
      match this
      case NumericIndexComparer(values, _) => 0 <= i < |values| && values[i].Num?
      case StringIndexComparer(values, _) => 0 <= i < |values| && StringCell(values[i])
      case BooleanIndexComparer(values, _) => 0 <= i < |values|
      case TimeIndexComparer(values, _) => 0 <= i < |values|
      case NaturalIndexComparer(_) => true
    }

    /** Compare rows `a` and `b`, with the operands swapped when reversed. */
    function Compare(host: Host, a: int, b: int): (r: int)
      requires Admits(a) && Admits(b)
      ensures NumericIndexComparer? ==>
                && (r == 0 <==> values[a].n == values[b].n)
                && (r < 0 <==> if reverse then values[b].n < values[a].n else values[a].n < values[b].n)
      ensures StringIndexComparer? && !Truthy(values[a]) && !Truthy(values[b]) ==> r == 0
      ensures StringIndexComparer? && !Truthy(values[a]) && Truthy(values[b]) ==> r == if reverse then -1 else 1
      ensures StringIndexComparer? && Truthy(values[a]) && !Truthy(values[b]) ==> r == if reverse then 1 else -1
      ensures StringIndexComparer? && Truthy(values[a]) && Truthy(values[b]) ==>
                r == if reverse then host.localeCompare(values[b].s, values[a].s)
                     else host.localeCompare(values[a].s, values[b].s)
      ensures BooleanIndexComparer? ==>
                && (r == 0 <==> (Truthy(values[a]) <==> Truthy(values[b])))
                && (r < 0 <==> if reverse then !Truthy(values[a]) && Truthy(values[b])
                               else Truthy(values[a]) && !Truthy(values[b]))
      ensures TimeIndexComparer? ==>
                r == if reverse then TimeComparer(host, values[b], values[a])
                     else TimeComparer(host, values[a], values[b])
      ensures NaturalIndexComparer? ==>
                && (r == 0 <==> a == b)
                && (r < 0 <==> if reverse then b < a else a < b)
    {
      match this
      case NumericIndexComparer(values, reverse) =>
        var vA := values[a].n;
        var vB := values[b].n;
        if reverse then NumericComparer(vB, vA) else NumericComparer(vA, vB)
      case StringIndexComparer(values, reverse) =>
        var vA := values[a];
        var vB := values[b];
        if reverse then StringComparer(host, vB, vA) else StringComparer(host, vA, vB)
      case BooleanIndexComparer(values, reverse) =>
        var vA := values[a];
        var vB := values[b];
        if reverse then BooleanComparer(vB, vA) else BooleanComparer(vA, vB)
      case TimeIndexComparer(values, reverse) =>
        var vA := values[a];
        var vB := values[b];
        if reverse then TimeComparer(host, vB, vA) else TimeComparer(host, vA, vB)
      case NaturalIndexComparer(reverse) =>
        if reverse then NumericComparer(b, a) else NumericComparer(a, b)
    }
  }

  /** Chooses the comparer once, from the column's type tag. */
  function FieldIndexComparer(field: Field, reverse: bool): (c: IndexComparer)
    ensures c.reverse == reverse
    ensures c.NumericIndexComparer? <==> field.fieldType == Number
    ensures c.StringIndexComparer? <==> field.fieldType == String
    ensures c.BooleanIndexComparer? <==> field.fieldType == Boolean
    ensures c.TimeIndexComparer? <==> field.fieldType == Time
    ensures c.NaturalIndexComparer? <==> field.fieldType.OtherType?
    ensures !c.NaturalIndexComparer? ==> c.values == field.values
  {
    var values := field.values;
    match field.fieldType
    case Number => NumericIndexComparer(values, reverse)
    case String => StringIndexComparer(values, reverse)
    case Boolean => BooleanIndexComparer(values, reverse)
    case Time => TimeIndexComparer(values, reverse)
    case OtherType(_) => NaturalIndexComparer(reverse)
  }

  // ---------------------------------------------------------------------
  // Properties of the value-level comparers
  // ---------------------------------------------------------------------

  /** Swapping the operands of the falsy rule negates its result. */
  lemma FalsyComparerAntisymmetric(a: Value, b: Value)
    ensures FalsyComparer(a, b) == -FalsyComparer(b, a)
    ensures FalsyComparer(a, a) == 0
  {
  }

  /** The raw difference is zero on equal operands and negated by a swap. */
  lemma NumericComparerAntisymmetric(a: int, b: int)
    ensures NumericComparer(a, a) == 0
    ensures NumericComparer(a, b) == -NumericComparer(b, a)
  {
  }

  /** The boolean order is a total preorder: "true, then false". */
  lemma BooleanComparerIsPreorder(a: Value, b: Value, c: Value)
    ensures BooleanComparer(a, a) == 0
    ensures BooleanComparer(a, b) == -BooleanComparer(b, a)
    ensures BooleanComparer(a, b) <= 0 && BooleanComparer(b, c) <= 0 ==> BooleanComparer(a, c) <= 0
  {
  }

  /** Under a collation that is a total preorder, so is the string order
      that puts the empty string last. */
  lemma StringComparerIsPreorder(host: Host, a: Value, b: Value, c: Value)
    requires IsCollation(host.localeCompare)
    requires StringCell(a) && StringCell(b) && StringCell(c)
    ensures StringComparer(host, a, a) == 0
    ensures StringComparer(host, a, b) < 0 <==> StringComparer(host, b, a) > 0
    ensures StringComparer(host, a, b) <= 0 && StringComparer(host, b, c) <= 0 ==>
              StringComparer(host, a, c) <= 0
  {
  }

  /** Under a strict "is before", the time order is reflexive and swapping
      the operands flips the sign of the result, on every pair of values. */
  lemma TimeComparerAntisymmetric(host: Host, a: Value, b: Value)
    requires IsStrictOrder(host.isBefore)
    ensures TimeComparer(host, a, a) == 0
    ensures TimeComparer(host, a, b) < 0 <==> TimeComparer(host, b, a) > 0
  {
  }

  /** A cell of a time column that holds a timestamp or nothing. */
  predicate TimestampOrEmpty(v: Value) {
    !Truthy(v) || IsNumber(v)
  }

  /** On timestamps and empty cells the time order is transitive:
      timestamps ascending, empty cells last. */
  lemma TimeComparerTransitiveOnTimestamps(host: Host, a: Value, b: Value, c: Value)
    requires TimestampOrEmpty(a) && TimestampOrEmpty(b) && TimestampOrEmpty(c)
    ensures TimeComparer(host, a, b) <= 0 && TimeComparer(host, b, c) <= 0 ==>
              TimeComparer(host, a, c) <= 0
  {
  }

  /** A timestamp and a truthy value that is not a date-time input compare
      equal to every timestamp, so "equal" is not transitive on a column that
      mixes the two, for any host whose date-time check rejects the object. */
  lemma TimeComparerMixedNotTransitive(host: Host)
    requires !host.isDateTimeInput(Obj(0))
    ensures TimeComparer(host, Num(2), Obj(0)) == 0
    ensures TimeComparer(host, Obj(0), Num(1)) == 0
    ensures TimeComparer(host, Num(2), Num(1)) > 0
  {
  }

  // ---------------------------------------------------------------------
  // Properties of the index-level comparers
  // ---------------------------------------------------------------------

  /** Reversing a comparer is the same as swapping the positions it compares. */
  lemma ReverseSwapsArguments(host: Host, field: Field, i: int, j: int)
    requires FieldIndexComparer(field, false).Admits(i) && FieldIndexComparer(field, false).Admits(j)
    ensures FieldIndexComparer(field, true).Admits(i) && FieldIndexComparer(field, true).Admits(j)
    ensures FieldIndexComparer(field, true).Compare(host, i, j)
              == FieldIndexComparer(field, false).Compare(host, j, i)
  {
  }

  /** The result depends on the column only through the two cells compared. */
  lemma CompareReadsOnlyTwoCells(host: Host, f: Field, g: Field, reverse: bool, i: int, j: int)
    requires f.fieldType == g.fieldType
    requires FieldIndexComparer(f, reverse).Admits(i) && FieldIndexComparer(f, reverse).Admits(j)
    requires 0 <= i < |g.values| && 0 <= j < |g.values|
    requires !f.fieldType.OtherType? ==> g.values[i] == f.values[i] && g.values[j] == f.values[j]
    ensures FieldIndexComparer(g, reverse).Admits(i) && FieldIndexComparer(g, reverse).Admits(j)
    ensures FieldIndexComparer(g, reverse).Compare(host, i, j)
              == FieldIndexComparer(f, reverse).Compare(host, i, j)
  {
  }

  /** A column of any other type is ordered by position alone: its values
      are never read, and the result is `i - j`, or `j - i` when reversed. */
  lemma NaturalIgnoresValues(host: Host, field: Field, reverse: bool, i: int, j: int)
    requires field.fieldType.OtherType?
    ensures FieldIndexComparer(field, reverse).Admits(i) && FieldIndexComparer(field, reverse).Admits(j)
    ensures FieldIndexComparer(field, reverse).Compare(host, i, j) == if reverse then j - i else i - j
  {
  }

  /** The cells of a column on which its comparer is a total preorder: for a
      time column, timestamps and empty cells only. */
  predicate Orderable(c: IndexComparer, i: int) {
    c.Admits(i) && (c.TimeIndexComparer? ==> TimestampOrEmpty(c.values[i]))
  }

  /** Every comparer `FieldIndexComparer` returns is a total preorder on the
      rows it can compare, in either direction. */
  lemma IndexComparerIsPreorder(host: Host, field: Field, reverse: bool, i: int, j: int, k: int)
    requires ValidHost(host)
    requires var c := FieldIndexComparer(field, reverse); Orderable(c, i) && Orderable(c, j) && Orderable(c, k)
    ensures var c := FieldIndexComparer(field, reverse);
              && c.Compare(host, i, i) == 0
              && (c.Compare(host, i, j) < 0 <==> c.Compare(host, j, i) > 0)
              && (c.Compare(host, i, j) <= 0 && c.Compare(host, j, k) <= 0 ==> c.Compare(host, i, k) <= 0)
  {
  }

  /** A number column `[30, 10, 20]`: row 0 sorts after row 1, and before
      it once reversed. */
  lemma NumberColumnExample(host: Host)
    ensures FieldIndexComparer(Field(Number, [Num(30), Num(10), Num(20)]), false).Compare(host, 0, 1) > 0
    ensures FieldIndexComparer(Field(Number, [Num(30), Num(10), Num(20)]), true).Compare(host, 0, 1) < 0
  {
  }
}
