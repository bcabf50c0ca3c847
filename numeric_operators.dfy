/** The filter operators of numeric columns (`getGridNumericOperators`):
    six comparisons that need a numeric filter value, two emptiness tests
    that need none, and a membership test that needs a non-empty list. */
module NumericOperators {
  import opened Wrappers
  import opened JsValues
  import opened GridModels

  datatype NumericOp =
    | Equals | NotEquals | Greater | GreaterOrEqual | Less | LessOrEqual
    | IsEmpty | IsNotEmpty | IsAnyOf

  /** The operator's `value` tag. */
  function Tag(op: NumericOp): string {
    match op
    case Equals => "="
    case NotEquals => "!="
    case Greater => ">"
    case GreaterOrEqual => ">="
    case Less => "<"
    case LessOrEqual => "<="
    case IsEmpty => "isEmpty"
    case IsNotEmpty => "isNotEmpty"
    case IsAnyOf => "isAnyOf"
  }

  /** The six comparisons carry a label equal to their tag; the others none. */
  function Label(op: NumericOp): Option<string> {
    if IsComparison(op) then Some(Tag(op)) else None
  }

  predicate IsComparison(op: NumericOp) {
    op in {Equals, NotEquals, Greater, GreaterOrEqual, Less, LessOrEqual}
  }

  /** The order in which the operators are listed. */
  const NumericOperatorOrder: seq<NumericOp> :=
    [Equals, NotEquals, Greater, GreaterOrEqual, Less, LessOrEqual, IsEmpty, IsNotEmpty, IsAnyOf]

  /** `parseNumericValue`: a missing value stays missing (it is not coerced
      to 0, as `Number(null)` would be); anything else goes through `Number`. */
  function ParseNumericValue(v: JsValue): (r: Option<Number>)
    ensures r.None? <==> IsNullish(v)
    ensures r.Some? ==> r.value == ToNumber(v)
    ensures IsNullish(v) ==> r != Some(Finite(0))
  {
    if IsNullish(v) then None else Some(ToNumber(v))
  }

  /** `parseNumericValue(value) === filterValue`: a missing value is only
      strictly equal to `null`, and a parsed number only to the same finite
      number (NaN equals nothing, a string never equals a number). */
  function ParsedStrictEquals(parsed: Option<Number>, filterValue: JsValue): (b: bool)
    ensures parsed.None? ==> (b <==> filterValue == Null)
    ensures parsed.Some? ==> (b <==> parsed.value.Finite? && filterValue == Num(parsed.value))
    ensures IsNaNNumber(filterValue) ==> !b
  {
    match parsed
    case None => filterValue == Null
    case Some(x) => NumberStrictEquals(x, filterValue)
  }

  /** A usable numeric filter value: neither missing nor NaN. */
  predicate UsableFilterValue(v: JsValue) {
    !IsNullish(v) && !IsNaNNumber(v)
  }

  /** The verdict of a comparison operator on a cell, once its filter value
      has passed the operator's guard. A missing cell satisfies only `!=`;
      `=` needs the filter value to be the cell's finite number itself; the
      four inequalities compare the two numbers after coercion and are false
      as soon as either is NaN. */
  function CompareCell(op: NumericOp, filterValue: JsValue, cell: JsValue): (b: bool)
    requires IsComparison(op) && UsableFilterValue(filterValue)
    ensures IsNullish(cell) ==> (b <==> op == NotEquals)
    ensures var c := ToNumber(cell);
      var equal := !IsNullish(cell) && c.Finite? && filterValue == Num(c);
      && (op == Equals ==> (b <==> equal))
      && (op == NotEquals ==> (b <==> !equal))
    ensures var c, f := ToNumber(cell), ToNumber(filterValue);
      var numeric := !IsNullish(cell) && c.Finite? && f.Finite?;
      && (op == Greater ==> (b <==> numeric && c.n > f.n))
      && (op == GreaterOrEqual ==> (b <==> numeric && c.n >= f.n))
      && (op == Less ==> (b <==> numeric && c.n < f.n))
      && (op == LessOrEqual ==> (b <==> numeric && c.n <= f.n))
  {
    match op
    case Equals => ParsedStrictEquals(ParseNumericValue(cell), filterValue)
    case NotEquals => !ParsedStrictEquals(ParseNumericValue(cell), filterValue)
    case Greater => !IsNullish(cell) && NumberLess(ToNumber(filterValue), ToNumber(cell))
    case GreaterOrEqual => !IsNullish(cell) && NumberLessOrEqual(ToNumber(filterValue), ToNumber(cell))
    case Less => !IsNullish(cell) && NumberLess(ToNumber(cell), ToNumber(filterValue))
    case LessOrEqual => !IsNullish(cell) && NumberLessOrEqual(ToNumber(cell), ToNumber(filterValue))
  }

  /** The operator's `getApplyFilterFn`. The emptiness tests always apply,
      `isAnyOf` needs a non-empty list, and a comparison needs a usable
      filter value; every predicate looks at the cell's value only, and a
      comparison's predicate is its verdict on that value. */
  function GetApplyFilterFn(op: NumericOp, item: FilterItem): (r: Option<FilterPredicate>)
    ensures r.Some? <==> match op
      case IsEmpty => true
      case IsNotEmpty => true
      case IsAnyOf => item.value.Array? && |item.value.items| > 0
      case _ => UsableFilterValue(item.value)
    ensures r.Some? ==> forall p: CellParams, q: CellParams :: p.value == q.value ==> r.value(p) == r.value(q)
    ensures r.Some? && IsComparison(op) ==> forall p: CellParams :: r.value(p) == CompareCell(op, item.value, p.value)
  {
    match op
    case IsEmpty => Some((p: CellParams) => IsNullish(p.value))
    case IsNotEmpty => Some((p: CellParams) => !IsNullish(p.value))
    case IsAnyOf =>
      if !item.value.Array? || |item.value.items| == 0 then None
      else Some((p: CellParams) => !IsNullish(p.value) && Includes(item.value.items, ToNumber(p.value)))
    case _ =>
      if !UsableFilterValue(item.value) then None
      else Some((p: CellParams) => CompareCell(op, item.value, p.value))
  }

  /** `getGridNumericOperators()`: the nine operators, in their fixed order. */
  function GetGridNumericOperators(): (ops: seq<FilterOperator>)
    ensures |ops| == 9
    ensures Tags(ops) == ["=", "!=", ">", ">=", "<", "<=", "isEmpty", "isNotEmpty", "isAnyOf"]
    ensures forall i :: 0 <= i < 6 ==> ops[i].displayLabel == Some(ops[i].value)
    ensures forall i :: 6 <= i < 9 ==> ops[i].displayLabel.None?
    ensures forall i, item :: 0 <= i < 9 ==>
      ops[i].getApplyFilterFn(item) == GetApplyFilterFn(NumericOperatorOrder[i], item)
  {
    seq(|NumericOperatorOrder|, i requires 0 <= i < |NumericOperatorOrder| =>
      var op := NumericOperatorOrder[i];
      FilterOperator(Label(op), Tag(op), (item: FilterItem) => GetApplyFilterFn(op, item)))
  }

  function Tags(ops: seq<FilterOperator>): (tags: seq<string>)
    ensures |tags| == |ops|
    ensures forall i :: 0 <= i < |ops| ==> tags[i] == ops[i].value
  {
    seq(|ops|, i requires 0 <= i < |ops| => ops[i].value)
  }

  // ---------------------------------------------------------------------
  // Properties of the operators

  /** Each comparison is inapplicable exactly when its filter value is
      missing or NaN; the emptiness tests are always applicable. */
  lemma ApplicabilityOfComparisons(op: NumericOp, item: FilterItem)
    ensures IsComparison(op) ==> (GetApplyFilterFn(op, item).Some? <==> UsableFilterValue(item.value))
    ensures op in {IsEmpty, IsNotEmpty} ==> GetApplyFilterFn(op, item).Some?
  {
  }

  /** `=` holds exactly when the cell is present and its number is the
      (finite) filter number; in particular a missing cell never matches. */
  lemma EqualsMeaning(item: FilterItem, p: CellParams)
    requires GetApplyFilterFn(Equals, item).Some?
    ensures GetApplyFilterFn(Equals, item).value(p) <==>
      !IsNullish(p.value) && ToNumber(p.value).Finite? && item.value == Num(ToNumber(p.value))
    ensures IsNullish(p.value) ==> !GetApplyFilterFn(Equals, item).value(p)
  {
  }

  /** `!=` is applicable exactly when `=` is, and then its exact negation. */
  lemma NotEqualsNegatesEquals(item: FilterItem, p: CellParams)
    ensures GetApplyFilterFn(NotEquals, item).Some? <==> GetApplyFilterFn(Equals, item).Some?
    ensures GetApplyFilterFn(Equals, item).Some? ==>
      GetApplyFilterFn(NotEquals, item).value(p) == !GetApplyFilterFn(Equals, item).value(p)
  {
  }

  /** The four inequalities reject a missing cell, and otherwise compare the
      cell's number with the filter value's number (false if either is NaN). */
  lemma InequalityMeaning(op: NumericOp, item: FilterItem, p: CellParams)
    requires op in {Greater, GreaterOrEqual, Less, LessOrEqual}
    requires GetApplyFilterFn(op, item).Some?
    ensures IsNullish(p.value) ==> !GetApplyFilterFn(op, item).value(p)
    ensures var c, f := ToNumber(p.value), ToNumber(item.value);
      !IsNullish(p.value) && c.Finite? && f.Finite? ==>
        GetApplyFilterFn(op, item).value(p) == match op
          case Greater => c.n > f.n
          case GreaterOrEqual => c.n >= f.n
          case Less => c.n < f.n
          case LessOrEqual => c.n <= f.n
    ensures ToNumber(p.value).NaN? || ToNumber(item.value).NaN? ==> !GetApplyFilterFn(op, item).value(p)
  {
  }

  /** For a numeric filter value and a cell holding a number, the operators
      agree with each other: `>=` is `>` or `=`, `<` is not `>=`, `<=` is
      not `>`, and `!=` is `<` or `>`. */
  lemma ComparisonsAreConsistent(n: int, p: CellParams)
    requires p.value.Num? && p.value.num.Finite?
    ensures var item := FilterItem(p.field, None, Num(Finite(n)));
      var ge, gt, eq, lt, le, ne :=
        GetApplyFilterFn(GreaterOrEqual, item).value(p), GetApplyFilterFn(Greater, item).value(p),
        GetApplyFilterFn(Equals, item).value(p), GetApplyFilterFn(Less, item).value(p),
        GetApplyFilterFn(LessOrEqual, item).value(p), GetApplyFilterFn(NotEquals, item).value(p);
      (ge <==> gt || eq) && (lt <==> !ge) && (le <==> !gt) && (ne <==> lt || gt)
  {
  }

  /** `isEmpty` holds exactly for a missing cell and `isNotEmpty` is its
      negation, whatever the filter item. */
  lemma EmptinessOperators(item: FilterItem, p: CellParams)
    ensures GetApplyFilterFn(IsEmpty, item).Some? && GetApplyFilterFn(IsNotEmpty, item).Some?
    ensures GetApplyFilterFn(IsEmpty, item).value(p) <==> IsNullish(p.value)
    ensures GetApplyFilterFn(IsNotEmpty, item).value(p) == !GetApplyFilterFn(IsEmpty, item).value(p)
  {
  }

  /** `isAnyOf` needs a non-empty list; it then holds exactly for a present
      cell whose number is in the list (with `includes`, NaN finds NaN). */
  lemma IsAnyOfMeaning(item: FilterItem, p: CellParams)
    ensures GetApplyFilterFn(IsAnyOf, item).Some? <==> item.value.Array? && |item.value.items| > 0
    ensures GetApplyFilterFn(IsAnyOf, item).Some? ==>
      (GetApplyFilterFn(IsAnyOf, item).value(p) <==>
        !IsNullish(p.value) &&
        exists i :: 0 <= i < |item.value.items| && item.value.items[i] == Num(ToNumber(p.value)))
  {
  }

  /** A one-element `isAnyOf` list holding a finite number selects the same
      cells as `=` with that number. */
  lemma IsAnyOfSingletonIsEquals(n: int, p: CellParams)
    ensures var eq := GetApplyFilterFn(Equals, FilterItem(p.field, None, Num(Finite(n))));
      var any := GetApplyFilterFn(IsAnyOf, FilterItem(p.field, None, Array([Num(Finite(n))])));
      eq.Some? && any.Some? && (eq.value(p) <==> any.value(p))
  {
    var items := [Num(Finite(n))];
    if !IsNullish(p.value) && Includes(items, ToNumber(p.value)) {
      var i :| 0 <= i < |items| && SameValueZero(items[i], ToNumber(p.value));
      assert i == 0;
    }
    if !IsNullish(p.value) && ToNumber(p.value) == Finite(n) {
      assert SameValueZero(items[0], ToNumber(p.value));
    }
  }

  /** Unlike `=`, which is inapplicable to NaN, `isAnyOf` with `[NaN]`
      selects the cells whose text is not a number. */
  lemma IsAnyOfFindsNaN(p: CellParams)
    requires p.value == Str("abc")
    ensures GetApplyFilterFn(Equals, FilterItem(p.field, None, Num(NaN))).None?
    ensures GetApplyFilterFn(IsAnyOf, FilterItem(p.field, None, Array([Num(NaN)]))).value(p)
  {
    assert !IsDigit(p.value.s[0]);
    assert SameValueZero([Num(NaN)][0], ToNumber(p.value));
  }

  /** A missing cell against a filter value of 5: `=` fails and `!=` holds. */
  lemma NullCellAgainstFive(p: CellParams)
    requires p.value == Null
    ensures !GetApplyFilterFn(Equals, FilterItem(p.field, None, Num(Finite(5)))).value(p)
    ensures GetApplyFilterFn(NotEquals, FilterItem(p.field, None, Num(Finite(5)))).value(p)
  {
  }
}
