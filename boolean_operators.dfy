/** The filter operators of boolean columns (`getGridBooleanOperators`):
    a single `is` operator comparing the cell's truthiness with the filter
    value read as a boolean. */
module BooleanOperators {
  import opened Wrappers
  import opened JsValues
  import opened GridModels

  /** The filter value as a boolean: only the string "true" is true, so the
      read value is always truthy when true, and neither the boolean `true`
      nor the number 1 counts as true. */
  function FilterValueAsBoolean(v: JsValue): (b: bool)
    ensures b <==> v.Str? && v.s == "true"
    ensures b ==> Truthy(v)
    ensures v == Bool(true) || v == Num(Finite(1)) ==> !b
  {
    v == Str("true")
  }

  /** The `getApplyFilterFn` of `is`: no predicate for a falsy filter value;
      otherwise a predicate on the cell's value alone, keeping the cells
      whose truthiness is the filter value read as a boolean. */
  function GetApplyIsFilterFn(item: FilterItem): (r: Option<FilterPredicate>)
    ensures r.None? <==> !Truthy(item.value)
    ensures r.Some? ==> forall p: CellParams :: r.value(p) <==> (Truthy(p.value) <==> FilterValueAsBoolean(item.value))
    ensures r.Some? ==> forall p: CellParams, q: CellParams :: Truthy(p.value) == Truthy(q.value) ==> r.value(p) == r.value(q)
  {
    if !Truthy(item.value) then None
    else
      var valueAsBoolean := FilterValueAsBoolean(item.value);
      Some((p: CellParams) => Truthy(p.value) == valueAsBoolean)
  }

  /** `getGridBooleanOperators()`: one operator, `is`, with no label. */
  function GetGridBooleanOperators(): (ops: seq<FilterOperator>)
    ensures |ops| == 1
    ensures ops[0].value == "is" && ops[0].displayLabel.None?
    ensures forall item :: ops[0].getApplyFilterFn(item) == GetApplyIsFilterFn(item)
  {
    [FilterOperator(None, "is", (item: FilterItem) => GetApplyIsFilterFn(item))]
  }

  /** A falsy filter value (missing, false, 0, NaN or "") leaves the
      operator inapplicable; any truthy one gives a predicate. */
  lemma IsApplicability(item: FilterItem)
    ensures GetApplyIsFilterFn(item).None? <==> !Truthy(item.value)
    ensures item.value in {Null, Undefined, Str("")} ==> GetApplyIsFilterFn(item).None?
  {
  }

  /** The predicate keeps the rows whose cell is truthy when the filter
      value is "true", and those whose cell is falsy for any other truthy
      filter value ("false", but also "yes" or 1). */
  lemma IsMeaning(item: FilterItem, p: CellParams)
    requires Truthy(item.value)
    ensures GetApplyIsFilterFn(item).Some?
    ensures GetApplyIsFilterFn(item).value(p) <==> (Truthy(p.value) <==> item.value == Str("true"))
  {
  }

  /** The predicates for "true" and "false" are complementary on every cell. */
  lemma TrueAndFalseAreComplementary(field: string, p: CellParams)
    ensures var t := GetApplyIsFilterFn(FilterItem(field, None, Str("true")));
      var f := GetApplyIsFilterFn(FilterItem(field, None, Str("false")));
      t.Some? && f.Some? && t.value(p) == !f.value(p)
  {
  }

  /** Filter value "true" keeps a cell holding 1, since `Boolean(1)` is true. */
  lemma TrueKeepsOne(field: string, p: CellParams)
    requires p.value == Num(Finite(1))
    ensures GetApplyIsFilterFn(FilterItem(field, None, Str("true"))).value(p)
  {
  }
}
