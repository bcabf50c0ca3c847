/** The grid-engine data the grouping column and the filter operators are
    written against: row nodes, cell parameters, filter items and
    operators, column definitions and the JavaScript object that a
    synthesized column definition is. */
module GridModels {
  import opened Wrappers
  import opened JsValues

  type RowId = JsValue

  /** `rowNode.groupingField`: the grouping criteria a group row belongs to,
      or nothing for a leaf row. Null and undefined are kept apart because
      the grid compares them both loosely (`== null`) and strictly
      (`=== null`). */
  datatype GroupingField = NullField | UndefinedField | Named(name: string)

  /** `groupingField == null`: the row is a leaf. */
  predicate IsLeafField(g: GroupingField) {
    g.NullField? || g.UndefinedField?
  }

  datatype RowNode = RowNode(groupingField: GroupingField, groupingKey: JsValue)

  /** What a cell callback can ask of the grid through `params.api`: the
      sanitized row-grouping model in the current state, and the value of
      any cell. */
  datatype GridApi = GridApi(groupingModel: seq<string>, cellValue: (RowId, string) -> JsValue)

  /** The parameters of `renderCell`, of a filter predicate and of a sort
      comparator. */
  datatype CellParams = CellParams(id: RowId, field: string, value: JsValue, rowNode: RowNode, api: GridApi)

  /** The parameters of `valueGetter`, whose row node may be missing. */
  datatype ValueGetterParams = ValueGetterParams(id: RowId, field: string, rowNode: Option<RowNode>, api: GridApi)

  /** What `renderCell` returns: markup from a column's own renderer, the
      default leaf cell, the group cell (with its descendant-count flag),
      or the empty string. */
  datatype CellContent =
    | Markup(node: string)
    | LeafCell(leafParams: CellParams)
    | GroupingCriteriaCell(groupParams: CellParams, hideDescendantCount: Option<bool>)
    | EmptyString

  /** `GridComparatorFn`: `(v1, v2, cellParams1, cellParams2) => number`. */
  type Comparator = (JsValue, JsValue, CellParams, CellParams) -> int

  type FilterPredicate = CellParams -> bool

  datatype FilterItem = FilterItem(columnField: string, operatorValue: Option<string>, value: JsValue)

  /** `GridFilterOperator`: a tag, an optional label, and a factory that
      gives no predicate (`null`) when the filter item is inapplicable. */
  datatype FilterOperator = FilterOperator(
    displayLabel: Option<string>,
    value: string,
    getApplyFilterFn: FilterItem -> Option<FilterPredicate>)

  /** A column definition as found in the columns lookup. The lookup holds
      hydrated columns, which always carry a sort comparator (the one of
      their column type). */
  datatype ColDef = ColDef(
    field: string,
    headerName: Option<string>,
    width: Option<int>,
    sortable: Option<bool>,
    filterable: Option<bool>,
    renderCell: Option<CellParams -> CellContent>,
    sortComparator: Comparator,
    filterOperators: Option<seq<FilterOperator>>)

  /** The property names of a column definition object. */
  datatype Key =
    | Field | Type | HeaderName | Width | Sortable | Filterable | Editable | Groupable
    | DisableReorder | RenderCell | ValueGetter | SortComparator | FilterOperators
    | OtherKey(name: string)

  datatype PropValue =
    | Value(v: JsValue)
    | RenderCellFn(render: CellParams -> CellContent)
    | ValueGetterFn(get: ValueGetterParams -> JsValue)
    | ComparatorFn(compare: Comparator)
    | OperatorList(operators: seq<FilterOperator>)

  /** A column definition object: its own properties and their values. An
      object spread `{...a, ...b}` is the map union `a + b`. */
  type Props = map<Key, PropValue>

  /** An optional boolean property read off a column, as a JavaScript value. */
  function OptionalBool(b: Option<bool>): (r: JsValue)
    ensures r.Undefined? <==> b.None?
    ensures b.Some? ==> r == Bool(b.value)
  {
    match b
    case None => Undefined
    case Some(x) => Bool(x)
  }
}
