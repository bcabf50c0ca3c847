/** The grouping columns of the row-grouping feature: one column per
    grouping criteria, or a single column for all of them. Each is a
    column definition object assembled from five layers (defaults, common
    properties, the source column's sort and filter rules, the user's
    override, and the forced identity properties); its hooks dispatch per
    row between leaves, groups of the column's criteria and other groups. */
module GroupingColDef {
  import opened Wrappers
  import opened JsValues
  import opened GridModels

  /** Values the synthesizers read from other parts of the grid: the string
      column type (`GRID_STRING_COL_DEF` and its width), the field name of a
      per-criteria grouping column, and the field name of the single
      grouping column. */
  datatype GridConstants = GridConstants(
    stringColDef: Props,
    stringColWidth: int,
    groupingFieldOf: string -> string,
    singleGroupingField: string)

  const GroupingColumnType: string := "rowGroupByColumnsGroup"

  /** `GridGroupingColDefOverride`: three directives and the column
      properties to override. */
  datatype GroupingColDefOverride = GroupingColDefOverride(
    leafField: Option<string>,
    mainGroupingCriteria: Option<string>,
    hideDescendantCount: Option<bool>,
    properties: Props)

  /** The column that renders and supplies the leaves, with the field it
      was looked up by. */
  datatype LeafColumn = LeafColumn(field: string, colDef: ColDef)

  /** A string option used as a condition (`if (s)`): present and non-empty. */
  predicate IsSet(s: Option<string>) {
    s.Some? && s.value != ""
  }

  /** `colDefOverride ?? {}`. */
  function OverrideOrEmpty(colDefOverride: Option<GroupingColDefOverride>): GroupingColDefOverride {
    match colDefOverride
    case None => GroupingColDefOverride(None, None, None, map[])
    case Some(o) => o
  }

  /** `leafField ? columnsLookup[leafField] : null`: a leaf column exists only
      for a non-empty leaf field that names a column of the lookup. */
  function ResolveLeaf(columnsLookup: map<string, ColDef>, leafField: Option<string>): (r: Option<LeafColumn>)
    ensures r.Some? <==> IsSet(leafField) && leafField.value in columnsLookup
    ensures r.Some? ==> r.value.field == leafField.value && r.value.colDef == columnsLookup[leafField.value]
  {
    if IsSet(leafField) && leafField.value in columnsLookup
    then Some(LeafColumn(leafField.value, columnsLookup[leafField.value]))
    else None
  }

  // ---------------------------------------------------------------------
  // The cross-criteria comparator

  /** `model.indexOf(f)`: the first position of `f`, or -1. */
  function IndexOf(model: seq<string>, f: string): (r: int)
    ensures -1 <= r < |model|
    ensures r == -1 <==> f !in model
    ensures 0 <= r ==> model[r] == f && forall j :: 0 <= j < r ==> model[j] != f
  {
    if |model| == 0 then -1
    else if model[0] == f then 0
    else
      var i := IndexOf(model[1..], f);
      if i == -1 then -1 else i + 1
  }

  /** `groupingFieldIndexComparator`, on the grouping fields of the two rows
      and the grouping model in the grid state: rows of the same kind are
      equal, leaves come first, and groups are ordered by the position of
      their criteria in the model. */
  function GroupingFieldIndexComparator(model: seq<string>, g1: GroupingField, g2: GroupingField): (r: int)
    ensures -1 <= r <= 1
    ensures r == 0 <==> g1 == g2
  {
    if g1 == g2 then 0
    else if IsLeafField(g1) then -1
    else if IsLeafField(g2) then 1
    else if IndexOf(model, g1.name) < IndexOf(model, g2.name) then -1
    else 1
  }

  /** The index comparator as the grid calls it, reading the model from the
      state the first cell's `api` sees: -1, 0 or 1, 0 exactly for rows with
      the same grouping field, and a leaf row before any group row. */
  function IndexComparator(p1: CellParams, p2: CellParams): (r: int)
    ensures -1 <= r <= 1
    ensures r == 0 <==> p1.rowNode.groupingField == p2.rowNode.groupingField
    ensures IsLeafField(p1.rowNode.groupingField) && p2.rowNode.groupingField.Named? ==> r == -1
    ensures p1.rowNode.groupingField.Named? && IsLeafField(p2.rowNode.groupingField) ==> r == 1
  {
    GroupingFieldIndexComparator(p1.api.groupingModel, p1.rowNode.groupingField, p2.rowNode.groupingField)
  }

  /** The depth a row sorts at: leaves first, then the groups of each
      criteria in model order. */
  function Rank(model: seq<string>, g: GroupingField): int {
    if IsLeafField(g) then -1 else IndexOf(model, g.name)
  }

  /** A grouping field as the row tree produces it: leaves carry `null`, and
      groups belong to a criteria of the model. */
  predicate WellFormedField(model: seq<string>, g: GroupingField) {
    !g.UndefinedField? && (g.Named? ==> g.name in model)
  }

  function Sign(x: int): int {
    if x < 0 then -1 else if x == 0 then 0 else 1
  }

  /** On well-formed rows the index comparator is the comparison of ranks. */
  lemma IndexComparatorIsRankOrder(model: seq<string>, g1: GroupingField, g2: GroupingField)
    requires WellFormedField(model, g1) && WellFormedField(model, g2)
    ensures GroupingFieldIndexComparator(model, g1, g2) == Sign(Rank(model, g1) - Rank(model, g2))
  {
    if g1.Named? && g2.Named? && g1 != g2 {
      var i1, i2 := IndexOf(model, g1.name), IndexOf(model, g2.name);
      assert model[i1] == g1.name && model[i2] == g2.name;
    }
  }

  /** Leaves sort before every group, in either argument order. */
  lemma LeavesBeforeGroups(model: seq<string>, g1: GroupingField, g2: GroupingField)
    requires IsLeafField(g1) && g2.Named?
    ensures GroupingFieldIndexComparator(model, g1, g2) == -1
    ensures GroupingFieldIndexComparator(model, g2, g1) == 1
  {
  }

  /** Two groups of distinct criteria are ordered by their criteria's first
      position in the model. */
  lemma GroupsInModelOrder(model: seq<string>, f1: string, f2: string)
    requires f1 != f2
    ensures GroupingFieldIndexComparator(model, Named(f1), Named(f2)) == -1 <==> IndexOf(model, f1) < IndexOf(model, f2)
    ensures GroupingFieldIndexComparator(model, Named(f1), Named(f2)) == 1 <==> IndexOf(model, f1) >= IndexOf(model, f2)
  {
  }

  /** On well-formed rows the index comparator is antisymmetric. */
  lemma IndexComparatorAntisymmetric(model: seq<string>, g1: GroupingField, g2: GroupingField)
    requires WellFormedField(model, g1) && WellFormedField(model, g2)
    ensures GroupingFieldIndexComparator(model, g1, g2) == -GroupingFieldIndexComparator(model, g2, g1)
  {
    IndexComparatorIsRankOrder(model, g1, g2);
    IndexComparatorIsRankOrder(model, g2, g1);
  }

  /** On well-formed rows the index comparator is transitive. */
  lemma IndexComparatorTransitive(model: seq<string>, g1: GroupingField, g2: GroupingField, g3: GroupingField)
    requires WellFormedField(model, g1) && WellFormedField(model, g2) && WellFormedField(model, g3)
    requires GroupingFieldIndexComparator(model, g1, g2) <= 0 && GroupingFieldIndexComparator(model, g2, g3) <= 0
    ensures GroupingFieldIndexComparator(model, g1, g3) <= 0
  {
    IndexComparatorIsRankOrder(model, g1, g2);
    IndexComparatorIsRankOrder(model, g2, g3);
    IndexComparatorIsRankOrder(model, g1, g3);
  }

  /** Outside well-formed rows the comparator is not antisymmetric: a leaf
      whose grouping field is `null` and one whose field is `undefined` are
      each less than the other, and so are two groups whose criteria are
      both missing from the model. */
  lemma IndexComparatorOutsideWellFormedRows(model: seq<string>, f1: string, f2: string)
    requires f1 != f2 && f1 !in model && f2 !in model
    ensures GroupingFieldIndexComparator(model, NullField, UndefinedField) == -1
    ensures GroupingFieldIndexComparator(model, UndefinedField, NullField) == -1
    ensures GroupingFieldIndexComparator(model, Named(f1), Named(f2)) == 1
    ensures GroupingFieldIndexComparator(model, Named(f2), Named(f1)) == 1
  {
  }

  // ---------------------------------------------------------------------
  // Sort comparators confined to the rows a source column owns

  /** The `sortComparator` of `getLeafProperties`: the leaf column orders
      two leaves (both grouping fields strictly `null`), and the index
      comparator orders every other pair, so a leaf sorts before any group. */
  function LeafSortComparator(leaf: ColDef): Comparator {
    (v1: JsValue, v2: JsValue, p1: CellParams, p2: CellParams) =>
      if p1.rowNode.groupingField == NullField && p2.rowNode.groupingField == NullField
      then leaf.sortComparator(v1, v2, p1, p2)
      else IndexComparator(p1, p2)
  }

  /** The `sortComparator` of `getGroupingCriteriaProperties`: the grouped-by
      column orders two groups of its own criteria, and the index
      comparator every other pair, so a leaf sorts before any group and
      the values of rows outside those groups play no part. */
  function CriteriaSortComparator(groupedBy: ColDef): Comparator {
    (v1: JsValue, v2: JsValue, p1: CellParams, p2: CellParams) =>
      if p1.rowNode.groupingField == Named(groupedBy.field) && p2.rowNode.groupingField == Named(groupedBy.field)
      then groupedBy.sortComparator(v1, v2, p1, p2)
      else IndexComparator(p1, p2)
  }

  /** The leaf column's comparator decides exactly the pairs of two `null`
      leaves; every other pair is decided by the index comparator alone,
      whatever the leaf comparator and the cell values. */
  lemma LeafSortScope(leaf: ColDef, other: ColDef, v1: JsValue, v2: JsValue, w1: JsValue, w2: JsValue, p1: CellParams, p2: CellParams)
    ensures p1.rowNode.groupingField == NullField && p2.rowNode.groupingField == NullField ==>
      LeafSortComparator(leaf)(v1, v2, p1, p2) == leaf.sortComparator(v1, v2, p1, p2)
    ensures !(p1.rowNode.groupingField == NullField && p2.rowNode.groupingField == NullField) ==>
      LeafSortComparator(leaf)(v1, v2, p1, p2) == IndexComparator(p1, p2) == LeafSortComparator(other)(w1, w2, p1, p2)
  {
  }

  /** A leaf sorts before a group under the leaf comparator, whatever the
      leaf column's own comparator says. */
  lemma LeafSortPutsLeafFirst(leaf: ColDef, v1: JsValue, v2: JsValue, p1: CellParams, p2: CellParams)
    requires IsLeafField(p1.rowNode.groupingField) && p2.rowNode.groupingField.Named?
    ensures LeafSortComparator(leaf)(v1, v2, p1, p2) == -1
    ensures LeafSortComparator(leaf)(v2, v1, p2, p1) == 1
  {
    LeavesBeforeGroups(p1.api.groupingModel, p1.rowNode.groupingField, p2.rowNode.groupingField);
    assert IndexComparator(p1, p2) == -1;
    LeavesBeforeGroups(p2.api.groupingModel, p1.rowNode.groupingField, p2.rowNode.groupingField);
    assert IndexComparator(p2, p1) == 1;
    LeafSortScope(leaf, leaf, v1, v2, v2, v1, p1, p2);
    LeafSortScope(leaf, leaf, v2, v1, v1, v2, p2, p1);
  }

  /** A leaf sorts before a group under the criteria comparator too, whatever
      the grouped-by column's own comparator says. */
  lemma CriteriaSortPutsLeafFirst(groupedBy: ColDef, v1: JsValue, v2: JsValue, p1: CellParams, p2: CellParams)
    requires IsLeafField(p1.rowNode.groupingField) && p2.rowNode.groupingField.Named?
    ensures CriteriaSortComparator(groupedBy)(v1, v2, p1, p2) == -1
    ensures CriteriaSortComparator(groupedBy)(v2, v1, p2, p1) == 1
  {
    assert IndexComparator(p1, p2) == -1 && IndexComparator(p2, p1) == 1;
  }

  /** The grouped-by column's comparator decides exactly the pairs of two
      groups of its criteria; every other pair goes to the index comparator,
      whatever the grouped-by column's own comparator and the cell values. */
  lemma CriteriaSortScope(groupedBy: ColDef, other: ColDef, v1: JsValue, v2: JsValue, w1: JsValue, w2: JsValue, p1: CellParams, p2: CellParams)
    requires other.field == groupedBy.field
    ensures var own := Named(groupedBy.field);
      p1.rowNode.groupingField == own && p2.rowNode.groupingField == own ==>
        CriteriaSortComparator(groupedBy)(v1, v2, p1, p2) == groupedBy.sortComparator(v1, v2, p1, p2)
    ensures var own := Named(groupedBy.field);
      !(p1.rowNode.groupingField == own && p2.rowNode.groupingField == own) ==>
        CriteriaSortComparator(groupedBy)(v1, v2, p1, p2) == IndexComparator(p1, p2) == CriteriaSortComparator(other)(w1, w2, p1, p2)
  {
  }

  // ---------------------------------------------------------------------
  // Filter operators confined to the rows a source column owns

  /** An operator of the leaf column whose predicate lets every group row
      through (`getLeafProperties`). */
  function LeafScopedOperator(op: FilterOperator): (w: FilterOperator)
    ensures w.value == op.value && w.displayLabel == op.displayLabel
  {
    op.(getApplyFilterFn := (item: FilterItem) =>
      match op.getApplyFilterFn(item)
      case None => None
      case Some(original) =>
        Some((p: CellParams) => if !IsLeafField(p.rowNode.groupingField) then true else original(p)))
  }

  /** An operator of the grouped-by column whose predicate lets every row
      through that is not a group of that column's criteria
      (`getGroupingCriteriaProperties`). */
  function CriteriaScopedOperator(field: string, op: FilterOperator): (w: FilterOperator)
    ensures w.value == op.value && w.displayLabel == op.displayLabel
  {
    op.(getApplyFilterFn := (item: FilterItem) =>
      match op.getApplyFilterFn(item)
      case None => None
      case Some(original) =>
        Some((p: CellParams) => if p.rowNode.groupingField != Named(field) then true else original(p)))
  }

  /** The leaf-scoped filter is inapplicable exactly when the original is;
      it keeps every group row, and on leaves it is the original. The rows
      it hides are exactly the leaves the original hides. */
  lemma LeafScopedFilter(op: FilterOperator, item: FilterItem, p: CellParams)
    ensures LeafScopedOperator(op).getApplyFilterFn(item).None? <==> op.getApplyFilterFn(item).None?
    ensures op.getApplyFilterFn(item).Some? ==>
      var scoped, original := LeafScopedOperator(op).getApplyFilterFn(item).value, op.getApplyFilterFn(item).value;
      && (!IsLeafField(p.rowNode.groupingField) ==> scoped(p))
      && (IsLeafField(p.rowNode.groupingField) ==> scoped(p) == original(p))
      && (!scoped(p) <==> IsLeafField(p.rowNode.groupingField) && !original(p))
  {
  }

  /** The criteria-scoped filter is inapplicable exactly when the original
      is; it keeps every row that is not a group of the criteria, and on
      those groups it is the original. */
  lemma CriteriaScopedFilter(field: string, op: FilterOperator, item: FilterItem, p: CellParams)
    ensures CriteriaScopedOperator(field, op).getApplyFilterFn(item).None? <==> op.getApplyFilterFn(item).None?
    ensures op.getApplyFilterFn(item).Some? ==>
      var scoped, original := CriteriaScopedOperator(field, op).getApplyFilterFn(item).value, op.getApplyFilterFn(item).value;
      && (p.rowNode.groupingField != Named(field) ==> scoped(p))
      && (p.rowNode.groupingField == Named(field) ==> scoped(p) == original(p))
      && (!scoped(p) <==> p.rowNode.groupingField == Named(field) && !original(p))
  {
  }

  /** `leafColDef.filterOperators?.map(...)`, keeping the operators' order and tags. */
  function LeafScopedOperators(ops: seq<FilterOperator>): (r: seq<FilterOperator>)
    ensures |r| == |ops|
    ensures forall i :: 0 <= i < |ops| ==> r[i] == LeafScopedOperator(ops[i]) && r[i].value == ops[i].value
  {
    seq(|ops|, i requires 0 <= i < |ops| => LeafScopedOperator(ops[i]))
  }

  /** `groupedByColDef.filterOperators?.map(...)`, keeping the operators' order and tags. */
  function CriteriaScopedOperators(field: string, ops: seq<FilterOperator>): (r: seq<FilterOperator>)
    ensures |r| == |ops|
    ensures forall i :: 0 <= i < |ops| ==> r[i] == CriteriaScopedOperator(field, ops[i]) && r[i].value == ops[i].value
  {
    seq(|ops|, i requires 0 <= i < |ops| => CriteriaScopedOperator(field, ops[i]))
  }

  // ---------------------------------------------------------------------
  // Source properties: the sort and filter rules a grouping column adopts

  /** `colDef.headerName ?? colDef.field`: the field stands in only for a
      missing header name, not for an empty one. */
  function HeaderNameOf(colDef: ColDef): (h: string)
    ensures colDef.headerName.Some? ==> h == colDef.headerName.value
    ensures colDef.headerName.None? ==> h == colDef.field
  {
    match colDef.headerName
    case Some(h) => h
    case None => colDef.field
  }

  /** `getLeafProperties`: the leaf column's header, flags and its
      operators confined to the leaves, and the leaf-scoped comparator. */
  function LeafProperties(leaf: ColDef): (r: Props)
    ensures r.Keys == {HeaderName, Sortable, Filterable, FilterOperators, SortComparator}
    ensures r[HeaderName] == Value(Str(HeaderNameOf(leaf)))
    ensures r[Sortable] == Value(OptionalBool(leaf.sortable)) && r[Filterable] == Value(OptionalBool(leaf.filterable))
    ensures leaf.filterOperators.None? ==> r[FilterOperators] == Value(Undefined)
    ensures leaf.filterOperators.Some? ==> r[FilterOperators] == OperatorList(LeafScopedOperators(leaf.filterOperators.value))
    ensures r[SortComparator] == ComparatorFn(LeafSortComparator(leaf))
  {
    map[
      HeaderName := Value(Str(HeaderNameOf(leaf))),
      Sortable := Value(OptionalBool(leaf.sortable)),
      Filterable := Value(OptionalBool(leaf.filterable)),
      FilterOperators := (match leaf.filterOperators
        case None => Value(Undefined)
        case Some(ops) => OperatorList(LeafScopedOperators(ops))),
      SortComparator := ComparatorFn(LeafSortComparator(leaf))]
  }

  /** `getGroupingCriteriaProperties`: the grouped-by column's flags, its
      operators confined to the groups of its criteria and the
      criteria-scoped comparator; the header name is set only when asked for. */
  function GroupingCriteriaProperties(groupedBy: ColDef, applyHeaderName: bool): (r: Props)
    ensures r.Keys == {Sortable, Filterable, FilterOperators, SortComparator} + (if applyHeaderName then {HeaderName} else {})
    ensures applyHeaderName ==> r[HeaderName] == Value(Str(HeaderNameOf(groupedBy)))
    ensures r[Sortable] == Value(OptionalBool(groupedBy.sortable)) && r[Filterable] == Value(OptionalBool(groupedBy.filterable))
    ensures groupedBy.filterOperators.None? ==> r[FilterOperators] == Value(Undefined)
    ensures groupedBy.filterOperators.Some? ==>
      r[FilterOperators] == OperatorList(CriteriaScopedOperators(groupedBy.field, groupedBy.filterOperators.value))
    ensures r[SortComparator] == ComparatorFn(CriteriaSortComparator(groupedBy))
  {
    var properties := map[
      Sortable := Value(OptionalBool(groupedBy.sortable)),
      Filterable := Value(OptionalBool(groupedBy.filterable)),
      SortComparator := ComparatorFn(CriteriaSortComparator(groupedBy)),
      FilterOperators := (match groupedBy.filterOperators
        case None => Value(Undefined)
        case Some(ops) => OperatorList(CriteriaScopedOperators(groupedBy.field, ops)))];
    if applyHeaderName then properties[HeaderName := Value(Str(HeaderNameOf(groupedBy)))] else properties
  }

  /** Which column's sort and filter rules a grouping column adopts: the
      groups of a grouped-by column (with or without its header name), or
      the leaves of the leaf column. */
  datatype Source = GroupsOf(colDef: ColDef, applyHeaderName: bool) | Leaves(leaf: ColDef)

  /** The source layer: the sort and filter rules always, the header name
      of a leaf column always and of a grouped-by column only when asked;
      the comparator is scoped to the rows the source owns. */
  function SourceProperties(s: Source): (r: Props)
    ensures r.Keys == {Sortable, Filterable, FilterOperators, SortComparator} + (if s.Leaves? || s.applyHeaderName then {HeaderName} else {})
    ensures s.Leaves? ==> r[SortComparator] == ComparatorFn(LeafSortComparator(s.leaf))
    ensures s.GroupsOf? ==> r[SortComparator] == ComparatorFn(CriteriaSortComparator(s.colDef))
  {
    match s
    case GroupsOf(c, applyHeaderName) => GroupingCriteriaProperties(c, applyHeaderName)
    case Leaves(leaf) => LeafProperties(leaf)
  }

  /** The column a source takes its rules from. */
  function SourceColumn(s: Source): ColDef {
    match s
    case GroupsOf(c, _) => c
    case Leaves(leaf) => leaf
  }

  /** The source layer copies the header name, when it sets one, and the
      `sortable` and `filterable` flags of its column, `undefined` included. */
  lemma SourcePropertiesCopied(s: Source)
    ensures var r, c := SourceProperties(s), SourceColumn(s);
      && r[Sortable] == Value(OptionalBool(c.sortable))
      && r[Filterable] == Value(OptionalBool(c.filterable))
      && (HeaderName in r ==> r[HeaderName] == Value(Str(HeaderNameOf(c))))
  {
  }

  /** The source of a single-criteria column: the grouped-by column when
      `mainGroupingCriteria` names this criteria, else the leaf column when
      there is one, else the grouped-by column again. */
  function OneCriteriaSource(mainGroupingCriteria: Option<string>, groupingCriteria: string, groupedBy: ColDef, leaf: Option<LeafColumn>): (s: Source)
    ensures s.Leaves? <==> leaf.Some? && !(IsSet(mainGroupingCriteria) && mainGroupingCriteria.value == groupingCriteria)
    ensures s.Leaves? ==> s.leaf == leaf.value.colDef
    ensures s.GroupsOf? ==> s == GroupsOf(groupedBy, true)
  {
    if IsSet(mainGroupingCriteria) && mainGroupingCriteria.value == groupingCriteria then GroupsOf(groupedBy, true)
    else if leaf.Some? then Leaves(leaf.value.colDef)
    else GroupsOf(groupedBy, true)
  }

  /** The source of the all-criteria column: the column of
      `mainGroupingCriteria` when it is in the model, else the leaf column
      when there is one, else the first criteria of the model, whose header
      name is used only when it is the model's only criteria. */
  function AllCriteriaSource(columnsLookup: map<string, ColDef>, rowGroupingModel: seq<string>, mainGroupingCriteria: Option<string>, leaf: Option<LeafColumn>): (s: Source)
    requires forall f :: f in rowGroupingModel ==> f in columnsLookup
    requires |rowGroupingModel| > 0 || leaf.Some?
    ensures IsSet(mainGroupingCriteria) && mainGroupingCriteria.value in rowGroupingModel ==>
      s == GroupsOf(columnsLookup[mainGroupingCriteria.value], true)
    ensures s.Leaves? <==> leaf.Some? && !(IsSet(mainGroupingCriteria) && mainGroupingCriteria.value in rowGroupingModel)
    ensures s.Leaves? ==> s.leaf == leaf.value.colDef
    ensures !(IsSet(mainGroupingCriteria) && mainGroupingCriteria.value in rowGroupingModel) && leaf.None? ==>
      s == GroupsOf(columnsLookup[rowGroupingModel[0]], |rowGroupingModel| == 1)
  {
    if IsSet(mainGroupingCriteria) && mainGroupingCriteria.value in rowGroupingModel then
      GroupsOf(columnsLookup[mainGroupingCriteria.value], true)
    else if leaf.Some? then Leaves(leaf.value.colDef)
    else GroupsOf(columnsLookup[rowGroupingModel[0]], |rowGroupingModel| == 1)
  }

  // ---------------------------------------------------------------------
  // Per-row dispatch of renderCell and valueGetter

  /** The kind of a row as seen by a grouping column of one criteria. */
  datatype RowKind = LeafRow | CriteriaGroupRow | OtherGroupRow

  function ClassifyRow(g: GroupingField, groupingCriteria: string): (k: RowKind)
    ensures k == LeafRow <==> IsLeafField(g)
    ensures k == CriteriaGroupRow <==> g == Named(groupingCriteria)
  {
    if IsLeafField(g) then LeafRow
    else if g == Named(groupingCriteria) then CriteriaGroupRow
    else OtherGroupRow
  }

  /** `{...api.getCellParams(id, leafField), api}`: the parameters of the
      row's cell in the leaf column. */
  function LeafCellParams(p: CellParams, leafField: string): (lp: CellParams)
    ensures lp.id == p.id && lp.rowNode == p.rowNode && lp.api == p.api
    ensures lp.field == leafField && lp.value == p.api.cellValue(p.id, leafField)
  {
    p.(field := leafField, value := p.api.cellValue(p.id, leafField))
  }

  /** How a leaf row is rendered: by the leaf column's renderer if it has
      one, else by the default leaf cell, and as the empty string without
      a leaf column. The leaf renderer sees the row's cell of the leaf column. */
  function RenderLeaf(leaf: Option<LeafColumn>, p: CellParams): (c: CellContent)
    ensures leaf.None? ==> c == EmptyString
    ensures leaf.Some? && leaf.value.colDef.renderCell.Some? ==>
      c == leaf.value.colDef.renderCell.value(LeafCellParams(p, leaf.value.field))
    ensures leaf.Some? && leaf.value.colDef.renderCell.None? ==> c == LeafCell(LeafCellParams(p, leaf.value.field))
  {
    match leaf
    case None => EmptyString
    case Some(l) =>
      var leafParams := LeafCellParams(p, l.field);
      match l.colDef.renderCell
      case Some(render) => render(leafParams)
      case None => LeafCell(leafParams)
  }

  /** The `renderCell` of a single-criteria column, by the kind of the row:
      a leaf as the leaf column renders it, a group of the criteria as a
      group cell, and any other group as the empty string. */
  function RenderOneCriteriaCell(leaf: Option<LeafColumn>, groupingCriteria: string, hideDescendantCount: Option<bool>, p: CellParams): (c: CellContent)
    ensures ClassifyRow(p.rowNode.groupingField, groupingCriteria) == LeafRow ==> c == RenderLeaf(leaf, p)
    ensures ClassifyRow(p.rowNode.groupingField, groupingCriteria) == CriteriaGroupRow ==> c == GroupingCriteriaCell(p, hideDescendantCount)
    ensures ClassifyRow(p.rowNode.groupingField, groupingCriteria) == OtherGroupRow ==> c == EmptyString
  {
    if IsLeafField(p.rowNode.groupingField) then RenderLeaf(leaf, p)
    else if p.rowNode.groupingField == Named(groupingCriteria) then GroupingCriteriaCell(p, hideDescendantCount)
    else EmptyString
  }

  /** The `renderCell` of the all-criteria column: a leaf as the leaf column
      renders it, and every group as a group cell, as the column of that
      group's own criteria would render it. */
  function RenderAllCriteriaCell(leaf: Option<LeafColumn>, hideDescendantCount: Option<bool>, p: CellParams): (c: CellContent)
    ensures IsLeafField(p.rowNode.groupingField) ==> c == RenderLeaf(leaf, p)
    ensures p.rowNode.groupingField.Named? ==>
      c == GroupingCriteriaCell(p, hideDescendantCount)
      && c == RenderOneCriteriaCell(leaf, p.rowNode.groupingField.name, hideDescendantCount, p)
  {
    if IsLeafField(p.rowNode.groupingField) then RenderLeaf(leaf, p)
    else GroupingCriteriaCell(p, hideDescendantCount)
  }

  /** The value of a leaf row: its cell in the leaf column, if there is one. */
  function LeafValue(leaf: Option<LeafColumn>, p: ValueGetterParams): (v: JsValue)
    ensures leaf.None? ==> v == Undefined
    ensures leaf.Some? ==> v == p.api.cellValue(p.id, leaf.value.field)
  {
    match leaf
    case None => Undefined
    case Some(l) => p.api.cellValue(p.id, l.field)
  }

  /** The `valueGetter` of a single-criteria column: undefined without a row
      node; otherwise by the kind of the row, a leaf's cell in the leaf
      column, the key of a group of the criteria, and undefined for any
      other group. */
  function OneCriteriaValue(leaf: Option<LeafColumn>, groupingCriteria: string, p: ValueGetterParams): (v: JsValue)
    ensures p.rowNode.None? ==> v == Undefined
    ensures p.rowNode.Some? ==> match ClassifyRow(p.rowNode.value.groupingField, groupingCriteria)
      case LeafRow => v == LeafValue(leaf, p)
      case CriteriaGroupRow => v == p.rowNode.value.groupingKey
      case OtherGroupRow => v == Undefined
  {
    match p.rowNode
    case None => Undefined
    case Some(node) =>
      if IsLeafField(node.groupingField) then LeafValue(leaf, p)
      else if node.groupingField == Named(groupingCriteria) then node.groupingKey
      else Undefined
  }

  /** The `valueGetter` of the all-criteria column: undefined without a row
      node, a leaf's cell in the leaf column, and the key of every group, as
      the column of that group's own criteria yields it. */
  function AllCriteriaValue(leaf: Option<LeafColumn>, p: ValueGetterParams): (v: JsValue)
    ensures p.rowNode.None? ==> v == Undefined
    ensures p.rowNode.Some? && IsLeafField(p.rowNode.value.groupingField) ==> v == LeafValue(leaf, p)
    ensures p.rowNode.Some? && p.rowNode.value.groupingField.Named? ==>
      v == p.rowNode.value.groupingKey && v == OneCriteriaValue(leaf, p.rowNode.value.groupingField.name, p)
  {
    match p.rowNode
    case None => Undefined
    case Some(node) => if IsLeafField(node.groupingField) then LeafValue(leaf, p) else node.groupingKey
  }

  /** The value getter's parameters for the same cell as `p`. */
  function ValueParamsOf(p: CellParams): ValueGetterParams {
    ValueGetterParams(p.id, p.field, Some(p.rowNode), p.api)
  }

  /** The render and value hooks of a single-criteria column agree on the
      kind of each row: a leaf shows the leaf column's renderer (or the
      default leaf cell) and yields its cell in the leaf column, or is empty
      and undefined without a leaf column; a group of the criteria shows the
      group cell and yields its key; any other group is empty and yields
      undefined. */
  lemma OneCriteriaHooksAgree(leaf: Option<LeafColumn>, groupingCriteria: string, hideDescendantCount: Option<bool>, p: CellParams)
    ensures var render := RenderOneCriteriaCell(leaf, groupingCriteria, hideDescendantCount, p);
      var value := OneCriteriaValue(leaf, groupingCriteria, ValueParamsOf(p));
      match ClassifyRow(p.rowNode.groupingField, groupingCriteria)
      case LeafRow =>
        && (leaf.None? ==> render == EmptyString && value == Undefined)
        && (leaf.Some? ==> value == p.api.cellValue(p.id, leaf.value.field))
        && (leaf.Some? && leaf.value.colDef.renderCell.Some? ==>
              render == leaf.value.colDef.renderCell.value(LeafCellParams(p, leaf.value.field)))
        && (leaf.Some? && leaf.value.colDef.renderCell.None? ==> render == LeafCell(LeafCellParams(p, leaf.value.field)))
      case CriteriaGroupRow =>
        render == GroupingCriteriaCell(p, hideDescendantCount) && value == p.rowNode.groupingKey
      case OtherGroupRow =>
        render == EmptyString && value == Undefined
  {
  }

  /** The filter of a single-criteria column whose grouped-by column is the
      criteria's own agrees with the row kinds of its other hooks: leaves
      and other groups always pass, and a group of the criteria is the only
      row the original predicate judges. */
  lemma OneCriteriaFilterByRowKind(groupedBy: ColDef, op: FilterOperator, item: FilterItem, p: CellParams)
    requires op.getApplyFilterFn(item).Some?
    ensures var scoped := CriteriaScopedOperator(groupedBy.field, op).getApplyFilterFn(item);
      && scoped.Some?
      && (ClassifyRow(p.rowNode.groupingField, groupedBy.field) == CriteriaGroupRow ==>
            scoped.value(p) == op.getApplyFilterFn(item).value(p))
      && (ClassifyRow(p.rowNode.groupingField, groupedBy.field) != CriteriaGroupRow ==> scoped.value(p))
  {
    CriteriaScopedFilter(groupedBy.field, op, item, p);
  }

  /** The all-criteria column shows every group row as a group cell and
      yields its key; a missing row node yields undefined in both columns. */
  lemma AllCriteriaGroupRows(leaf: Option<LeafColumn>, groupingCriteria: string, hideDescendantCount: Option<bool>, p: CellParams, q: ValueGetterParams)
    ensures p.rowNode.groupingField.Named? ==>
      RenderAllCriteriaCell(leaf, hideDescendantCount, p) == GroupingCriteriaCell(p, hideDescendantCount)
    ensures p.rowNode.groupingField.Named? ==> AllCriteriaValue(leaf, ValueParamsOf(p)) == p.rowNode.groupingKey
    ensures q.rowNode.None? ==> AllCriteriaValue(leaf, q) == Undefined && OneCriteriaValue(leaf, groupingCriteria, q) == Undefined
  {
  }

  /** On the leaves and on the groups of a criteria, the all-criteria column
      renders and yields what that criteria's own column does. */
  lemma AllCriteriaAgreesWithOneCriteria(leaf: Option<LeafColumn>, groupingCriteria: string, hideDescendantCount: Option<bool>, p: CellParams)
    requires IsLeafField(p.rowNode.groupingField) || p.rowNode.groupingField == Named(groupingCriteria)
    ensures RenderAllCriteriaCell(leaf, hideDescendantCount, p) == RenderOneCriteriaCell(leaf, groupingCriteria, hideDescendantCount, p)
    ensures AllCriteriaValue(leaf, ValueParamsOf(p)) == OneCriteriaValue(leaf, groupingCriteria, ValueParamsOf(p))
  {
  }

  // ---------------------------------------------------------------------
  // Widths

  function Max(a: int, b: int): int {
    if a >= b then a else b
  }

  /** `(colDef.width ?? GRID_STRING_COL_DEF.width) + 40`. */
  function GroupedColumnWidth(colDef: ColDef, defaultWidth: int): int {
    (match colDef.width case Some(w) => w case None => defaultWidth) + 40
  }

  /** `leafColDef?.width ?? 0`. */
  function LeafWidth(leaf: Option<LeafColumn>): int {
    match leaf
    case None => 0
    case Some(l) => match l.colDef.width case Some(w) => w case None => 0
  }

  /** The width of a single-criteria column: the larger of the grouped-by
      column's width plus 40 and the leaf column's width. */
  function OneCriteriaWidth(groupedBy: ColDef, leaf: Option<LeafColumn>, defaultWidth: int): (w: int)
    ensures w >= GroupedColumnWidth(groupedBy, defaultWidth) && w >= LeafWidth(leaf)
    ensures w == GroupedColumnWidth(groupedBy, defaultWidth) || w == LeafWidth(leaf)
  {
    Max(GroupedColumnWidth(groupedBy, defaultWidth), LeafWidth(leaf))
  }

  /** `Math.max(...xs)` of a non-empty list: an element no smaller than any. */
  function MathMax(xs: seq<int>): (m: int)
    requires |xs| > 0
    ensures forall i :: 0 <= i < |xs| ==> xs[i] <= m
    ensures exists i :: 0 <= i < |xs| && xs[i] == m
  {
    if |xs| == 1 then xs[0]
    else
      var rest := MathMax(xs[1..]);
      assert forall i :: 1 <= i < |xs| ==> xs[i] == xs[1..][i - 1];
      Max(xs[0], rest)
  }

  /** The width of the all-criteria column: no less than any grouped-by
      column's width plus 40 nor than the leaf column's width, and equal to
      one of them. */
  function AllCriteriaWidth(columnsLookup: map<string, ColDef>, rowGroupingModel: seq<string>, leaf: Option<LeafColumn>, defaultWidth: int): (w: int)
    requires forall f :: f in rowGroupingModel ==> f in columnsLookup
    ensures forall f :: f in rowGroupingModel ==> w >= GroupedColumnWidth(columnsLookup[f], defaultWidth)
    ensures w >= LeafWidth(leaf)
    ensures w == LeafWidth(leaf) || exists f :: f in rowGroupingModel && w == GroupedColumnWidth(columnsLookup[f], defaultWidth)
  {
    var widths := seq(|rowGroupingModel|, i requires 0 <= i < |rowGroupingModel| =>
      GroupedColumnWidth(columnsLookup[rowGroupingModel[i]], defaultWidth));
    var all := widths + [LeafWidth(leaf)];
    var w := MathMax(all);
    assert all[|widths|] == LeafWidth(leaf);
    assert forall f :: f in rowGroupingModel ==> w >= GroupedColumnWidth(columnsLookup[f], defaultWidth) by {
      forall f | f in rowGroupingModel ensures w >= GroupedColumnWidth(columnsLookup[f], defaultWidth) {
        var i :| 0 <= i < |rowGroupingModel| && rowGroupingModel[i] == f;
        assert all[i] == widths[i];
      }
    }
    w
  }

  // ---------------------------------------------------------------------
  // The layered merge

  /** `{...defaults, ...common, ...source, ...overrides, ...forced}`: each
      property takes its value from the last layer that has it. */
  function Layered(defaults: Props, common: Props, source: Props, overrides: Props, forced: Props): (r: Props)
    ensures r.Keys == defaults.Keys + common.Keys + source.Keys + overrides.Keys + forced.Keys
    ensures forall k :: k in forced ==> r[k] == forced[k]
    ensures forall k :: k in overrides && k !in forced ==> r[k] == overrides[k]
    ensures forall k :: k in source && k !in overrides && k !in forced ==> r[k] == source[k]
    ensures forall k :: k in common && k !in source && k !in overrides && k !in forced ==> r[k] == common[k]
    ensures forall k :: k in defaults && k !in common && k !in source && k !in overrides && k !in forced ==> r[k] == defaults[k]
  {
    defaults + common + source + overrides + forced
  }

  /** `GROUPING_COL_DEF_DEFAULT_PROPERTIES`: the string column type, not
      reorderable; every other property is the string type's. */
  function DefaultProperties(constants: GridConstants): (r: Props)
    ensures r.Keys == constants.stringColDef.Keys + {DisableReorder}
    ensures r[DisableReorder] == Value(Bool(true))
    ensures forall k :: k in constants.stringColDef && k != DisableReorder ==> r[k] == constants.stringColDef[k]
  {
    constants.stringColDef[DisableReorder := Value(Bool(true))]
  }

  /** The keys the common, source and forced layers of either grouping
      column may set; the defaults layer shows through everywhere else. */
  const LayerKeys: set<Key> := {Field, Type, Editable, Groupable, HeaderName, Width, RenderCell, ValueGetter,
    Sortable, Filterable, FilterOperators, SortComparator}

  /** The properties no override can change. */
  function ForcedProperties(field: string): (r: Props)
    ensures r.Keys == {Field, Type, Editable, Groupable}
  {
    map[
      Field := Value(Str(field)),
      Type := Value(Str(GroupingColumnType)),
      Editable := Value(Bool(false)),
      Groupable := Value(Bool(false))]
  }

  /** The forced identity of a grouping column with field `field`. */
  ghost predicate HasForcedIdentity(r: Props, field: string) {
    && Field in r && r[Field] == Value(Str(field))
    && Type in r && r[Type] == Value(Str(GroupingColumnType))
    && Editable in r && r[Editable] == Value(Bool(false))
    && Groupable in r && r[Groupable] == Value(Bool(false))
  }

  /** Whatever the other layers hold, a merge topped by the forced layer
      of `field` has that forced identity and keeps every other override
      property as given. */
  lemma LayeredForcedIdentity(defaults: Props, common: Props, source: Props, overrides: Props, field: string)
    ensures var r := Layered(defaults, common, source, overrides, ForcedProperties(field));
      && HasForcedIdentity(r, field)
      && forall k :: k in overrides && k !in {Field, Type, Editable, Groupable} ==> k in r && r[k] == overrides[k]
  {
  }

  // ---------------------------------------------------------------------
  // The single-criteria grouping column

  /** The properties of a single-criteria column that do not depend on its source. */
  function OneCriteriaCommonProperties(constants: GridConstants, groupedBy: ColDef, groupingCriteria: string, leaf: Option<LeafColumn>, hideDescendantCount: Option<bool>): (r: Props)
    ensures r.Keys == {Width, RenderCell, ValueGetter}
    ensures r[Width] == Value(Num(Finite(OneCriteriaWidth(groupedBy, leaf, constants.stringColWidth))))
    ensures r[RenderCell].RenderCellFn? && r[ValueGetter].ValueGetterFn?
    ensures forall p :: r[RenderCell].render(p) == RenderOneCriteriaCell(leaf, groupingCriteria, hideDescendantCount, p)
    ensures forall p :: r[ValueGetter].get(p) == OneCriteriaValue(leaf, groupingCriteria, p)
  {
    map[
      Width := Value(Num(Finite(OneCriteriaWidth(groupedBy, leaf, constants.stringColWidth)))),
      RenderCell := RenderCellFn((p: CellParams) => RenderOneCriteriaCell(leaf, groupingCriteria, hideDescendantCount, p)),
      ValueGetter := ValueGetterFn((p: ValueGetterParams) => OneCriteriaValue(leaf, groupingCriteria, p))]
  }

  /** `createGroupingColDefForOneGroupingCriteria`. */
  function CreateGroupingColDefForOneGroupingCriteria(
    constants: GridConstants,
    columnsLookup: map<string, ColDef>,
    groupingCriteria: string,
    groupedByColDef: ColDef,
    colDefOverride: Option<GroupingColDefOverride>): (r: Props)
    ensures HasForcedIdentity(r, constants.groupingFieldOf(groupingCriteria))
    ensures forall k :: k in OverrideOrEmpty(colDefOverride).properties && k !in {Field, Type, Editable, Groupable} ==>
      k in r && r[k] == OverrideOrEmpty(colDefOverride).properties[k]
  {
    var o := OverrideOrEmpty(colDefOverride);
    var leaf := ResolveLeaf(columnsLookup, o.leafField);
    var defaults := DefaultProperties(constants);
    var common := OneCriteriaCommonProperties(constants, groupedByColDef, groupingCriteria, leaf, o.hideDescendantCount);
    var source := SourceProperties(OneCriteriaSource(o.mainGroupingCriteria, groupingCriteria, groupedByColDef, leaf));
    var field := constants.groupingFieldOf(groupingCriteria);
    LayeredForcedIdentity(defaults, common, source, o.properties, field);
    Layered(defaults, common, source, o.properties, ForcedProperties(field))
  }

  /** Where the override leaves them alone, the width, renderer and value
      getter of a single-criteria column are its common ones. */
  lemma OneCriteriaCommonPropertiesKept(
    constants: GridConstants, columnsLookup: map<string, ColDef>, groupingCriteria: string,
    groupedByColDef: ColDef, colDefOverride: Option<GroupingColDefOverride>, k: Key)
    requires k in {Width, RenderCell, ValueGetter} && k !in OverrideOrEmpty(colDefOverride).properties
    ensures var r := CreateGroupingColDefForOneGroupingCriteria(constants, columnsLookup, groupingCriteria, groupedByColDef, colDefOverride);
      var o := OverrideOrEmpty(colDefOverride);
      var common := OneCriteriaCommonProperties(constants, groupedByColDef, groupingCriteria,
        ResolveLeaf(columnsLookup, o.leafField), o.hideDescendantCount);
      k in r && r[k] == common[k]
  {
    var o := OverrideOrEmpty(colDefOverride);
    var leaf := ResolveLeaf(columnsLookup, o.leafField);
    var source := SourceProperties(OneCriteriaSource(o.mainGroupingCriteria, groupingCriteria, groupedByColDef, leaf));
    var common := OneCriteriaCommonProperties(constants, groupedByColDef, groupingCriteria, leaf, o.hideDescendantCount);
    var forced := ForcedProperties(constants.groupingFieldOf(groupingCriteria));
    assert k in common && k !in source && k !in forced;
  }

  /** Where the override leaves them alone, the header name, sort
      comparator, filter operators and sortable/filterable flags of a
      single-criteria column come from the source it selects. */
  lemma OneCriteriaSourceProperties(
    constants: GridConstants, columnsLookup: map<string, ColDef>, groupingCriteria: string,
    groupedByColDef: ColDef, colDefOverride: Option<GroupingColDefOverride>, k: Key)
    requires k in {SortComparator, FilterOperators, Sortable, Filterable, HeaderName}
    requires k !in OverrideOrEmpty(colDefOverride).properties
    ensures var r := CreateGroupingColDefForOneGroupingCriteria(constants, columnsLookup, groupingCriteria, groupedByColDef, colDefOverride);
      var o := OverrideOrEmpty(colDefOverride);
      var source := SourceProperties(OneCriteriaSource(o.mainGroupingCriteria, groupingCriteria, groupedByColDef,
        ResolveLeaf(columnsLookup, o.leafField)));
      k in r && r[k] == source[k]
  {
    var o := OverrideOrEmpty(colDefOverride);
    var leaf := ResolveLeaf(columnsLookup, o.leafField);
    var s := OneCriteriaSource(o.mainGroupingCriteria, groupingCriteria, groupedByColDef, leaf);
    var source := SourceProperties(s);
    var forced := ForcedProperties(constants.groupingFieldOf(groupingCriteria));
    assert k in source by {
      match s
      case GroupsOf(c, h) => assert h;
      case Leaves(l) =>
    }
    assert k !in forced;
  }

  /** Where the override leaves them alone, a single-criteria column is as
      wide as `OneCriteriaWidth` says, and renders and yields its cells by
      the per-row dispatch of `RenderOneCriteriaCell` and `OneCriteriaValue`. */
  lemma OneCriteriaColumnHooks(
    constants: GridConstants, columnsLookup: map<string, ColDef>, groupingCriteria: string,
    groupedByColDef: ColDef, colDefOverride: Option<GroupingColDefOverride>)
    requires var o := OverrideOrEmpty(colDefOverride);
      Width !in o.properties && RenderCell !in o.properties && ValueGetter !in o.properties
    ensures var r := CreateGroupingColDefForOneGroupingCriteria(constants, columnsLookup, groupingCriteria, groupedByColDef, colDefOverride);
      var o := OverrideOrEmpty(colDefOverride);
      var leaf := ResolveLeaf(columnsLookup, o.leafField);
      && Width in r && r[Width] == Value(Num(Finite(OneCriteriaWidth(groupedByColDef, leaf, constants.stringColWidth))))
      && RenderCell in r && r[RenderCell].RenderCellFn?
      && (forall p :: r[RenderCell].render(p) == RenderOneCriteriaCell(leaf, groupingCriteria, o.hideDescendantCount, p))
      && ValueGetter in r && r[ValueGetter].ValueGetterFn?
      && (forall p :: r[ValueGetter].get(p) == OneCriteriaValue(leaf, groupingCriteria, p))
  {
    OneCriteriaCommonPropertiesKept(constants, columnsLookup, groupingCriteria, groupedByColDef, colDefOverride, Width);
    OneCriteriaCommonPropertiesKept(constants, columnsLookup, groupingCriteria, groupedByColDef, colDefOverride, RenderCell);
    OneCriteriaCommonPropertiesKept(constants, columnsLookup, groupingCriteria, groupedByColDef, colDefOverride, ValueGetter);
  }

  /** Where the override leaves them alone, the filter operators of a
      single-criteria column are the selected source's operators, confined
      to the leaves for the leaf source and to the groups of the criteria
      otherwise, and `undefined` when that column has none. */
  lemma OneCriteriaColumnFilters(
    constants: GridConstants, columnsLookup: map<string, ColDef>, groupingCriteria: string,
    groupedByColDef: ColDef, colDefOverride: Option<GroupingColDefOverride>)
    requires FilterOperators !in OverrideOrEmpty(colDefOverride).properties
    ensures var r := CreateGroupingColDefForOneGroupingCriteria(constants, columnsLookup, groupingCriteria, groupedByColDef, colDefOverride);
      var o := OverrideOrEmpty(colDefOverride);
      var s := OneCriteriaSource(o.mainGroupingCriteria, groupingCriteria, groupedByColDef, ResolveLeaf(columnsLookup, o.leafField));
      var ops := SourceColumn(s).filterOperators;
      && FilterOperators in r
      && (ops.None? ==> r[FilterOperators] == Value(Undefined))
      && (ops.Some? && s.Leaves? ==> r[FilterOperators] == OperatorList(LeafScopedOperators(ops.value)))
      && (ops.Some? && s.GroupsOf? ==> r[FilterOperators] == OperatorList(CriteriaScopedOperators(groupedByColDef.field, ops.value)))
  {
    OneCriteriaSourceProperties(constants, columnsLookup, groupingCriteria, groupedByColDef, colDefOverride, FilterOperators);
  }

  /** Where the override leaves it alone, a single-criteria column cannot be
      reordered, and it keeps every other property of the string column type
      that no later layer sets. */
  lemma OneCriteriaKeepsDefaults(
    constants: GridConstants, columnsLookup: map<string, ColDef>, groupingCriteria: string,
    groupedByColDef: ColDef, colDefOverride: Option<GroupingColDefOverride>)
    requires DisableReorder !in OverrideOrEmpty(colDefOverride).properties
    ensures var r := CreateGroupingColDefForOneGroupingCriteria(constants, columnsLookup, groupingCriteria, groupedByColDef, colDefOverride);
      && DisableReorder in r && r[DisableReorder] == Value(Bool(true))
      && forall k :: k in constants.stringColDef && k != DisableReorder && k !in OverrideOrEmpty(colDefOverride).properties && k !in LayerKeys ==>
           k in r && r[k] == constants.stringColDef[k]
  {
    var o := OverrideOrEmpty(colDefOverride);
    var leaf := ResolveLeaf(columnsLookup, o.leafField);
    var common := OneCriteriaCommonProperties(constants, groupedByColDef, groupingCriteria, leaf, o.hideDescendantCount);
    var source := SourceProperties(OneCriteriaSource(o.mainGroupingCriteria, groupingCriteria, groupedByColDef, leaf));
    var forced := ForcedProperties(constants.groupingFieldOf(groupingCriteria));
    assert DisableReorder !in common && DisableReorder !in source && DisableReorder !in forced;
    forall k | k in constants.stringColDef && k !in LayerKeys
      ensures k !in common && k !in source && k !in forced
    {
    }
  }

  /** With `mainGroupingCriteria` naming the column's criteria, the
      grouped-by column's comparator orders that criteria's groups even when
      a leaf column is configured. */
  lemma MainCriteriaComparatorWins(
    constants: GridConstants, columnsLookup: map<string, ColDef>, groupedByColDef: ColDef,
    o: GroupingColDefOverride, v1: JsValue, v2: JsValue, p1: CellParams, p2: CellParams)
    requires IsSet(o.mainGroupingCriteria) && o.mainGroupingCriteria.value == groupedByColDef.field
    requires SortComparator !in o.properties
    requires p1.rowNode.groupingField == Named(groupedByColDef.field) && p2.rowNode.groupingField == Named(groupedByColDef.field)
    ensures var r := CreateGroupingColDefForOneGroupingCriteria(constants, columnsLookup, groupedByColDef.field, groupedByColDef, Some(o));
      r[SortComparator].ComparatorFn? && r[SortComparator].compare(v1, v2, p1, p2) == groupedByColDef.sortComparator(v1, v2, p1, p2)
  {
    OneCriteriaSourceProperties(constants, columnsLookup, groupedByColDef.field, groupedByColDef, Some(o), SortComparator);
  }

  /** With a leaf column and no matching `mainGroupingCriteria`, the leaf
      column's comparator orders the `null` leaves, and a leaf column with
      no `sortable` of its own replaces the type's default by `undefined`
      (the spread copies the absent value). */
  lemma LeafSourceOrdersLeaves(
    constants: GridConstants, columnsLookup: map<string, ColDef>, groupingCriteria: string, groupedByColDef: ColDef,
    o: GroupingColDefOverride, v1: JsValue, v2: JsValue, p1: CellParams, p2: CellParams)
    requires IsSet(o.leafField) && o.leafField.value in columnsLookup
    requires !(IsSet(o.mainGroupingCriteria) && o.mainGroupingCriteria.value == groupingCriteria)
    requires SortComparator !in o.properties && Sortable !in o.properties
    requires p1.rowNode.groupingField == NullField && p2.rowNode.groupingField == NullField
    ensures var r := CreateGroupingColDefForOneGroupingCriteria(constants, columnsLookup, groupingCriteria, groupedByColDef, Some(o));
      var leaf := columnsLookup[o.leafField.value];
      && r[SortComparator].ComparatorFn?
      && r[SortComparator].compare(v1, v2, p1, p2) == leaf.sortComparator(v1, v2, p1, p2)
      && (leaf.sortable.None? ==> r[Sortable] == Value(Undefined))
  {
    var leaf := ResolveLeaf(columnsLookup, o.leafField);
    var s := OneCriteriaSource(o.mainGroupingCriteria, groupingCriteria, groupedByColDef, leaf);
    assert s == Leaves(columnsLookup[o.leafField.value]);
    var source := LeafProperties(s.leaf);
    assert source[SortComparator] == ComparatorFn(LeafSortComparator(s.leaf));
    assert source[Sortable] == Value(OptionalBool(s.leaf.sortable));
    OneCriteriaSourceProperties(constants, columnsLookup, groupingCriteria, groupedByColDef, Some(o), SortComparator);
    OneCriteriaSourceProperties(constants, columnsLookup, groupingCriteria, groupedByColDef, Some(o), Sortable);
    LeafSortScope(s.leaf, s.leaf, v1, v2, v1, v2, p1, p2);
  }

  // ---------------------------------------------------------------------
  // The all-criteria grouping column

  /** The properties of the all-criteria column that do not depend on its source. */
  function AllCriteriaCommonProperties(
    constants: GridConstants, columnsLookup: map<string, ColDef>, rowGroupingModel: seq<string>,
    leaf: Option<LeafColumn>, hideDescendantCount: Option<bool>, localeHeaderName: string): (r: Props)
    requires forall f :: f in rowGroupingModel ==> f in columnsLookup
    ensures r.Keys == {HeaderName, Width, RenderCell, ValueGetter}
    ensures r[HeaderName] == Value(Str(localeHeaderName))
    ensures r[Width] == Value(Num(Finite(AllCriteriaWidth(columnsLookup, rowGroupingModel, leaf, constants.stringColWidth))))
    ensures r[RenderCell].RenderCellFn? && r[ValueGetter].ValueGetterFn?
    ensures forall p :: r[RenderCell].render(p) == RenderAllCriteriaCell(leaf, hideDescendantCount, p)
    ensures forall p :: r[ValueGetter].get(p) == AllCriteriaValue(leaf, p)
  {
    map[
      HeaderName := Value(Str(localeHeaderName)),
      Width := Value(Num(Finite(AllCriteriaWidth(columnsLookup, rowGroupingModel, leaf, constants.stringColWidth)))),
      RenderCell := RenderCellFn((p: CellParams) => RenderAllCriteriaCell(leaf, hideDescendantCount, p)),
      ValueGetter := ValueGetterFn((p: ValueGetterParams) => AllCriteriaValue(leaf, p))]
  }

  /** `createGroupingColDefForAllGroupingCriteria`; `localeHeaderName` is
      the grid's `groupingColumnHeaderName` text. Every criteria of the
      model is a column of the lookup, and the model is empty only when a
      leaf column supplies the source. */
  function CreateGroupingColDefForAllGroupingCriteria(
    constants: GridConstants,
    columnsLookup: map<string, ColDef>,
    rowGroupingModel: seq<string>,
    colDefOverride: Option<GroupingColDefOverride>,
    localeHeaderName: string): (r: Props)
    requires forall f :: f in rowGroupingModel ==> f in columnsLookup
    requires |rowGroupingModel| > 0 || ResolveLeaf(columnsLookup, OverrideOrEmpty(colDefOverride).leafField).Some?
    ensures HasForcedIdentity(r, constants.singleGroupingField)
    ensures forall k :: k in OverrideOrEmpty(colDefOverride).properties && k !in {Field, Type, Editable, Groupable} ==>
      k in r && r[k] == OverrideOrEmpty(colDefOverride).properties[k]
  {
    var o := OverrideOrEmpty(colDefOverride);
    var leaf := ResolveLeaf(columnsLookup, o.leafField);
    var defaults := DefaultProperties(constants);
    var common := AllCriteriaCommonProperties(constants, columnsLookup, rowGroupingModel, leaf, o.hideDescendantCount, localeHeaderName);
    var source := SourceProperties(AllCriteriaSource(columnsLookup, rowGroupingModel, o.mainGroupingCriteria, leaf));
    LayeredForcedIdentity(defaults, common, source, o.properties, constants.singleGroupingField);
    Layered(defaults, common, source, o.properties, ForcedProperties(constants.singleGroupingField))
  }

  /** The header of the all-criteria column without directives or a header
      override: the only grouped-by column's header for a model of one
      criteria, and the localized label for a longer model. */
  lemma AllCriteriaHeaderName(
    constants: GridConstants, columnsLookup: map<string, ColDef>, rowGroupingModel: seq<string>,
    properties: Props, localeHeaderName: string)
    requires forall f :: f in rowGroupingModel ==> f in columnsLookup
    requires |rowGroupingModel| > 0
    requires HeaderName !in properties
    ensures var r := CreateGroupingColDefForAllGroupingCriteria(constants, columnsLookup, rowGroupingModel,
        Some(GroupingColDefOverride(None, None, None, properties)), localeHeaderName);
      && HeaderName in r
      && (|rowGroupingModel| == 1 ==> r[HeaderName] == Value(Str(HeaderNameOf(columnsLookup[rowGroupingModel[0]]))))
      && (|rowGroupingModel| >= 2 ==> r[HeaderName] == Value(Str(localeHeaderName)))
  {
    var o := GroupingColDefOverride(None, None, None, properties);
    var leaf := ResolveLeaf(columnsLookup, o.leafField);
    var s := AllCriteriaSource(columnsLookup, rowGroupingModel, o.mainGroupingCriteria, leaf);
    assert s == GroupsOf(columnsLookup[rowGroupingModel[0]], |rowGroupingModel| == 1);
    var common := AllCriteriaCommonProperties(constants, columnsLookup, rowGroupingModel, leaf, o.hideDescendantCount, localeHeaderName);
    var source := SourceProperties(s);
    var forced := ForcedProperties(constants.singleGroupingField);
    assert HeaderName !in forced;
    assert HeaderName in common && common[HeaderName] == Value(Str(localeHeaderName));
    if |rowGroupingModel| == 1 {
      assert HeaderName in source && source[HeaderName] == Value(Str(HeaderNameOf(columnsLookup[rowGroupingModel[0]])));
    } else {
      assert HeaderName !in source;
    }
  }

  /** Where the override leaves them alone, the width of the all-criteria
      column covers every grouped-by column and the leaf column, and its
      sort comparator is the one of the selected source: that of the main
      criteria when the model holds it. */
  lemma AllCriteriaProperties(
    constants: GridConstants, columnsLookup: map<string, ColDef>, rowGroupingModel: seq<string>,
    o: GroupingColDefOverride, localeHeaderName: string)
    requires forall f :: f in rowGroupingModel ==> f in columnsLookup
    requires |rowGroupingModel| > 0 || ResolveLeaf(columnsLookup, o.leafField).Some?
    requires Width !in o.properties && SortComparator !in o.properties
    ensures var r := CreateGroupingColDefForAllGroupingCriteria(constants, columnsLookup, rowGroupingModel, Some(o), localeHeaderName);
      var leaf := ResolveLeaf(columnsLookup, o.leafField);
      && Width in r && r[Width] == Value(Num(Finite(AllCriteriaWidth(columnsLookup, rowGroupingModel, leaf, constants.stringColWidth))))
      && SortComparator in r
      && r[SortComparator] == SourceProperties(AllCriteriaSource(columnsLookup, rowGroupingModel, o.mainGroupingCriteria, leaf))[SortComparator]
      && (IsSet(o.mainGroupingCriteria) && o.mainGroupingCriteria.value in rowGroupingModel ==>
            r[SortComparator] == ComparatorFn(CriteriaSortComparator(columnsLookup[o.mainGroupingCriteria.value])))
  {
    var leaf := ResolveLeaf(columnsLookup, o.leafField);
    var s := AllCriteriaSource(columnsLookup, rowGroupingModel, o.mainGroupingCriteria, leaf);
    var common := AllCriteriaCommonProperties(constants, columnsLookup, rowGroupingModel, leaf, o.hideDescendantCount, localeHeaderName);
    var source := SourceProperties(s);
    var forced := ForcedProperties(constants.singleGroupingField);
    assert Width !in forced && SortComparator !in forced;
    assert Width !in source;
    assert Width in common;
    assert SortComparator in source;
  }
  /** Where the override leaves them alone, the all-criteria column renders
      and yields its cells by the dispatch of `RenderAllCriteriaCell` and
      `AllCriteriaValue`. */
  lemma AllCriteriaColumnHooks(
    constants: GridConstants, columnsLookup: map<string, ColDef>, rowGroupingModel: seq<string>,
    o: GroupingColDefOverride, localeHeaderName: string)
    requires forall f :: f in rowGroupingModel ==> f in columnsLookup
    requires |rowGroupingModel| > 0 || ResolveLeaf(columnsLookup, o.leafField).Some?
    requires RenderCell !in o.properties && ValueGetter !in o.properties
    ensures var r := CreateGroupingColDefForAllGroupingCriteria(constants, columnsLookup, rowGroupingModel, Some(o), localeHeaderName);
      var leaf := ResolveLeaf(columnsLookup, o.leafField);
      && RenderCell in r && r[RenderCell].RenderCellFn?
      && (forall p :: r[RenderCell].render(p) == RenderAllCriteriaCell(leaf, o.hideDescendantCount, p))
      && ValueGetter in r && r[ValueGetter].ValueGetterFn?
      && (forall p :: r[ValueGetter].get(p) == AllCriteriaValue(leaf, p))
  {
    var leaf := ResolveLeaf(columnsLookup, o.leafField);
    var common := AllCriteriaCommonProperties(constants, columnsLookup, rowGroupingModel, leaf, o.hideDescendantCount, localeHeaderName);
    var source := SourceProperties(AllCriteriaSource(columnsLookup, rowGroupingModel, o.mainGroupingCriteria, leaf));
    var forced := ForcedProperties(constants.singleGroupingField);
    assert RenderCell !in forced && ValueGetter !in forced;
    assert RenderCell !in source && ValueGetter !in source;
  }

  /** Where the override leaves them alone, the filter operators of the
      all-criteria column are the selected source's operators, confined to
      the leaves for the leaf source and to the groups of the source's
      criteria otherwise, and `undefined` when that column has none. */
  lemma AllCriteriaColumnFilters(
    constants: GridConstants, columnsLookup: map<string, ColDef>, rowGroupingModel: seq<string>,
    o: GroupingColDefOverride, localeHeaderName: string)
    requires forall f :: f in rowGroupingModel ==> f in columnsLookup
    requires |rowGroupingModel| > 0 || ResolveLeaf(columnsLookup, o.leafField).Some?
    requires FilterOperators !in o.properties
    ensures var r := CreateGroupingColDefForAllGroupingCriteria(constants, columnsLookup, rowGroupingModel, Some(o), localeHeaderName);
      var s := AllCriteriaSource(columnsLookup, rowGroupingModel, o.mainGroupingCriteria, ResolveLeaf(columnsLookup, o.leafField));
      var ops := SourceColumn(s).filterOperators;
      && FilterOperators in r
      && (ops.None? ==> r[FilterOperators] == Value(Undefined))
      && (ops.Some? && s.Leaves? ==> r[FilterOperators] == OperatorList(LeafScopedOperators(ops.value)))
      && (ops.Some? && s.GroupsOf? ==> r[FilterOperators] == OperatorList(CriteriaScopedOperators(s.colDef.field, ops.value)))
  {
    var leaf := ResolveLeaf(columnsLookup, o.leafField);
    var s := AllCriteriaSource(columnsLookup, rowGroupingModel, o.mainGroupingCriteria, leaf);
    var source := SourceProperties(s);
    var forced := ForcedProperties(constants.singleGroupingField);
    assert FilterOperators !in forced;
    assert FilterOperators in source;
  }

  /** Where the override leaves them alone, the sort comparator, filter
      operators and sortable/filterable flags of the all-criteria column
      come from the source it selects. */
  lemma AllCriteriaSourceProperties(
    constants: GridConstants, columnsLookup: map<string, ColDef>, rowGroupingModel: seq<string>,
    o: GroupingColDefOverride, localeHeaderName: string, k: Key)
    requires forall f :: f in rowGroupingModel ==> f in columnsLookup
    requires |rowGroupingModel| > 0 || ResolveLeaf(columnsLookup, o.leafField).Some?
    requires k in {SortComparator, FilterOperators, Sortable, Filterable} && k !in o.properties
    ensures var r := CreateGroupingColDefForAllGroupingCriteria(constants, columnsLookup, rowGroupingModel, Some(o), localeHeaderName);
      var source := SourceProperties(AllCriteriaSource(columnsLookup, rowGroupingModel, o.mainGroupingCriteria,
        ResolveLeaf(columnsLookup, o.leafField)));
      k in r && r[k] == source[k]
  {
    var leaf := ResolveLeaf(columnsLookup, o.leafField);
    var source := SourceProperties(AllCriteriaSource(columnsLookup, rowGroupingModel, o.mainGroupingCriteria, leaf));
    var forced := ForcedProperties(constants.singleGroupingField);
    assert k !in forced && k in source;
  }

  /** Where the override leaves it alone, the header of the all-criteria
      column is the selected source column's when the source is the leaf
      column or a criteria whose header applies, and the localized label
      otherwise. */
  lemma AllCriteriaColumnHeader(
    constants: GridConstants, columnsLookup: map<string, ColDef>, rowGroupingModel: seq<string>,
    o: GroupingColDefOverride, localeHeaderName: string)
    requires forall f :: f in rowGroupingModel ==> f in columnsLookup
    requires |rowGroupingModel| > 0 || ResolveLeaf(columnsLookup, o.leafField).Some?
    requires HeaderName !in o.properties
    ensures var r := CreateGroupingColDefForAllGroupingCriteria(constants, columnsLookup, rowGroupingModel, Some(o), localeHeaderName);
      var s := AllCriteriaSource(columnsLookup, rowGroupingModel, o.mainGroupingCriteria, ResolveLeaf(columnsLookup, o.leafField));
      && HeaderName in r
      && (s.Leaves? || s.applyHeaderName ==> r[HeaderName] == Value(Str(HeaderNameOf(SourceColumn(s)))))
      && (s.GroupsOf? && !s.applyHeaderName ==> r[HeaderName] == Value(Str(localeHeaderName)))
  {
    var leaf := ResolveLeaf(columnsLookup, o.leafField);
    var s := AllCriteriaSource(columnsLookup, rowGroupingModel, o.mainGroupingCriteria, leaf);
    var common := AllCriteriaCommonProperties(constants, columnsLookup, rowGroupingModel, leaf, o.hideDescendantCount, localeHeaderName);
    var source := SourceProperties(s);
    var forced := ForcedProperties(constants.singleGroupingField);
    SourcePropertiesCopied(s);
    assert HeaderName !in forced;
    if s.Leaves? || s.applyHeaderName {
      assert HeaderName in source;
    } else {
      assert HeaderName !in source && HeaderName in common;
    }
  }

  /** Where the override leaves them alone, the all-criteria column takes
      its `sortable` and `filterable` flags from the selected source column. */
  lemma AllCriteriaColumnFlags(
    constants: GridConstants, columnsLookup: map<string, ColDef>, rowGroupingModel: seq<string>,
    o: GroupingColDefOverride, localeHeaderName: string)
    requires forall f :: f in rowGroupingModel ==> f in columnsLookup
    requires |rowGroupingModel| > 0 || ResolveLeaf(columnsLookup, o.leafField).Some?
    requires Sortable !in o.properties && Filterable !in o.properties
    ensures var r := CreateGroupingColDefForAllGroupingCriteria(constants, columnsLookup, rowGroupingModel, Some(o), localeHeaderName);
      var s := AllCriteriaSource(columnsLookup, rowGroupingModel, o.mainGroupingCriteria, ResolveLeaf(columnsLookup, o.leafField));
      && Sortable in r && r[Sortable] == Value(OptionalBool(SourceColumn(s).sortable))
      && Filterable in r && r[Filterable] == Value(OptionalBool(SourceColumn(s).filterable))
  {
    var s := AllCriteriaSource(columnsLookup, rowGroupingModel, o.mainGroupingCriteria, ResolveLeaf(columnsLookup, o.leafField));
    SourcePropertiesCopied(s);
    AllCriteriaSourceProperties(constants, columnsLookup, rowGroupingModel, o, localeHeaderName, Sortable);
    AllCriteriaSourceProperties(constants, columnsLookup, rowGroupingModel, o, localeHeaderName, Filterable);
  }

  /** Where the override leaves it alone, the all-criteria column cannot be
      reordered, and it keeps every other property of the string column type
      that no later layer sets. */
  lemma AllCriteriaKeepsDefaults(
    constants: GridConstants, columnsLookup: map<string, ColDef>, rowGroupingModel: seq<string>,
    o: GroupingColDefOverride, localeHeaderName: string)
    requires forall f :: f in rowGroupingModel ==> f in columnsLookup
    requires |rowGroupingModel| > 0 || ResolveLeaf(columnsLookup, o.leafField).Some?
    requires DisableReorder !in o.properties
    ensures var r := CreateGroupingColDefForAllGroupingCriteria(constants, columnsLookup, rowGroupingModel, Some(o), localeHeaderName);
      && DisableReorder in r && r[DisableReorder] == Value(Bool(true))
      && forall k :: k in constants.stringColDef && k != DisableReorder && k !in o.properties && k !in LayerKeys ==>
           k in r && r[k] == constants.stringColDef[k]
  {
    var leaf := ResolveLeaf(columnsLookup, o.leafField);
    var common := AllCriteriaCommonProperties(constants, columnsLookup, rowGroupingModel, leaf, o.hideDescendantCount, localeHeaderName);
    var source := SourceProperties(AllCriteriaSource(columnsLookup, rowGroupingModel, o.mainGroupingCriteria, leaf));
    var forced := ForcedProperties(constants.singleGroupingField);
    assert DisableReorder !in common && DisableReorder !in source && DisableReorder !in forced;
    forall k | k in constants.stringColDef && k !in LayerKeys
      ensures k !in common && k !in source && k !in forced
    {
    }
  }
}
