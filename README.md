# Row-grouping columns and numeric/boolean filter operators of a data grid

This project models two parts of a data-grid component and proves properties
of them in Dafny.

**Grouping columns.** When rows are grouped by one or more fields, the grid
adds a derived *grouping column*. There is either one column per grouping
criteria (`createGroupingColDefForOneGroupingCriteria`) or one column for all
criteria together (`createGroupingColDefForAllGroupingCriteria`). The column
definition is a JavaScript object. It is built by spreading five layers in
fixed order:
- the string column type's defaults;
- the common properties (width, `renderCell`, `valueGetter`);
- the sort and filter rules of a *source* column (the grouped-by column, or
  the leaf column);
- the user's override;
- the forced identity: `field`, `type = 'rowGroupByColumnsGroup'`,
  `editable = false`, `groupable = false`.

Every per-row hook dispatches on the row node's `groupingField`. A row is a
leaf, a group of this column's criteria, or a group of another criteria. A
cross-criteria *index comparator* orders rows of different kinds: leaves
first, then groups in the order of their criteria in the grouping model.

**Filter operators.** `getGridNumericOperators` returns nine operators in a
fixed order: `=`, `!=`, `>`, `>=`, `<`, `<=`, `isEmpty`, `isNotEmpty` and
`isAnyOf`. `getGridBooleanOperators` returns one operator, `is`. Each
operator's factory returns either no predicate (`null`, "inapplicable") or a
predicate over a cell.

Files:
- `wrappers.dfy`: `Option`.
- `js_values.dfy`: the JavaScript values involved and the coercions used:
  `== null`, truthiness, `Number(...)`, `===` against a number, and the
  SameValueZero equality of `includes`.
- `grid_models.dfy`: row nodes, cell parameters, filter items and operators,
  lookup column definitions, and column definition objects. An object is a
  `map<Key, PropValue>`, and a spread `{...a, ...b}` is the map union `a + b`.
  A property the grid names has its own `Key` constructor (`Width`,
  `HeaderName`, ...). `OtherKey(name)` stands for every other property, so
  the model reads a map only under the convention that no `OtherKey` name
  spells a dedicated key (`OtherKey("width")` is not `width`). An
  override's `properties` is what remains after the three directives are
  destructured away, so it holds no `leafField`, `mainGroupingCriteria` or
  `hideDescendantCount`. Every "unless overridden" premise (`Width !in
  o.properties`, say) means "the override has no such property" only under
  this convention.
- `numeric_operators.dfy`, `boolean_operators.dfy`: the operator factories.
- `grouping_col_def.dfy`: the grouping-column synthesizers.

Modelling choices:
- A row's `groupingField` is `NullField`, `UndefinedField` or
  `Named(criteria)`. The source tests it both loosely (`== null`) and
  strictly (`=== null`, `===`), so null and undefined must be kept apart.
  The comparator lemmas that need consistent data assume that leaves carry
  `null` and that groups belong to a criteria of the model
  (`WellFormedField`). `IndexComparatorOutsideWellFormedRows` shows what
  happens otherwise.
- The comparator reads the grouping model from the grid state when it is
  called, not when the column is built. So the model is part of the cell
  parameters (`GridApi.groupingModel`). The same holds for `getCellValue`
  (`GridApi.cellValue`).
- A property copied from a column that lacks it keeps the value `undefined`.
  An example is `sortable: leafColDef.sortable`. That `undefined` replaces
  the default, as an object spread does (`LeafSourceOrdersLeaves`).

Behaviour worth noting:
- Against a group row, the index comparator returns -1 for a leaf row
  (createGroupingColDef.tsx:48-50), so the leaf is the lesser row. The
  comment above the comparator (createGroupingColDef.tsx:31-33) says both
  that the row whose criteria comes first in the model is displayed below
  and that rows with a missing field are displayed above.
- The numeric list has six comparisons, `=` to `<=`
  (gridNumericOperators.ts:15-121), followed by `isEmpty`, `isNotEmpty` and
  `isAnyOf`.
- The single-criteria width is
  `max((width ?? default) + 40, leafWidth ?? 0)`
  (createGroupingColDef.tsx:172-175).
- A leaf field that names no column of the lookup is treated as "no leaf
  column", because the lookup returns `undefined`
  (createGroupingColDef.tsx:168).

## Model

| member | source | states |
|---|---|---|
| `GroupingColDef.IndexOf` | packages/grid/x-data-grid-pro/src/hooks/features/rowGrouping/createGroupingColDef.tsx:56 | `indexOf` gives the first position of the field in the model, or -1 exactly when the field is absent |
| `GroupingColDef.GroupingFieldIndexComparator` | packages/grid/x-data-grid-pro/src/hooks/features/rowGrouping/createGroupingColDef.tsx:36-61 | the result is always -1, 0 or 1, and it is 0 exactly when both rows have the same grouping field (two leaves included) |
| `GroupingColDef.IndexComparator` | packages/grid/x-data-grid-pro/src/hooks/features/rowGrouping/createGroupingColDef.tsx:36-42 | the comparator as the grid calls it, with the model of the first cell's state: -1, 0 or 1, 0 exactly for the same grouping field, a leaf before a group and a group after a leaf |
| `GroupingColDef.LeavesBeforeGroups` | packages/grid/x-data-grid-pro/src/hooks/features/rowGrouping/createGroupingColDef.tsx:48-54 | a leaf against a group gives -1; the group against the leaf gives 1 |
| `GroupingColDef.GroupsInModelOrder` | packages/grid/x-data-grid-pro/src/hooks/features/rowGrouping/createGroupingColDef.tsx:56-60 | for two distinct criteria, the result is -1 exactly when the first criteria's model index is smaller, and 1 otherwise |
| `GroupingColDef.IndexComparatorIsRankOrder` | packages/grid/x-data-grid-pro/src/hooks/features/rowGrouping/createGroupingColDef.tsx:31-61 | on well-formed rows, the comparator is the sign of the difference of ranks (leaves at -1, groups at their criteria's model index) |
| `GroupingColDef.IndexComparatorAntisymmetric` | packages/grid/x-data-grid-pro/src/hooks/features/rowGrouping/createGroupingColDef.tsx:36-61 | on well-formed rows, swapping the arguments negates the result |
| `GroupingColDef.IndexComparatorTransitive` | packages/grid/x-data-grid-pro/src/hooks/features/rowGrouping/createGroupingColDef.tsx:36-61 | on well-formed rows, "not greater" is transitive |
| `GroupingColDef.IndexComparatorOutsideWellFormedRows` | packages/grid/x-data-grid-pro/src/hooks/features/rowGrouping/createGroupingColDef.tsx:44-60 | a null leaf and an undefined leaf are each less than the other, and two criteria missing from the model are each greater than the other |
| `GroupingColDef.LeafSortScope` | packages/grid/x-data-grid-pro/src/hooks/features/rowGrouping/createGroupingColDef.tsx:85-92 | the leaf column's comparator decides exactly the pairs of two strictly-null leaves; any other pair gets the index comparator, whatever the leaf comparator and values |
| `GroupingColDef.LeafSortPutsLeafFirst` | packages/grid/x-data-grid-pro/src/hooks/features/rowGrouping/createGroupingColDef.tsx:85-92 | under the leaf-scoped comparator, a leaf against a group gives -1 and the reverse gives 1 |
| `GroupingColDef.CriteriaSortScope` | packages/grid/x-data-grid-pro/src/hooks/features/rowGrouping/createGroupingColDef.tsx:102-112 | the grouped-by column's comparator decides exactly the pairs of two groups of its own criteria; every other pair gets the index comparator, whatever the grouped-by comparator and the cell values |
| `GroupingColDef.CriteriaSortPutsLeafFirst` | packages/grid/x-data-grid-pro/src/hooks/features/rowGrouping/createGroupingColDef.tsx:102-112 | under the criteria-scoped comparator, a leaf against a group gives -1 and the reverse gives 1 |
| `GroupingColDef.LeafScopedOperator` | packages/grid/x-data-grid-pro/src/hooks/features/rowGrouping/createGroupingColDef.tsx:67-69 | the wrapped operator keeps the original's tag and label |
| `GroupingColDef.LeafScopedFilter` | packages/grid/x-data-grid-pro/src/hooks/features/rowGrouping/createGroupingColDef.tsx:69-83 | no predicate exactly when the original has none; every group row passes; on leaves it matches the original; the rows it hides are exactly the leaves the original hides |
| `GroupingColDef.LeafScopedOperators` | packages/grid/x-data-grid-pro/src/hooks/features/rowGrouping/createGroupingColDef.tsx:67 | the operator list keeps its length, order and tags, with each operator leaf-scoped |
| `GroupingColDef.CriteriaScopedOperator` | packages/grid/x-data-grid-pro/src/hooks/features/rowGrouping/createGroupingColDef.tsx:113-115 | the wrapped operator keeps the original's tag and label |
| `GroupingColDef.CriteriaScopedFilter` | packages/grid/x-data-grid-pro/src/hooks/features/rowGrouping/createGroupingColDef.tsx:115-129 | no predicate exactly when the original has none; every row that is not a group of the criteria passes; on that criteria's groups it matches the original |
| `GroupingColDef.CriteriaScopedOperators` | packages/grid/x-data-grid-pro/src/hooks/features/rowGrouping/createGroupingColDef.tsx:113 | the operator list keeps its length, order and tags, with each operator criteria-scoped |
| `GroupingColDef.HeaderNameOf` | packages/grid/x-data-grid-pro/src/hooks/features/rowGrouping/createGroupingColDef.tsx:64 | the header name when the column has one (even an empty one), else the field; the same `??` is used at line 134 |
| `GroupingColDef.LeafProperties` | packages/grid/x-data-grid-pro/src/hooks/features/rowGrouping/createGroupingColDef.tsx:63-93 | the leaf source sets exactly headerName, sortable, filterable, filterOperators and sortComparator: the leaf column's header and flags (`undefined` kept), its operators confined to the leaves (`undefined` without operators), and the leaf-scoped comparator |
| `GroupingColDef.GroupingCriteriaProperties` | packages/grid/x-data-grid-pro/src/hooks/features/rowGrouping/createGroupingColDef.tsx:95-138 | the criteria source sets sortable, filterable, filterOperators and sortComparator, and headerName exactly when asked to: the grouped-by column's flags and header, its operators confined to its criteria's groups (`undefined` without operators), and the criteria-scoped comparator |
| `GroupingColDef.ResolveLeaf` | packages/grid/x-data-grid-pro/src/hooks/features/rowGrouping/createGroupingColDef.tsx:168 | a leaf column exists exactly when the leaf field is a non-empty string naming a lookup column, and then it is that column |
| `GroupingColDef.SourceProperties` | packages/grid/x-data-grid-pro/src/hooks/features/rowGrouping/createGroupingColDef.tsx:230-237 | the source layer sets exactly the sort and filter rules, plus the header for leaves, or for groups when asked; its comparator is the leaf-scoped or the criteria-scoped one |
| `GroupingColDef.SourcePropertiesCopied` | packages/grid/x-data-grid-pro/src/hooks/features/rowGrouping/createGroupingColDef.tsx:63-135 | the source layer copies `sortable` and `filterable` from its column (`undefined` included) and, when it sets one, that column's header name |
| `GroupingColDef.OneCriteriaSource` | packages/grid/x-data-grid-pro/src/hooks/features/rowGrouping/createGroupingColDef.tsx:230-237 | the leaf source is chosen exactly when there is a leaf column and `mainGroupingCriteria` does not name this criteria; otherwise the grouped-by column is chosen, with its header |
| `GroupingColDef.AllCriteriaSource` | packages/grid/x-data-grid-pro/src/hooks/features/rowGrouping/createGroupingColDef.tsx:338-348 | a `mainGroupingCriteria` in the model wins, then the leaf column, then `rowGroupingModel[0]`, whose header is applied only for a model of length 1 |
| `GroupingColDef.ClassifyRow` | packages/grid/x-data-grid-pro/src/hooks/features/rowGrouping/createGroupingColDef.tsx:178-199 | a row is a leaf exactly when its grouping field is nullish, and a group of the criteria exactly when the field equals it |
| `GroupingColDef.LeafCellParams` | packages/grid/x-data-grid-pro/src/hooks/features/rowGrouping/createGroupingColDef.tsx:180-183 | the leaf renderer gets the same row and api, with the leaf field and that cell's value |
| `GroupingColDef.RenderLeaf` | packages/grid/x-data-grid-pro/src/hooks/features/rowGrouping/createGroupingColDef.tsx:178-191 | a leaf row is empty without a leaf column, else rendered by the leaf column's renderer or the default leaf cell, on the row's cell of the leaf column |
| `GroupingColDef.RenderOneCriteriaCell` | packages/grid/x-data-grid-pro/src/hooks/features/rowGrouping/createGroupingColDef.tsx:176-200 | by row kind: a leaf as the leaf column renders it, a group of the criteria as the group cell with `hideDescendantCount`, any other group as the empty string |
| `GroupingColDef.LeafValue` | packages/grid/x-data-grid-pro/src/hooks/features/rowGrouping/createGroupingColDef.tsx:206-211 | a leaf row yields its cell in the leaf column, or undefined without a leaf column |
| `GroupingColDef.OneCriteriaValue` | packages/grid/x-data-grid-pro/src/hooks/features/rowGrouping/createGroupingColDef.tsx:201-219 | undefined without a row node; by row kind: the leaf value, the `groupingKey` of a group of the criteria, and undefined for any other group |
| `GroupingColDef.OneCriteriaHooksAgree` | packages/grid/x-data-grid-pro/src/hooks/features/rowGrouping/createGroupingColDef.tsx:176-219 | the render and value hooks share the three-way dispatch. Leaf row: the leaf value and leaf rendering only when a leaf column exists. Group of this criteria: `groupingKey` and the group cell with `hideDescendantCount`. Any other group: undefined and empty |
| `GroupingColDef.OneCriteriaFilterByRowKind` | packages/grid/x-data-grid-pro/src/hooks/features/rowGrouping/createGroupingColDef.tsx:116-127 | with the criteria-scoped filter, leaves and other groups always pass, and a group of the criteria is the only row the original predicate judges |
| `GroupingColDef.RenderAllCriteriaCell` | packages/grid/x-data-grid-pro/src/hooks/features/rowGrouping/createGroupingColDef.tsx:292-312 | a leaf as the leaf column renders it; every group as the group cell, which is what the column of that group's own criteria renders |
| `GroupingColDef.AllCriteriaValue` | packages/grid/x-data-grid-pro/src/hooks/features/rowGrouping/createGroupingColDef.tsx:313-327 | undefined without a row node, the leaf value for a leaf, and the `groupingKey` of every group, which is what the column of that group's own criteria yields |
| `GroupingColDef.AllCriteriaGroupRows` | packages/grid/x-data-grid-pro/src/hooks/features/rowGrouping/createGroupingColDef.tsx:292-327 | the all-criteria column yields `groupingKey` and renders the group cell for any group row; a missing row node yields undefined in both columns |
| `GroupingColDef.AllCriteriaAgreesWithOneCriteria` | packages/grid/x-data-grid-pro/src/hooks/features/rowGrouping/createGroupingColDef.tsx:292-327 | on leaves and on one criteria's groups, the all-criteria column renders and yields what that criteria's column does |
| `GroupingColDef.OneCriteriaWidth` | packages/grid/x-data-grid-pro/src/hooks/features/rowGrouping/createGroupingColDef.tsx:172-175 | single-criteria width is the larger of (grouped width, or the default when absent) + 40 and the leaf width (0 when absent) |
| `GroupingColDef.MathMax` | packages/grid/x-data-grid-pro/src/hooks/features/rowGrouping/createGroupingColDef.tsx:286 | `Math.max` of a non-empty list is an element no smaller than any other |
| `GroupingColDef.AllCriteriaWidth` | packages/grid/x-data-grid-pro/src/hooks/features/rowGrouping/createGroupingColDef.tsx:286-291 | the all-criteria width is at least every grouped field's width + 40 and the leaf width, and equals one of them |
| `GroupingColDef.Layered` | packages/grid/x-data-grid-pro/src/hooks/features/rowGrouping/createGroupingColDef.tsx:245-251 | each property takes its value from the last layer that has it: forced > override > source > common > defaults |
| `GroupingColDef.DefaultProperties` | packages/grid/x-data-grid-pro/src/hooks/features/rowGrouping/createGroupingColDef.tsx:20-23 | the string column type's properties, with `disableReorder` set to true and every other property left as the type's |
| `GroupingColDef.ForcedProperties` | packages/grid/x-data-grid-pro/src/hooks/features/rowGrouping/createGroupingColDef.tsx:25-29 | the forced layer sets exactly field, type, editable and groupable |
| `GroupingColDef.OneCriteriaCommonProperties` | packages/grid/x-data-grid-pro/src/hooks/features/rowGrouping/createGroupingColDef.tsx:171-220 | the common layer of a single-criteria column sets exactly width, renderCell and valueGetter: the width is `OneCriteriaWidth`, and the hooks are the per-row dispatch of `RenderOneCriteriaCell` and `OneCriteriaValue` |
| `GroupingColDef.CreateGroupingColDefForOneGroupingCriteria` | packages/grid/x-data-grid-pro/src/hooks/features/rowGrouping/createGroupingColDef.tsx:160-252 | the per-criteria field, the type, `editable = false` and `groupable = false` always win over the override; every other override property is kept as given |
| `GroupingColDef.OneCriteriaCommonPropertiesKept` | packages/grid/x-data-grid-pro/src/hooks/features/rowGrouping/createGroupingColDef.tsx:245-251 | unless overridden, width, renderCell and valueGetter are the common ones |
| `GroupingColDef.OneCriteriaSourceProperties` | packages/grid/x-data-grid-pro/src/hooks/features/rowGrouping/createGroupingColDef.tsx:230-251 | unless overridden, header name, sort comparator, filter operators and the sortable and filterable flags come from the selected source |
| `GroupingColDef.OneCriteriaColumnHooks` | packages/grid/x-data-grid-pro/src/hooks/features/rowGrouping/createGroupingColDef.tsx:171-220 | unless overridden, the finished single-criteria column has width `OneCriteriaWidth` and renders and yields every row as `RenderOneCriteriaCell` and `OneCriteriaValue` do |
| `GroupingColDef.OneCriteriaColumnFilters` | packages/grid/x-data-grid-pro/src/hooks/features/rowGrouping/createGroupingColDef.tsx:230-237 | unless overridden, the finished single-criteria column's filter operators are the selected source column's, leaf-scoped for the leaf source and criteria-scoped otherwise, or `undefined` when that column has none |
| `GroupingColDef.OneCriteriaKeepsDefaults` | packages/grid/x-data-grid-pro/src/hooks/features/rowGrouping/createGroupingColDef.tsx:20-23 | unless overridden, the single-criteria column has `disableReorder` true and every other string-type property that no later layer sets |
| `GroupingColDef.MainCriteriaComparatorWins` | packages/grid/x-data-grid-pro/src/hooks/features/rowGrouping/createGroupingColDef.tsx:231-232 | with `mainGroupingCriteria` equal to the criteria, two groups of that criteria are ordered by the grouped-by column's comparator, even when a leaf column exists |
| `GroupingColDef.LeafSourceOrdersLeaves` | packages/grid/x-data-grid-pro/src/hooks/features/rowGrouping/createGroupingColDef.tsx:233-234 | with a leaf column and no matching main criteria, two null leaves are ordered by the leaf comparator; a leaf without `sortable` makes `sortable` undefined |
| `GroupingColDef.AllCriteriaCommonProperties` | packages/grid/x-data-grid-pro/src/hooks/features/rowGrouping/createGroupingColDef.tsx:284-328 | the common layer of the all-criteria column sets exactly headerName (the localized label), width (`AllCriteriaWidth`), and renderCell and valueGetter (the dispatch of `RenderAllCriteriaCell` and `AllCriteriaValue`) |
| `GroupingColDef.CreateGroupingColDefForAllGroupingCriteria` | packages/grid/x-data-grid-pro/src/hooks/features/rowGrouping/createGroupingColDef.tsx:273-363 | the single grouping field, the type, `editable = false` and `groupable = false` always win over the override; every other override property is kept as given |
| `GroupingColDef.AllCriteriaHeaderName` | packages/grid/x-data-grid-pro/src/hooks/features/rowGrouping/createGroupingColDef.tsx:343-347 | with no directives and no header override, the header is the only grouped-by column's header for a model of length 1, and the localized label for a longer model |
| `GroupingColDef.AllCriteriaProperties` | packages/grid/x-data-grid-pro/src/hooks/features/rowGrouping/createGroupingColDef.tsx:338-362 | unless overridden, the width is the all-criteria width and the comparator is the selected source's: the main criteria's when the model contains it (header and flags: `AllCriteriaColumnHeader`, `AllCriteriaColumnFlags`) |
| `GroupingColDef.AllCriteriaColumnHooks` | packages/grid/x-data-grid-pro/src/hooks/features/rowGrouping/createGroupingColDef.tsx:292-327 | unless overridden, the finished all-criteria column renders and yields every row as `RenderAllCriteriaCell` and `AllCriteriaValue` do |
| `GroupingColDef.AllCriteriaColumnFilters` | packages/grid/x-data-grid-pro/src/hooks/features/rowGrouping/createGroupingColDef.tsx:338-348 | unless overridden, the finished all-criteria column's filter operators are the selected source column's, leaf-scoped for the leaf source and scoped to the source's criteria otherwise, or `undefined` when that column has none |
| `GroupingColDef.AllCriteriaSourceProperties` | packages/grid/x-data-grid-pro/src/hooks/features/rowGrouping/createGroupingColDef.tsx:338-362 | unless overridden, the all-criteria column's comparator, filter operators, `sortable` and `filterable` are the selected source layer's |
| `GroupingColDef.AllCriteriaColumnHeader` | packages/grid/x-data-grid-pro/src/hooks/features/rowGrouping/createGroupingColDef.tsx:338-362 | unless overridden, the header is the source column's for a leaf source, for the main criteria and for a model of one criteria, and the localized label otherwise |
| `GroupingColDef.AllCriteriaColumnFlags` | packages/grid/x-data-grid-pro/src/hooks/features/rowGrouping/createGroupingColDef.tsx:338-348 | unless overridden, `sortable` and `filterable` are the selected source column's, `undefined` kept: the leaf column's or the main criteria's when those win |
| `GroupingColDef.AllCriteriaKeepsDefaults` | packages/grid/x-data-grid-pro/src/hooks/features/rowGrouping/createGroupingColDef.tsx:20-23 | unless overridden, the all-criteria column has `disableReorder` true and every other string-type property that no later layer sets |
| `NumericOperators.ParseNumericValue` | packages/grid/x-data-grid/src/colDef/gridNumericOperators.ts:7-13 | null and undefined become null, never 0; other values become `Number(value)` |
| `NumericOperators.ParsedStrictEquals` | packages/grid/x-data-grid/src/colDef/gridNumericOperators.ts:24-41 | a parsed missing value equals only `null`; a parsed number equals only the same finite number, so NaN never matches |
| `NumericOperators.CompareCell` | packages/grid/x-data-grid/src/colDef/gridNumericOperators.ts:24-116 | a missing cell satisfies only `!=`; `=` holds exactly when the filter value is the cell's finite number; `>`, `>=`, `<` and `<=` compare the coerced numbers and are false with NaN |
| `NumericOperators.GetApplyFilterFn` | packages/grid/x-data-grid/src/colDef/gridNumericOperators.ts:19-147 | a predicate exists always for the emptiness tests, for a non-empty list with `isAnyOf`, and for a value neither missing nor NaN with a comparison; each predicate depends only on the cell's value, and a comparison's predicate is its verdict |
| `NumericOperators.GetGridNumericOperators` | packages/grid/x-data-grid/src/colDef/gridNumericOperators.ts:15-152 | exactly nine operators in the order `=`, `!=`, `>`, `>=`, `<`, `<=`, `isEmpty`, `isNotEmpty`, `isAnyOf`; the first six labelled with their tag; each with its factory |
| `NumericOperators.ApplicabilityOfComparisons` | packages/grid/x-data-grid/src/colDef/gridNumericOperators.ts:19-22 | each of the six comparisons gives a predicate exactly when the filter value is neither missing nor NaN; `isEmpty` and `isNotEmpty` always give one |
| `NumericOperators.EqualsMeaning` | packages/grid/x-data-grid/src/colDef/gridNumericOperators.ts:24-26 | `=` holds exactly when the cell is present and the filter value is the cell's finite number; a missing cell never matches |
| `NumericOperators.NotEqualsNegatesEquals` | packages/grid/x-data-grid/src/colDef/gridNumericOperators.ts:31-45 | `!=` is applicable exactly when `=` is, and is then its exact negation |
| `NumericOperators.InequalityMeaning` | packages/grid/x-data-grid/src/colDef/gridNumericOperators.ts:46-121 | `>`, `>=`, `<` and `<=` are false for a missing cell and whenever NaN is involved; otherwise they compare the cell's number with the filter's |
| `NumericOperators.ComparisonsAreConsistent` | packages/grid/x-data-grid/src/colDef/gridNumericOperators.ts:15-121 | for a numeric cell and filter, `>=` is `>` or `=`, `<` is not `>=`, `<=` is not `>`, and `!=` is `<` or `>` |
| `NumericOperators.EmptinessOperators` | packages/grid/x-data-grid/src/colDef/gridNumericOperators.ts:122-137 | `isEmpty` always applies and holds exactly for a null or undefined cell; `isNotEmpty` is its negation |
| `NumericOperators.IsAnyOfMeaning` | packages/grid/x-data-grid/src/colDef/gridNumericOperators.ts:140-147 | applicable exactly for a non-empty list; holds exactly when the cell is present and its number is in the list |
| `NumericOperators.IsAnyOfSingletonIsEquals` | packages/grid/x-data-grid/src/colDef/gridNumericOperators.ts:140-147 | a one-element list holding a finite number selects the same cells as `=` with that number |
| `NumericOperators.IsAnyOfFindsNaN` | packages/grid/x-data-grid/src/colDef/gridNumericOperators.ts:146 | `[NaN]` matches a non-numeric string cell, because `includes` finds NaN; `=` with NaN is inapplicable |
| `NumericOperators.NullCellAgainstFive` | packages/grid/x-data-grid/src/colDef/gridNumericOperators.ts:24-41 | a null cell against filter value 5: `=` is false and `!=` is true |
| `BooleanOperators.GetGridBooleanOperators` | packages/grid/x-data-grid/src/colDef/gridBooleanOperators.ts:5-20 | exactly one operator, tagged `is` and without a label, with the `is` factory |
| `BooleanOperators.FilterValueAsBoolean` | packages/grid/x-data-grid/src/colDef/gridBooleanOperators.ts:13 | only the string `"true"` reads as true, so a value read as true is truthy, and boolean `true` or 1 read as false |
| `BooleanOperators.GetApplyIsFilterFn` | packages/grid/x-data-grid/src/colDef/gridBooleanOperators.ts:9-17 | no predicate exactly for a falsy filter value; otherwise a predicate that depends only on the cell's truthiness and holds when it equals the filter value read as a boolean |
| `BooleanOperators.IsApplicability` | packages/grid/x-data-grid/src/colDef/gridBooleanOperators.ts:9-11 | a predicate exists exactly for a truthy filter value; null, undefined and "" give none |
| `BooleanOperators.IsMeaning` | packages/grid/x-data-grid/src/colDef/gridBooleanOperators.ts:13-16 | the predicate holds exactly when the cell's truthiness equals "the filter value is the string `true`" (so `"false"`, `"yes"` or 1 all mean false) |
| `BooleanOperators.TrueAndFalseAreComplementary` | packages/grid/x-data-grid/src/colDef/gridBooleanOperators.ts:13-16 | the predicates for `"true"` and `"false"` are complementary on every cell |
| `BooleanOperators.TrueKeepsOne` | packages/grid/x-data-grid/src/colDef/gridBooleanOperators.ts:14-16 | filter value `"true"` keeps a cell holding 1 |

## Left out

- JSX rendering and the two cell components. `renderCell` returns a tag
  (`Markup`, `LeafCell`, `GroupingCriteriaCell`, `EmptyString`).
- `getLocaleText('groupingColumnHeaderName')`. It is the parameter
  `localeHeaderName`.
- `GRID_STRING_COL_DEF`, its width, `getRowGroupingFieldFromGroupingCriteria`
  and `GRID_ROW_GROUPING_SINGLE_GROUPING_FIELD`. They are defined in files
  outside this model, so they are fields of the parameter `GridConstants`.
  The source reads the string type's width from `GRID_STRING_COL_DEF` both
  as the default layer and as the fallback width. The model keeps the two
  apart (`stringColDef` and `stringColWidth`) and does not require
  `stringColDef` to hold `stringColWidth` as its width.
- `gridRowGroupingSanitizedModelSelector`. The model it returns is the
  field `GridApi.groupingModel` of the cell parameters.
- `api.getCellParams`. It is modelled as the same cell parameters with the
  leaf field and that cell's value. Its other fields (formatted value,
  column, cell mode) are not modelled.
- The `column` argument of `getApplyFilterFn`. The scoped wrappers pass it
  through unchanged, and the numeric and boolean factories ignore it.
- The filter operators' `InputComponent`/`InputComponentProps` UI metadata.
- The deprecated `getGridNumericColumnOperators` alias, which only adds a
  console warning.
- Floating-point numbers. A number is a finite integer or NaN. Fractions,
  infinities and -0 are not modelled.
- Exact `Number(string)` coercion. The model maps "" to 0, a string of decimal
  digits to its value, and any other string to NaN. It does not trim
  whitespace and does not accept signs, decimals, exponents or hex.
- Plain objects as cell or filter values. `JsValue` has no object case, so
  a value such as `{}` cannot be given. Where only truthiness matters, an
  `Array` stands in: both are truthy.
- `Number(array)`. The model maps every array to NaN. In JavaScript an
  array converts through its string form (`[5]` is 5, `[]` is 0).
- The source's crash paths are preconditions.
  - The all-criteria synthesizer requires every criteria of the model to be in
    the lookup. It also requires a non-empty model unless a leaf column
    supplies the source, because otherwise the source dereferences
    `undefined`.
  - Lookup columns always carry a sort comparator. The source calls it with
    `!`, and hydrated columns inherit their type's comparator.
  - `renderCell`, filter predicates and comparators always receive a row
    node. Only `valueGetter` checks for a missing row node.
- The order of an object's keys. A column definition is a map, and only the
  values of its keys are modelled.
- `packages/grid/x-data-grid/src/models/params/gridRowParams.ts`. It holds
  only type declarations.
