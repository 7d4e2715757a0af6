/**
 * The pure display rules of the credit-card screen: how an array value is
 * truncated, how a scalar value is turned into text, how a schedule is
 * described, when scrolling asks for more rows, and how a row is highlighted.
 */
module Display {
  import opened Opt

  // ---------------------------------------------------------------------
  // Array values

  /** What `Value` renders for an array: "(empty)", a single bracketed item,
      or a list of displayed items followed, when some are hidden, by an
      "N more items..." link. */
  datatype ArrayShown<T> = EmptyArray | OneItem(item: T) | Items(displayed: seq<T>, numHidden: nat)

  /** Longest array shown in full before the "more" link is offered. */
  const FullListLimit := 4
  /** Items shown when an array is cut short. */
  const TruncatedCount := 3

  function ShowArray<T>(value: seq<T>, expanded: bool): (r: ArrayShown<T>)
    ensures r.EmptyArray? <==> |value| == 0
    ensures r.OneItem? <==> |value| == 1
    ensures r.OneItem? ==> r.item == value[0]
    ensures r.Items? <==> |value| >= 2
    // the displayed items are the first ones, and the count of the rest is what the link says
    ensures r.Items? ==> r.displayed <= value && |r.displayed| + r.numHidden == |value|
    ensures r.Items? ==> (r.numHidden > 0 <==> !expanded && |value| > FullListLimit)
    ensures r.Items? && r.numHidden > 0 ==> |r.displayed| == TruncatedCount
    // the link never offers a single hidden item
    ensures r.Items? ==> r.numHidden != 1
  {
    if |value| == 0 then EmptyArray
    else if |value| == 1 then OneItem(value[0])
    else
      var displayed := if !expanded && |value| > FullListLimit then value[..TruncatedCount] else value;
      Items(displayed, |value| - |displayed|)
  }

  /** Clicking "more items..." expands the value: every item is shown. */
  lemma ExpandShowsAll<T>(value: seq<T>)
    requires |value| >= 2
    ensures ShowArray(value, true) == Items(value, 0)
  {
  }

  /** Which displayed items are followed by a comma. The source compares the
      item's index with the length of the whole array, not of the displayed
      part, so the last item before a "more" link keeps its comma. */
  function Commas(valueLength: nat, shown: nat): (c: seq<bool>)
    requires shown <= valueLength
    ensures |c| == shown
    ensures shown < valueLength ==> forall i :: 0 <= i < shown ==> c[i]
    ensures 0 < shown == valueLength ==> !c[shown - 1] && forall i :: 0 <= i < shown - 1 ==> c[i]
  {
    seq(shown, i requires 0 <= i < shown => i != valueLength - 1)
  }

  // ---------------------------------------------------------------------
  // Scalar values

  /** A scalar value of an action. */
  datatype Raw = Null | Str(s: string) | Bool(b: bool) | Num(n: int)

  /** What `formatValue` yields: a fixed text, the value itself, a call into a
      formatter outside this model (currency or date), nothing (`null`), or
      the "Unknown field" error it throws. */
  datatype Formatted = Text(text: string) | AsIs(v: Raw) | ViaFormatter(kind: string, v: Raw) | NoText | UnknownField(field: string)

  function Truthy(v: Raw): bool {
    match v
    case Null => false
    case Str(s) => s != ""
    case Bool(b) => b
    case Num(n) => n != 0
  }

  /** The fields `formatValue` knows how to show. */
  predicate KnownField(field: string) {
    field in ["amount", "date", "month", "year", "notes", "imported_payee"]
  }

  function FormatValue(v: Raw, field: string): (r: Formatted)
    // missing values are shown as "(nothing)", whatever the field
    ensures (v == Null || v == Str("")) <==> r == Text("(nothing)")
    ensures v.Bool? ==> r == Text(if v.b then "true" else "false")
    // a present, non-boolean value of a field outside the list is an error
    ensures r.UnknownField? <==> v != Null && v != Str("") && !v.Bool? && !KnownField(field)
    ensures r.UnknownField? ==> r.field == field
    // notes and imported payees are shown as they are
    ensures v != Null && v != Str("") && !v.Bool? && field in ["notes", "imported_payee"] ==> r == AsIs(v)
    // only the number 0 can reach the date-like fields falsy, and then nothing is shown
    ensures r == NoText <==> v == Num(0) && field in ["date", "month", "year"]
    // amounts go to the currency formatter, truthy dates, months and years to the date formatter
    ensures v != Null && v != Str("") && !v.Bool? && field == "amount" ==> r == ViaFormatter("amount", v)
    ensures Truthy(v) && !v.Bool? && field in ["date", "month", "year"] ==> r == ViaFormatter(field, v)
  {
    if v == Null || v == Str("") then Text("(nothing)")
    else if v.Bool? then Text(if v.b then "true" else "false")
    else if field == "amount" then ViaFormatter("amount", v)
    else if field == "date" || field == "month" || field == "year" then
      (if Truthy(v) then ViaFormatter(field, v) else NoText)
    else if field == "notes" || field == "imported_payee" then AsIs(v)
    else UnknownField(field)
  }

  /** The field name the schedule value passes down: a scheduled action value
      that is present is never shown, it raises "Unknown field". */
  lemma ScheduleValueRaises(v: Raw)
    requires v != Null && v != Str("") && !v.Bool?
    ensures FormatValue(v, "creditCard") == UnknownField("creditCard")
  {
  }

  /** `describeSchedule`: the payee's name with the next date in parentheses,
      or "Next: " and the date when the payee is unknown. */
  function DescribeSchedule(payeeName: Option<string>, nextDate: string): (d: string)
    ensures payeeName.Some? ==> payeeName.value <= d && d[|payeeName.value|..] == " (" + nextDate + ")"
    ensures payeeName.None? ==> "Next: " <= d && d[6..] == nextDate
  {
    match payeeName
    case Some(name) => name + " (" + nextDate + ")"
    case None => "Next: " + nextDate
  }

  // ---------------------------------------------------------------------
  // Infinite scroll

  /** Distance from the end of the rendered content at which more rows are asked for. */
  const LoadMoreDistance := 750

  /** `onScroll`: ask for more only once the content height has been measured,
      when a `loadMore` handler is present, and when the scroll position is
      strictly past the content height less the distance. */
  function ShouldLoadMore(contentHeight: Option<int>, hasLoadMore: bool, scrollTop: int): (fire: bool)
    ensures fire ==> contentHeight.Some? && hasLoadMore
    ensures contentHeight.Some? && hasLoadMore ==> (fire <==> scrollTop > contentHeight.value - LoadMoreDistance)
  {
    contentHeight.Some? && hasLoadMore && scrollTop > contentHeight.value - LoadMoreDistance
  }

  /** Scrolling further down never turns the trigger off. */
  lemma LoadMoreMonotone(contentHeight: Option<int>, hasLoadMore: bool, s1: int, s2: int)
    requires s1 <= s2 && ShouldLoadMore(contentHeight, hasLoadMore, s1)
    ensures ShouldLoadMore(contentHeight, hasLoadMore, s2)
  {
  }

  // ---------------------------------------------------------------------
  // Row highlighting

  /** The table navigator's editing cell: the card id and the focused field name. */
  datatype Focus = Focus(id: string, field: string)

  datatype Background = SelectedBackground | HoverBackground | PlainBackground

  /** How a card row looks: highlighted border, background, raised above its
      neighbours (z-index 101), select checkbox exposed, which cell is focused. */
  datatype RowLook = RowLook(
    highlightBorder: bool,
    background: Background,
    raised: bool,
    selectExposed: bool,
    selectFocused: bool,
    editFocused: bool)

  const PlainRow := RowLook(false, PlainBackground, false, false, false, false)

  /** The decision table of the `CreditCard` row. */
  function RowLookOf(hovered: bool, selected: bool, editing: bool, focusedField: Option<string>): (look: RowLook)
    ensures look.highlightBorder == selected
    // selection wins over hover and focus
    ensures look.background == SelectedBackground <==> selected
    ensures look.background == HoverBackground <==> !selected && (hovered || focusedField == Some("select"))
    ensures look.raised <==> editing || selected
    // a raised row always shows its checkbox
    ensures look.raised ==> look.selectExposed
    ensures look.selectExposed <==> hovered || selected || editing
    ensures look.selectFocused <==> focusedField == Some("select")
    ensures look.editFocused <==> focusedField == Some("edit")
  {
    var backgroundFocus := hovered || focusedField == Some("select");
    RowLook(
      selected,
      if selected then SelectedBackground else if backgroundFocus then HoverBackground else PlainBackground,
      editing || selected,
      hovered || selected || editing,
      focusedField == Some("select"),
      focusedField == Some("edit"))
  }

  /** The flags `CreditCardsList` passes each row: hovered and editing compare
      ids, selected is membership, and the focused field is passed only to the
      row being edited. */
  function ListRowLook(id: string, hoveredId: Option<string>, selection: set<string>, editing: Option<Focus>): (look: RowLook)
    ensures look.highlightBorder <==> id in selection
    ensures look.background == SelectedBackground <==> id in selection
    ensures look.background == HoverBackground <==>
      id !in selection && (hoveredId == Some(id) || editing == Some(Focus(id, "select")))
    ensures look.raised <==> id in selection || (editing.Some? && editing.value.id == id)
    ensures look.selectExposed <==> hoveredId == Some(id) || id in selection || (editing.Some? && editing.value.id == id)
    ensures look.selectFocused <==> editing == Some(Focus(id, "select"))
    ensures look.editFocused <==> editing == Some(Focus(id, "edit"))
  {
    var isEditing := editing.Some? && editing.value.id == id;
    RowLookOf(hoveredId == Some(id), id in selection, isEditing, if isEditing then Some(editing.value.field) else None)
  }

  /** A card that is not hovered, not selected and not being edited is drawn plain. */
  lemma UninvolvedRowIsPlain(id: string, hoveredId: Option<string>, selection: set<string>, editing: Option<Focus>)
    requires hoveredId != Some(id) && id !in selection && (editing.None? || editing.value.id != id)
    ensures ListRowLook(id, hoveredId, selection, editing) == PlainRow
  {
  }

  /** Only the row being edited can show a focused cell. */
  lemma FocusOnlyOnEditedRow(id: string, hoveredId: Option<string>, selection: set<string>, editing: Option<Focus>)
    requires ListRowLook(id, hoveredId, selection, editing).selectFocused || ListRowLook(id, hoveredId, selection, editing).editFocused
    ensures editing.Some? && editing.value.id == id
  {
  }
}
