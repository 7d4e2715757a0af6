# Credit-card list screen: a verified model

This project models the "manage credit cards" screen of a personal-finance
desktop client (`ManageCreditCards.js`). The screen fetches the whole list of
credit cards once and reveals it in a growing window: the first 100 cards,
then 50 more each time the table is scrolled near its end. A text filter keeps
the revealed cards whose id contains the typed text, ignoring letter case. A
bulk delete, an edit-save and a create-save each refetch the list and then
re-derive how many cards to reveal. The model also covers the pure display
rules of the same file: array values cut short behind an "N more items..."
link, scalar value formatting, the scroll trigger, and row highlighting.

Modules, leaves first:

- `Opt`: `Option`, standing for JavaScript's `null` next to a value.
- `JsArray`: `Array.prototype.slice` with its negative-index and clamping
  rules, so the window rules can be written exactly as the code writes them.
- `Cards`: the card record and `findIndex` by id (`IndexOfId`, -1 when absent).
- `CardFilter`: ASCII lowercasing, `includes`, the per-card test, the filter
  and the memoised `filteredCreditCards`.
- `Window`: the window rule of each handler, written with `slice` and
  `findIndex`, with its contract saying which prefix it yields.
- `Display`: array truncation, `formatValue`, `describeSchedule`, the
  `onScroll` trigger and the row decision table.
- `Controller`: the class `ListController` with one method per handler. The
  backend's answers (the refetched list, the `someDeletionsFailed` flag) are
  parameters. The `alert` comes back as an output flag. `Valid()` says the
  window is always a prefix of the fetched list, and every handler keeps it.

Behaviour worth knowing, all proved:

- Create-save reveals `min(idx + 75, |list|)` cards whatever the old window
  was. When the saved id is absent (`idx = -1`) that is `min(74, |list|)`.
  It does not fall back to the old window length.
- Edit-save expands only when the saved card's index is strictly greater
  than the old window length. A card that lands exactly at that index stays
  hidden (`Window.EditedCardAtBoundaryHidden`). A found card at any other
  index is shown (`Window.EditedCardShown`).
- The filter works inside the revealed window. Its result is a prefix of
  what filtering the whole list would give (`CardFilter.FilterOfPrefix`).
  So matching cards further down stay hidden until the window grows.
- `ScheduleValue` passes the field name `creditCard`, which `formatValue`
  does not know. Any present, non-boolean scalar scheduled value therefore
  raises "Unknown field" (`Display.ScheduleValueRaises`). An empty array
  still shows "(empty)" without formatting anything. The `data`, `describe`
  and `valueIsRaw` props of `Value` are never used, so `describeSchedule`
  has no effect on what is shown.

## Model

| member | source | states |
|---|---|---|
| JsArray.Slice | packages/desktop-client/src/components/ManageCreditCards.js:588-593 | `slice` with non-negative bounds clamps both to the length; a negative end drops that many elements from the back; an empty range gives nothing |
| JsArray.SliceFromZero | packages/desktop-client/src/components/ManageCreditCards.js:505 | `slice(0, n)` for n >= 0 is the prefix of length min(n, length) |
| Cards.IndexOfId | packages/desktop-client/src/components/ManageCreditCards.js:554-556 | `findIndex` by id gives the first index holding the id, or -1 exactly when no card has it |
| CardFilter.Lower | packages/desktop-client/src/components/ManageCreditCards.js:484 | lowercasing keeps the length and maps every character through ASCII lowercasing |
| CardFilter.LowerIdempotent | packages/desktop-client/src/components/ManageCreditCards.js:484 | lowercasing twice equals lowercasing once |
| CardFilter.IncludesAt | packages/desktop-client/src/components/ManageCreditCards.js:484 | `includes` holds exactly when some suffix of the text starts with the searched text |
| CardFilter.Matches | packages/desktop-client/src/components/ManageCreditCards.js:484 | a card matches exactly when its lowercased id has a suffix starting with the lowercased filter text |
| CardFilter.FilterById | packages/desktop-client/src/components/ManageCreditCards.js:483-485 | the filtered list is no longer than the window, and each kept card is a window card that matches |
| CardFilter.Visible | packages/desktop-client/src/components/ManageCreditCards.js:479-487 | a null window stays null; an empty filter returns the window unchanged; in every non-null case the result is the window filtered (the shortcut agrees with filtering by "") |
| CardFilter.FilterByEmpty | packages/desktop-client/src/components/ManageCreditCards.js:481-482 | filtering by the empty text keeps every card |
| CardFilter.FilterIsSubsequence | packages/desktop-client/src/components/ManageCreditCards.js:483-485 | the filtered list is an order-preserving subsequence of the window |
| CardFilter.FilterCounts | packages/desktop-client/src/components/ManageCreditCards.js:483-485 | each matching card occurs as often as in the window; a non-matching card does not occur |
| CardFilter.FilterMembership | packages/desktop-client/src/components/ManageCreditCards.js:483-485 | a card is shown if and only if it is in the window and matches |
| CardFilter.FilterKeepsAllMatching | packages/desktop-client/src/components/ManageCreditCards.js:483-485 | a window whose cards all match is returned unchanged |
| CardFilter.FilterIdempotent | packages/desktop-client/src/components/ManageCreditCards.js:479-487 | filtering twice gives the same result as filtering once |
| CardFilter.FilterAppend | packages/desktop-client/src/components/ManageCreditCards.js:483-485 | filtering distributes over concatenation |
| CardFilter.FilterOfPrefix | packages/desktop-client/src/components/ManageCreditCards.js:481-485 | the filtered window is a prefix of the filtered full list, so only revealed cards can be shown |
| CardFilter.FilterIgnoresCase | packages/desktop-client/src/components/ManageCreditCards.js:484 | two filter texts that lowercase alike select the same cards |
| CardFilter.OwnIdMatches | packages/desktop-client/src/components/ManageCreditCards.js:484 | a card's own id typed in any letter case matches it |
| Window.InitialWindow | packages/desktop-client/src/components/ManageCreditCards.js:505 | the first window is the prefix of the fetched list of length min(100, length) |
| Window.LoadMoreWindow | packages/desktop-client/src/components/ManageCreditCards.js:520-526 | load-more keeps every shown card; it is a no-op once the window reaches the list's length; from a prefix of length n it gives the prefix of length min(n + 50, length) |
| Window.DeleteWindow | packages/desktop-client/src/components/ManageCreditCards.js:539-541 | after a delete the window is the prefix of the refetched list of length min(old length, new length) |
| Window.EditSaveWindow | packages/desktop-client/src/components/ManageCreditCards.js:553-563 | after an edit-save the window is a prefix of the refetched list: of length min(idx + 75, new length) when idx is strictly greater than the old length, otherwise min(old length, new length) |
| Window.CreateSaveWindow | packages/desktop-client/src/components/ManageCreditCards.js:588-593 | after a create-save the window is the prefix of length min(idx + 75, new length) whatever the old window was; an absent id gives min(74, new length) |
| Window.EditedCardShown | packages/desktop-client/src/components/ManageCreditCards.js:553-563 | a found edited card whose index differs from the old window length is inside the new window |
| Window.EditedCardAtBoundaryHidden | packages/desktop-client/src/components/ManageCreditCards.js:558-562 | an edited card at index equal to the old window length does not expand the window, so no shown card has its id |
| Window.CreatedCardShown | packages/desktop-client/src/components/ManageCreditCards.js:588-593 | a found created card is always inside the new window |
| Window.LoadMoreStepsGrowPrefix | packages/desktop-client/src/components/ManageCreditCards.js:520-526 | k load-more steps from a prefix of length n give a prefix of length min(n + 50k, length) |
| Window.LoadedThenScrolled | packages/desktop-client/src/components/ManageCreditCards.js:502-526 | after the first load and k load-more steps the window is the prefix of length min(100 + 50k, length) |
| Window.LoadMoreClampsAtEnd | packages/desktop-client/src/components/ManageCreditCards.js:520-526 | with 120 cards the first window holds 100 and one load-more reveals all 120, not 150 |
| Window.CreateNearEnd | packages/desktop-client/src/components/ManageCreditCards.js:588-593 | a created card at index 119 of 150 reveals the whole list |
| Window.EditInsideWindow | packages/desktop-client/src/components/ManageCreditCards.js:558-562 | an edited card at index 10 with 50 revealed keeps the window at 50 |
| Display.ShowArray | packages/desktop-client/src/components/ManageCreditCards.js:131-146 | an empty array shows "(empty)", a single one its item; otherwise the displayed items are a prefix and displayed + hidden = length; items are hidden exactly when not expanded and longer than 4, and then exactly 3 are shown; the link never says 1 more |
| Display.ExpandShowsAll | packages/desktop-client/src/components/ManageCreditCards.js:89-146 | once expanded, an array of two or more items is shown whole with nothing hidden |
| Display.Commas | packages/desktop-client/src/components/ManageCreditCards.js:168 | when items are hidden every displayed item keeps its comma; when all are shown only the last lacks one |
| Display.FormatValue | packages/desktop-client/src/components/ManageCreditCards.js:96-128 | missing values show "(nothing)"; booleans show true/false; amounts go to the currency formatter; truthy dates, months and years go to the date formatter, a falsy one shows nothing; notes and imported payees show as they are; any other present value of an unknown field raises "Unknown field" |
| Display.ScheduleValueRaises | packages/desktop-client/src/components/ManageCreditCards.js:206-218 | the field name the schedule value passes makes every present non-boolean value raise "Unknown field" |
| Display.DescribeSchedule | packages/desktop-client/src/components/ManageCreditCards.js:198-204 | with a payee the text is its name followed by the next date in parentheses; without one it is "Next: " followed by the date (the text is never displayed, since `Value` ignores its `describe` prop) |
| Display.ShouldLoadMore | packages/desktop-client/src/components/ManageCreditCards.js:362-368 | loading more needs a measured content height and a handler, and then fires exactly when scrollTop > height - 750 |
| Display.LoadMoreMonotone | packages/desktop-client/src/components/ManageCreditCards.js:362-368 | scrolling further down never turns the trigger off |
| Display.RowLookOf | packages/desktop-client/src/components/ManageCreditCards.js:267-289 | selection alone decides the border and wins the background; hover or a focused checkbox gives the hover background; editing or selection raises the row; a raised row always exposes its checkbox |
| Display.ListRowLook | packages/desktop-client/src/components/ManageCreditCards.js:441-453 | a row is selected-looking exactly when its id is in the selection; hovered and editing compare ids; the checkbox or edit cell is focused only when the navigator edits that field of that card |
| Display.UninvolvedRowIsPlain | packages/desktop-client/src/components/ManageCreditCards.js:441-453 | a card that is not hovered, selected or edited is drawn entirely plain |
| Display.FocusOnlyOnEditedRow | packages/desktop-client/src/components/ManageCreditCards.js:444-453 | only the row being edited can show a focused cell |
| Controller.SpreadIds | packages/desktop-client/src/components/ManageCreditCards.js:530-532 | the delete request holds exactly the selected ids, each once |
| Controller.ListController.constructor | packages/desktop-client/src/components/ManageCreditCards.js:465-467 | before any fetch both lists are null, the filter is empty and nothing is selected, hovered, edited or marked |
| Controller.ListController.Mount | packages/desktop-client/src/components/ManageCreditCards.js:511 | mounting sets the undo marker to the screen's name and changes nothing else |
| Controller.ListController.Unmount | packages/desktop-client/src/components/ManageCreditCards.js:515-517 | unmounting clears the undo marker and changes nothing else |
| Controller.ListController.DataLoaded | packages/desktop-client/src/components/ManageCreditCards.js:502-506 | the first fetch becomes the full list and its first 100 cards the window; the prefix invariant holds |
| Controller.ListController.LoadMore | packages/desktop-client/src/components/ManageCreditCards.js:520-526 | the window grows to min(n + 50, length), keeps its shown cards and stays a prefix; nothing else changes |
| Controller.ListController.OnScroll | packages/desktop-client/src/components/ManageCreditCards.js:362-368 | a scroll runs load-more exactly when the trigger fires and otherwise changes nothing |
| Controller.ListController.SetFilter | packages/desktop-client/src/components/ManageCreditCards.js:643-646 | typing replaces the filter text and ends editing; the lists are untouched |
| Controller.ListController.EditCell | packages/desktop-client/src/components/ManageCreditCards.js:288 | a row cell (the checkbox here, the Edit button at line 342) makes the navigator edit that field of that card; nothing else changes |
| Controller.ListController.SetHovered | packages/desktop-client/src/components/ManageCreditCards.js:601-603 | hovering records the row's id (or none) and changes nothing else |
| Controller.ListController.SelectionChanged | packages/desktop-client/src/components/ManageCreditCards.js:488 | the selection becomes what the selection hook reports |
| Controller.ListController.DeleteSelected | packages/desktop-client/src/components/ManageCreditCards.js:528-544 | exactly the selected ids are sent; the alert is raised iff some deletions failed and the refresh happens anyway; the window keeps its length clamped to the refetched list; the selection ends empty |
| Controller.ListController.EditSaved | packages/desktop-client/src/components/ManageCreditCards.js:546-569 | the refetched list replaces the full list and the window follows the edit-save rule; the prefix invariant holds |
| Controller.ListController.CreateSaved | packages/desktop-client/src/components/ManageCreditCards.js:571-599 | the refetched list replaces the full list, the new card's edit cell is focused and the window follows the create-save rule |
| Controller.ListController.Shown | packages/desktop-client/src/components/ManageCreditCards.js:479-487 | the shown cards are an order-preserving subsequence of the window, each matching the filter, and every matching window card is shown; an empty filter shows the whole window; null only while the window is |
| Controller.ListController.DeleteButton | packages/desktop-client/src/components/ManageCreditCards.js:689-693 | the delete button is offered exactly when the selection is non-empty, with the selection's size as its count |
| Controller.ListController.RowLookFor | packages/desktop-client/src/components/ManageCreditCards.js:441-453 | a row has the selected background exactly when its card is selected; a focused cell appears only on the edited card's row |
| Controller.ScreenSession | packages/desktop-client/src/components/ManageCreditCards.js:502-518 | across mount, first load, any scrolls and unmount the window never shrinks below the first load nor passes the list's length, and the undo marker ends cleared |

## Left out

- Rendering, JSX, styles, colours and layout: only the decision flags of a row are modelled.
- The backend calls `credit-cards-get` and `credit-card-delete-all`: their answers are method parameters and the request is an output.
- Backend failures: a rejected `send` aborts its handler before the state updates that follow it (the loading flag then stays raised); the model takes only successful answers.
- The loading flag (`setLoading`): each handler is treated as atomic, so it is always false between handlers.
- Asynchronous interleaving, and a fetch that completes after unmount: not modelled, for the same reason.
- `initiallyLoadPayees` and the store's payee, category and account lists: reference data for display only.
- The selection hook `useSelected` (toggle, range and select-all rules): its code is not part of this model; `SelectionChanged` takes whatever set it reports, and delete empties it like `select-none`.
- The table navigator `useTableNavigator`: its code is not part of this model; only the `onEdit` calls made from this file are modelled (a row cell, the created card's edit cell, `null` on a filter change), not its keyboard navigation.
- The defaults a new card's modal is seeded with (lines 572-578: no account, empty processor name, closing day 1, due day 8, limit 0): the modal that uses them is not part of this model.
- Letter case: `toLowerCase` is modelled as ASCII lowercasing, not full Unicode case mapping.
- DOM measurement of the content height: the height and the scroll position are integer parameters.
- Currency and date formatting (`integerToCurrency`, `formatDate`, `getRecurringDescription`) and `mapField`/`friendlyOp`: libraries outside this model; `FormatValue` returns which formatter would be called.
- The "in between" display of a value with `num1` and `num2`: it only formats each bound with `formatValue`, which is modelled.
- The choice of what `ActionExpression` renders for each `op`: rendering only.
- Controller.SpreadIds: the order of the request follows the set's insertion order in the source; the model promises the ids and their number, not their order.
- `EditCreditCard.js` (a modal with fixed options and an empty change handler), `creditcards.ts` (a find-or-insert over the database layer, which is not part of this model) and `ManageCreditCardsPage.js` (a one-component wrapper).
