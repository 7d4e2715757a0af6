/**
 * The list-state controller of the "manage credit cards" screen: the full
 * fetched list, the revealed window (always a prefix of it), the filter text,
 * the selection, the hovered row, the navigator's editing cell and the undo
 * marker. Each handler of the screen is one method; the backend's answers
 * (the refetched list, the partial-failure flag) are its parameters.
 */
module Controller {
  import opened Opt
  import opened Cards
  import opened CardFilter
  import opened Window
  import opened Display

  /** The marker this screen puts in the process-wide undo state while mounted. */
  const ScreenName := "manage-credit-cards"

  /** `[...items]`: the selected ids as a request list, each exactly once. */
  method SpreadIds(items: set<string>) returns (ids: seq<string>)
    ensures forall id :: id in ids <==> id in items
    ensures |ids| == |items|
    ensures forall i, j :: 0 <= i < j < |ids| ==> ids[i] != ids[j]
  {
    ids := [];
    var rest := items;
    while rest != {}
      invariant forall id :: id in items <==> id in rest || id in ids
      invariant forall id :: id in ids ==> id !in rest
      invariant forall i, j :: 0 <= i < j < |ids| ==> ids[i] != ids[j]
      invariant |ids| + |rest| == |items|
      decreases |rest|
    {
      var x :| x in rest;
      ids := ids + [x];
      rest := rest - {x};
    }
    assert rest == {};
  }

  class ListController {
    /** `allCreditCards`: the list as last fetched, `None` before the first fetch. */
    var allCards: Option<seq<Card>>
    /** `creditCards`: the revealed window, `None` until the first load completes. */
    var window: Option<seq<Card>>
    var filter: string
    /** The ids the selection hook holds. */
    var selection: set<string>
    var hovered: Option<string>
    /** The navigator's editing cell. */
    var editing: Option<Focus>
    /** The process-wide "open modal" undo marker. */
    var undoMarker: Option<string>

    /** The window, once there is one, is a prefix of the fetched list. */
    ghost predicate Valid()
      reads this
    {
      window.Some? ==> allCards.Some? && window.value <= allCards.value
    }

    constructor ()
      ensures Valid()
      ensures allCards == None && window == None && filter == ""
      ensures selection == {} && hovered == None && editing == None && undoMarker == None
    {
      allCards, window, filter := None, None, "";
      selection, hovered, editing, undoMarker := {}, None, None, None;
    }

    /** On mount: the screen marks the undo state so that global undo is suppressed. */
    method Mount()
      modifies this
      ensures undoMarker == Some(ScreenName)
      ensures allCards == old(allCards) && window == old(window) && filter == old(filter)
      ensures selection == old(selection) && hovered == old(hovered) && editing == old(editing)
    {
      undoMarker := Some(ScreenName);
    }

    /** On unmount: the marker is cleared. */
    method Unmount()
      modifies this
      ensures undoMarker == None
      ensures allCards == old(allCards) && window == old(window) && filter == old(filter)
      ensures selection == old(selection) && hovered == old(hovered) && editing == old(editing)
    {
      undoMarker := None;
    }

    /** `loadData`: the first fetch arrives; the first 100 cards are revealed. */
    method DataLoaded(fetched: seq<Card>)
      modifies this
      ensures Valid()
      ensures allCards == Some(fetched) && window == Some(InitialWindow(fetched))
      ensures filter == old(filter) && selection == old(selection) && hovered == old(hovered)
      ensures editing == old(editing) && undoMarker == old(undoMarker)
    {
      allCards := Some(fetched);
      window := Some(InitialWindow(fetched));
    }

    /** `loadMore`: reveal up to 50 more cards of the fetched list. */
    method LoadMore()
      requires Valid() && window.Some?
      modifies this
      ensures Valid() && window.Some?
      ensures window == Some(LoadMoreWindow(old(window).value, old(allCards).value))
      ensures old(window).value <= window.value
      ensures |window.value| == JsArray.Min(|old(window).value| + LoadMoreCount, |allCards.value|)
      ensures allCards == old(allCards) && filter == old(filter) && selection == old(selection)
      ensures hovered == old(hovered) && editing == old(editing) && undoMarker == old(undoMarker)
    {
      window := Some(LoadMoreWindow(window.value, allCards.value));
    }

    /** A scroll event of the table: `loadMore` runs exactly when the trigger fires. */
    method OnScroll(contentHeight: Option<int>, scrollTop: int) returns (fired: bool)
      requires Valid() && window.Some?
      modifies this
      ensures Valid() && window.Some?
      ensures fired == ShouldLoadMore(contentHeight, true, scrollTop)
      ensures window == if fired then Some(LoadMoreWindow(old(window).value, old(allCards).value)) else old(window)
      ensures allCards == old(allCards) && filter == old(filter) && selection == old(selection)
      ensures hovered == old(hovered) && editing == old(editing) && undoMarker == old(undoMarker)
    {
      fired := ShouldLoadMore(contentHeight, true, scrollTop);
      if fired {
        LoadMore();
      }
    }

    /** Typing in the filter box: the text changes and the navigator stops editing. */
    method SetFilter(text: string)
      requires Valid()
      modifies this
      ensures Valid()
      ensures filter == text && editing == None
      ensures allCards == old(allCards) && window == old(window) && selection == old(selection)
      ensures hovered == old(hovered) && undoMarker == old(undoMarker)
    {
      filter := text;
      editing := None;
    }

    /** A row cell asks the navigator to edit it: the checkbox (`'select'`)
        or the Edit button (`'edit'`) of the card with that id. */
    method EditCell(id: string, field: string)
      requires Valid()
      modifies this
      ensures Valid()
      ensures editing == Some(Focus(id, field))
      ensures allCards == old(allCards) && window == old(window) && filter == old(filter)
      ensures selection == old(selection) && hovered == old(hovered) && undoMarker == old(undoMarker)
    {
      editing := Some(Focus(id, field));
    }

    /** Mouse enters a row (`Some(id)`) or leaves it (`None`). */
    method SetHovered(id: Option<string>)
      requires Valid()
      modifies this
      ensures Valid()
      ensures hovered == id
      ensures allCards == old(allCards) && window == old(window) && filter == old(filter)
      ensures selection == old(selection) && editing == old(editing) && undoMarker == old(undoMarker)
    {
      hovered := id;
    }

    /** The selection hook reports a new set of selected ids. */
    method SelectionChanged(items: set<string>)
      requires Valid()
      modifies this
      ensures Valid()
      ensures selection == items
      ensures allCards == old(allCards) && window == old(window) && filter == old(filter)
      ensures hovered == old(hovered) && editing == old(editing) && undoMarker == old(undoMarker)
    {
      selection := items;
    }

    /** `onDeleteSelected`: the selected ids are sent for deletion, a partial
        failure raises the alert but does not stop the refresh, the window keeps
        its length clamped to the refetched list, and the selection is emptied. */
    method DeleteSelected(someDeletionsFailed: bool, refetched: seq<Card>) returns (request: seq<string>, alerted: bool)
      requires Valid() && window.Some?
      modifies this
      ensures Valid()
      ensures forall id :: id in request <==> id in old(selection)
      ensures |request| == |old(selection)|
      ensures alerted == someDeletionsFailed
      ensures allCards == Some(refetched)
      ensures window == Some(DeleteWindow(old(window).value, refetched))
      ensures selection == {}
      ensures filter == old(filter) && hovered == old(hovered) && editing == old(editing)
      ensures undoMarker == old(undoMarker)
    {
      request := SpreadIds(selection);
      alerted := someDeletionsFailed;
      allCards := Some(refetched);
      window := Some(DeleteWindow(window.value, refetched));
      selection := {};
    }

    /** The edit modal's `onSave` for an existing card. */
    method EditSaved(savedId: string, refetched: seq<Card>)
      requires Valid() && window.Some?
      modifies this
      ensures Valid()
      ensures allCards == Some(refetched)
      ensures window == Some(EditSaveWindow(old(window).value, refetched, savedId))
      ensures filter == old(filter) && selection == old(selection) && hovered == old(hovered)
      ensures editing == old(editing) && undoMarker == old(undoMarker)
    {
      allCards := Some(refetched);
      window := Some(EditSaveWindow(window.value, refetched, savedId));
    }

    /** The create modal's `onSave`: the navigator moves to the new card's edit
        cell and the window is recomputed from the new card's index alone. */
    method CreateSaved(savedId: string, refetched: seq<Card>)
      modifies this
      ensures Valid()
      ensures allCards == Some(refetched)
      ensures window == Some(CreateSaveWindow(refetched, savedId))
      ensures editing == Some(Focus(savedId, "edit"))
      ensures filter == old(filter) && selection == old(selection) && hovered == old(hovered)
      ensures undoMarker == old(undoMarker)
    {
      allCards := Some(refetched);
      editing := Some(Focus(savedId, "edit"));
      window := Some(CreateSaveWindow(refetched, savedId));
    }

    /** `filteredCreditCards`: what the table shows. Every shown card is a
        revealed card, so a card beyond the window is never shown. */
    function Shown(): (r: Option<seq<Card>>)
      reads this
      ensures r.None? <==> window.None?
      ensures r.Some? ==> forall c :: c in r.value ==> c in window.value && Matches(c, filter)
      ensures r.Some? ==> IsSubsequence(r.value, window.value)
      // and every matching revealed card is shown: an empty filter shows the whole window
      ensures r.Some? ==> forall c :: c in window.value && Matches(c, filter) ==> c in r.value
      ensures filter == "" ==> r == window
    {
      if window.None? then None
      else
        FilterIsSubsequence(window.value, filter);
        assert forall c :: c in window.value && Matches(c, filter) ==> c in FilterById(window.value, filter) by {
          forall c | c in window.value && Matches(c, filter) ensures c in FilterById(window.value, filter) {
            FilterMembership(window.value, filter, c);
          }
        }
        Visible(window, filter)
    }

    /** The header checkbox is ticked and the "Delete N cards" button is shown
        exactly when something is selected; N is the selection's size. */
    function DeleteButton(): (count: Option<nat>)
      reads this
      ensures count.Some? <==> selection != {}
      ensures count.Some? ==> count.value == |selection| && count.value > 0
    {
      if |selection| > 0 then Some(|selection|) else None
    }

    /** How the row of a card looks, from the controller's hover, selection and editing state. */
    function RowLookFor(c: Card): (look: RowLook)
      reads this
      ensures look.background == SelectedBackground <==> c.id in selection
      ensures look.selectFocused || look.editFocused ==> editing.Some? && editing.value.id == c.id
    {
      ListRowLook(c.id, hovered, selection, editing)
    }
  }

  /** Mount, first load, a burst of scrolls and unmount: the window stays a
      prefix throughout and the undo marker brackets the screen's lifetime. */
  method ScreenSession(fetched: seq<Card>, scrolls: seq<int>, contentHeight: int) returns (shownAtEnd: nat, markerAtEnd: Option<string>)
    ensures markerAtEnd == None
    ensures shownAtEnd <= |fetched|
    ensures shownAtEnd >= JsArray.Min(InitialCount, |fetched|)
  {
    var screen := new ListController();
    screen.Mount();
    assert screen.undoMarker == Some(ScreenName);
    screen.DataLoaded(fetched);
    var i := 0;
    while i < |scrolls|
      invariant 0 <= i <= |scrolls|
      invariant screen.Valid() && screen.window.Some? && screen.allCards == Some(fetched)
      invariant |screen.window.value| >= JsArray.Min(InitialCount, |fetched|)
      invariant screen.undoMarker == Some(ScreenName)
    {
      var _ := screen.OnScroll(Some(contentHeight), scrolls[i]);
      i := i + 1;
    }
    shownAtEnd := |screen.window.value|;
    screen.Unmount();
    markerAtEnd := screen.undoMarker;
  }
}
