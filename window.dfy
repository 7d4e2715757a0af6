/**
 * The revealed window of the credit-card list: how many cards of the fetched
 * list are shown, on first load, on "load more", and after each refetch that a
 * delete, an edit-save or a create-save triggers. Each rule is written the way
 * the screen computes it, with `slice` and `findIndex`; the contracts say what
 * that computation amounts to.
 */
module Window {
  import opened Cards
  import opened JsArray

  /** Cards revealed by the first load. */
  const InitialCount := 100
  /** Cards added by one "load more". */
  const LoadMoreCount := 50
  /** Trailing margin revealed past a saved card's position. */
  const SavedMargin := 75

  /** `loaded.slice(0, 100)`. */
  function InitialWindow(fetched: seq<Card>): (w: seq<Card>)
    ensures w <= fetched
    ensures |w| == Min(InitialCount, |fetched|)
  {
    Slice(fetched, 0, InitialCount)
  }

  /** `window.concat(all.slice(window.length, window.length + 50))`. */
  function LoadMoreWindow(window: seq<Card>, all: seq<Card>): (r: seq<Card>)
    // the rows already shown stay, so the window never shrinks
    ensures window <= r
    // nothing is left to reveal: no-op
    ensures |window| >= |all| ==> r == window
    // from a prefix, the next prefix, clamped at the end of the list
    ensures window <= all ==> r <= all && |r| == Min(|window| + LoadMoreCount, |all|)
  {
    window + Slice(all, |window|, |window| + LoadMoreCount)
  }

  /** After a bulk delete: `refetched.slice(0, window.length)`. */
  function DeleteWindow(window: seq<Card>, refetched: seq<Card>): (r: seq<Card>)
    ensures r <= refetched
    ensures |r| == Min(|window|, |refetched|)
  {
    Slice(refetched, 0, |window|)
  }

  /** After an edit-save: expand past the saved card only when its index is
      strictly beyond the old window length; otherwise keep the old length. */
  function EditSaveWindow(window: seq<Card>, refetched: seq<Card>, savedId: string): (r: seq<Card>)
    ensures r <= refetched
    ensures IndexOfId(refetched, savedId) > |window| ==>
      |r| == Min(IndexOfId(refetched, savedId) + SavedMargin, |refetched|)
    ensures IndexOfId(refetched, savedId) <= |window| ==> |r| == Min(|window|, |refetched|)
  {
    var idx := IndexOfId(refetched, savedId);
    if idx > |window| then Slice(refetched, 0, idx + SavedMargin)
    else Slice(refetched, 0, |window|)
  }

  /** After a create-save: `refetched.slice(0, idx + 75)` whatever the old
      window was; an absent id (idx = -1) gives 74. */
  function CreateSaveWindow(refetched: seq<Card>, savedId: string): (r: seq<Card>)
    ensures r <= refetched
    ensures |r| == Min(IndexOfId(refetched, savedId) + SavedMargin, |refetched|)
    ensures IndexOfId(refetched, savedId) == -1 ==> |r| == Min(SavedMargin - 1, |refetched|)
  {
    Slice(refetched, 0, IndexOfId(refetched, savedId) + SavedMargin)
  }

  /** An edited card that is found is revealed after the save, unless its
      index is exactly the old window length. */
  lemma EditedCardShown(window: seq<Card>, refetched: seq<Card>, savedId: string)
    requires 0 <= IndexOfId(refetched, savedId) != |window|
    ensures var idx := IndexOfId(refetched, savedId);
      idx < |EditSaveWindow(window, refetched, savedId)| &&
      EditSaveWindow(window, refetched, savedId)[idx].id == savedId
  {
  }

  /** Because the comparison is strict, an edited card that lands exactly at
      the old window length does not expand the window and stays hidden. */
  lemma {:induction false} EditedCardAtBoundaryHidden(window: seq<Card>, refetched: seq<Card>, savedId: string)
    requires IndexOfId(refetched, savedId) == |window|
    ensures EditSaveWindow(window, refetched, savedId) == refetched[..|window|]
    ensures forall c :: c in EditSaveWindow(window, refetched, savedId) ==> c.id != savedId
  {
    var r := EditSaveWindow(window, refetched, savedId);
    assert |r| == |window|;
    forall c | c in r ensures c.id != savedId {
      var j :| 0 <= j < |r| && r[j] == c;
      assert r[j] == refetched[j];
    }
  }

  /** A created card that is found is always revealed after the save. */
  lemma CreatedCardShown(refetched: seq<Card>, savedId: string)
    requires 0 <= IndexOfId(refetched, savedId)
    ensures var idx := IndexOfId(refetched, savedId);
      idx < |CreateSaveWindow(refetched, savedId)| &&
      CreateSaveWindow(refetched, savedId)[idx].id == savedId
  {
  }

  /** The window after k further "load more" steps. */
  function LoadMoreTimes(window: seq<Card>, all: seq<Card>, k: nat): seq<Card>
    decreases k
  {
    if k == 0 then window else LoadMoreTimes(LoadMoreWindow(window, all), all, k - 1)
  }

  /** From any prefix, k "load more" steps reveal 50 k more cards, clamped. */
  lemma {:induction false} LoadMoreStepsGrowPrefix(window: seq<Card>, all: seq<Card>, k: nat)
    requires window <= all
    ensures LoadMoreTimes(window, all, k) <= all
    ensures |LoadMoreTimes(window, all, k)| == Min(|window| + LoadMoreCount * k, |all|)
    decreases k
  {
    if k > 0 {
      LoadMoreStepsGrowPrefix(LoadMoreWindow(window, all), all, k - 1);
    }
  }

  /** After the first load and k "load more" steps the window is the prefix of
      length min(100 + 50 k, |all|). */
  lemma LoadedThenScrolled(all: seq<Card>, k: nat)
    ensures LoadMoreTimes(InitialWindow(all), all, k) == all[..Min(InitialCount + LoadMoreCount * k, |all|)]
  {
    LoadMoreStepsGrowPrefix(InitialWindow(all), all, k);
  }

  /** 120 fetched cards: 100 shown, and one "load more" clamps at 120, not 150. */
  lemma {:induction false} LoadMoreClampsAtEnd(all: seq<Card>)
    requires |all| == 120
    ensures |InitialWindow(all)| == 100
    ensures LoadMoreWindow(InitialWindow(all), all) == all
  {
  }

  /** A created card at index 119 of a 150-card refetch: the window is the whole list. */
  lemma CreateNearEnd(refetched: seq<Card>, savedId: string)
    requires |refetched| == 150 && IndexOfId(refetched, savedId) == 119
    ensures CreateSaveWindow(refetched, savedId) == refetched
  {
  }

  /** An edit of a card at index 10 with 50 revealed keeps 50. */
  lemma EditInsideWindow(window: seq<Card>, refetched: seq<Card>, savedId: string)
    requires |window| == 50 && |refetched| >= 50 && IndexOfId(refetched, savedId) == 10
    ensures EditSaveWindow(window, refetched, savedId) == refetched[..50]
  {
  }
}
