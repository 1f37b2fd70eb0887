/** The page's controls as state: the two text fields, the role and order
    selects, and the favourites button's "active" class. The button handlers
    change these fields and then run `render()`. */
module Controls {
  import opened Directory
  import opened Pipeline

  class ControlPanel {
    var search: string
    var refine: string
    var role: string
    var order: string
    var favoritesActive: bool

    /** The query `render()` would read from the controls now. */
    function CurrentQuery(): Query
      reads this
    {
      Query(search, refine, role, order, favoritesActive)
    }

    /** The controls as the page first shows them: empty fields, no role, the
        "relevance" order, favourites off. */
    constructor ()
      ensures CurrentQuery() == DefaultQuery
    {
      search, refine, role, order, favoritesActive := "", "", "", "relevance", false;
    }

    /** The resets the "show all" and "clear" handlers share. */
    method Reset()
      modifies this
      ensures CurrentQuery() == DefaultQuery
    {
      search := "";
      refine := "";
      role := "";
      order := "relevance";
      favoritesActive := false;
    }

    /** Flip the favourites button's active state. */
    method ToggleFavorites()
      modifies this
      ensures favoritesActive == !old(favoritesActive)
      ensures search == old(search) && refine == old(refine) && role == old(role) && order == old(order)
    {
      favoritesActive := !favoritesActive;
    }

    /** `render()` on the current controls (the search button, typing in the
        refine field, and changing either select all do this). */
    method Refresh(store: seq<Professional>) returns (shown: seq<Professional>, count: string)
      ensures shown == Results(store, CurrentQuery())
      ensures count == CountText(|shown|)
    {
      shown, count := Render(store, CurrentQuery());
    }

    /** The "show all" button: reset every control, then render. */
    method ShowAll(store: seq<Professional>) returns (shown: seq<Professional>, count: string)
      modifies this
      ensures CurrentQuery() == DefaultQuery
      ensures shown == Results(store, DefaultQuery) && count == CountText(|shown|)
      ensures AscendingIds(store) ==> shown == store
    {
      Reset();
      shown, count := Render(store, CurrentQuery());
      if AscendingIds(store) {
        DefaultShowsAll(store);
      }
    }

    /** The "clear" button: the same resets as "show all", then render. */
    method Clear(store: seq<Professional>) returns (shown: seq<Professional>, count: string)
      modifies this
      ensures CurrentQuery() == DefaultQuery
      ensures shown == Results(store, DefaultQuery) && count == CountText(|shown|)
      ensures AscendingIds(store) ==> shown == store
    {
      Reset();
      shown, count := Render(store, CurrentQuery());
      if AscendingIds(store) {
        DefaultShowsAll(store);
      }
    }

    /** The favourites button: flip the flag, then render. */
    method Favorites(store: seq<Professional>) returns (shown: seq<Professional>, count: string)
      modifies this
      ensures CurrentQuery() == old(CurrentQuery()).(favoritesOnly := !old(favoritesActive))
      ensures shown == Results(store, CurrentQuery()) && count == CountText(|shown|)
    {
      ToggleFavorites();
      shown, count := Render(store, CurrentQuery());
    }
  }

  /** Pressing the favourites button twice restores every control. */
  method ToggleTwiceRestores(panel: ControlPanel)
    modifies panel
    ensures panel.CurrentQuery() == old(panel.CurrentQuery())
  {
    panel.ToggleFavorites();
    panel.ToggleFavorites();
  }

  /** The count line for the whole store. */
  lemma FourFound()
    ensures CountText(4) == "4 profissionals encontrados"
  {
    assert Text.NatToString(4) == "4";
    assert CountText(4) == "4" + " profissionals encontrados";
  }

  /** The page as it loads: fresh controls, then `render()`, shows all four
      professionals in id order. */
  method InitialPage() returns (shown: seq<Professional>, count: string)
    ensures shown == Professionals
    ensures count == "4 profissionals encontrados"
  {
    var panel := new ControlPanel();
    shown, count := panel.Refresh(Professionals);
    DefaultShowsStore();
    assert |Professionals| == 4;
    FourFound();
  }
}
