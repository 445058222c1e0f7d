/**
 * The state of the artworks table component and its handlers. Each field is one
 * piece of component state; each method is one handler, and a React state
 * update is an assignment to the field. The selection updaters come from
 * module Selection. The fetch is split at its first suspension point, the
 * awaited request; the second, the awaited `res.json()`, changes no state
 * before it, so it is folded into the outcome that is passed in as a value.
 */
module Table {
  import opened Optional
  import opened Artworks
  import opened Selection
  import opened Paging

  class ArtworksTable {
    var artworks: seq<Artwork>
    var loading: bool
    var page: nat
    var totalRecords: int
    var selectionMap: SelectionMap
    var rowsToSelect: int

    /** Every selected artwork is filed under its own identifier. */
    ghost predicate Valid()
      reads this
    {
      WellKeyed(selectionMap)
    }

    /** The component's initial state: no rows, not loading, page 0, total 0, nothing selected. */
    constructor ()
      ensures Valid()
      ensures artworks == [] && !loading && page == 0 && totalRecords == 0
      ensures selectionMap == map[] && rowsToSelect == 0
    {
      artworks := [];
      loading := false;
      page := 0;
      totalRecords := 0;
      selectionMap := map[];
      rowsToSelect := 0;
    }

    // -------------------------------------------------------------------------
    // Fetching a page

    /** First half of `fetchData`: show the spinner and issue the request. */
    method StartFetch(pageNumber: nat) returns (url: string)
      modifies this`loading
      ensures loading
      ensures url == RequestUrl(pageNumber)
      ensures RequestedPage(url) == Some(pageNumber)
    {
      loading := true;
      url := RequestUrl(pageNumber);
      RequestUrlNamesPage(pageNumber);
    }

    /**
     * Second half of `fetchData`, once the request has settled. `None` is a
     * rejected request or an unparsable body: nothing is stored. A body without
     * a `pagination` object stores its records and then fails reading the
     * total, which keeps its old value. The spinner is cleared in every case.
     */
    method FinishFetch(outcome: Option<Response>)
      modifies this`loading, this`artworks, this`totalRecords
      ensures !loading
      ensures outcome.None? ==> artworks == old(artworks) && totalRecords == old(totalRecords)
      ensures outcome.Some? ==> artworks == outcome.value.data
      ensures outcome.Some? && outcome.value.pagination.None? ==> totalRecords == old(totalRecords)
      ensures outcome.Some? && outcome.value.pagination.Some? ==>
        totalRecords == TotalOrDefault(outcome.value.pagination.value.total)
    {
      match outcome {
        case None =>
        case Some(response) =>
          artworks := response.data;
          match response.pagination {
            case None =>
            case Some(pagination) =>
              totalRecords := TotalOrDefault(pagination.total);
          }
      }
      loading := false;
    }

    /** `fetchData(pageNumber)` run to completion with the given outcome. */
    method FetchData(pageNumber: nat, outcome: Option<Response>) returns (url: string)
      modifies this`loading, this`artworks, this`totalRecords
      ensures url == RequestUrl(pageNumber) && RequestedPage(url) == Some(pageNumber)
      ensures selectionMap == old(selectionMap) && page == old(page)
      ensures !loading
      ensures outcome.None? ==> artworks == old(artworks) && totalRecords == old(totalRecords)
      ensures outcome.Some? ==> artworks == outcome.value.data
      ensures outcome.Some? && outcome.value.pagination.None? ==> totalRecords == old(totalRecords)
      ensures outcome.Some? && outcome.value.pagination.Some? ==>
        totalRecords == TotalOrDefault(outcome.value.pagination.value.total)
    {
      url := StartFetch(pageNumber);
      FinishFetch(outcome);
    }

    // -------------------------------------------------------------------------
    // Paging

    /** The paginator's page-change handler. */
    method OnPageChange(newPage: nat)
      modifies this`page
      ensures page == newPage
    {
      page := newPage;
    }

    /** The effect's first run, when the component mounts: fetch the current page. */
    method Mount(outcome: Option<Response>) returns (url: string)
      modifies this`loading, this`artworks, this`totalRecords
      ensures url == RequestUrl(page) && RequestedPage(url) == Some(page)
      ensures selectionMap == old(selectionMap)
      ensures !loading
      ensures outcome.None? ==> artworks == old(artworks) && totalRecords == old(totalRecords)
      ensures outcome.Some? ==> artworks == outcome.value.data
      ensures outcome.Some? && outcome.value.pagination.None? ==> totalRecords == old(totalRecords)
      ensures outcome.Some? && outcome.value.pagination.Some? ==>
        totalRecords == TotalOrDefault(outcome.value.pagination.value.total)
    {
      url := FetchData(page, outcome);
    }

    /**
     * A page change and the effect that depends on `page`. Setting the page it
     * already has makes React skip the effect: nothing is requested or stored.
     * Otherwise the new page is fetched. The selection is never touched.
     */
    method GoToPage(newPage: nat, outcome: Option<Response>) returns (url: Option<string>)
      requires Valid()
      modifies this`page, this`loading, this`artworks, this`totalRecords
      ensures Valid()
      ensures page == newPage
      ensures selectionMap == old(selectionMap)
      ensures newPage == old(page) ==>
        url.None? && loading == old(loading) && artworks == old(artworks) && totalRecords == old(totalRecords)
      ensures newPage != old(page) ==> url.Some? && RequestedPage(url.value) == Some(newPage) && !loading
      ensures newPage != old(page) && outcome.None? ==>
        artworks == old(artworks) && totalRecords == old(totalRecords)
      ensures newPage != old(page) && outcome.Some? ==> artworks == outcome.value.data
      ensures newPage != old(page) && outcome.Some? && outcome.value.pagination.None? ==>
        totalRecords == old(totalRecords)
      ensures newPage != old(page) && outcome.Some? && outcome.value.pagination.Some? ==>
        totalRecords == TotalOrDefault(outcome.value.pagination.value.total)
    {
      var changed := newPage != page;
      OnPageChange(newPage);
      if changed {
        var requested := FetchData(page, outcome);
        url := Some(requested);
      } else {
        url := None;
      }
    }

    /** The `first` offset the paginator is given. */
    function First(): (first: nat)
      reads this
      ensures first == page * RowsPerPage
      ensures first % RowsPerPage == 0 && first / RowsPerPage == page
    {
      PaginatorFirst(page)
    }

    // -------------------------------------------------------------------------
    // Selection handlers

    /** Row checkbox. */
    method ToggleRow(art: Artwork)
      requires Valid()
      modifies this`selectionMap
      ensures Valid()
      ensures selectionMap == Toggled(old(selectionMap), art)
    {
      selectionMap := ToggleRowUpdate(selectionMap, art);
    }

    /** Header checkbox, over the rows of the current page. */
    method ToggleSelectAll(checked: bool)
      requires Valid()
      modifies this`selectionMap
      ensures Valid()
      ensures selectionMap == SetMembership(old(selectionMap), artworks, checked)
    {
      SetMembershipWellKeyed(selectionMap, artworks, checked);
      selectionMap := SelectAllUpdate(selectionMap, artworks, checked);
    }

    /** Remove button of the selection panel. */
    method RemoveFromSelection(id: int)
      requires Valid()
      modifies this`selectionMap
      ensures Valid()
      ensures selectionMap == Removed(old(selectionMap), id)
    {
      selectionMap := RemoveUpdate(selectionMap, id);
    }

    /** The number input of "select first N rows". */
    method SetRowsToSelect(value: int)
      modifies this`rowsToSelect
      ensures rowsToSelect == value
    {
      rowsToSelect := value;
    }

    /** Submit button of "select first N rows". */
    method HandleSelectRows()
      requires Valid()
      modifies this`selectionMap
      ensures Valid()
      ensures selectionMap == SelectFirst(old(selectionMap), artworks, rowsToSelect)
    {
      SelectFirstWellKeyed(selectionMap, artworks, rowsToSelect);
      selectionMap := SelectRowsUpdate(selectionMap, artworks, rowsToSelect);
    }

    /** Whether the header checkbox shows ticked. */
    function AllSelected(): (b: bool)
      reads this
      ensures b <==> |artworks| > 0 && forall k :: 0 <= k < |artworks| ==> artworks[k].id in selectionMap
    {
      AllSelectedOnPage(selectionMap, artworks)
    }

    /** The count in the panel heading: the length of `Object.values(selectionMap)`. */
    function SelectedCount(): (n: nat)
      reads this
      requires Valid()
      ensures n == |selectionMap|
    {
      PanelCount(selectionMap);
      |SelectedRows(selectionMap)|
    }
  }

  /** A row selected on one page is still selected after moving to another page. */
  method SelectionSurvivesPageChange(t: ArtworksTable, art: Artwork, newPage: nat, outcome: Option<Response>)
    requires t.Valid() && !IsSelected(t.selectionMap, art)
    modifies t
  {
    t.ToggleRow(art);
    var _ := t.GoToPage(newPage, outcome);
    assert IsSelected(t.selectionMap, art);
  }

  /** Two pages of five records, one row selected on each, then one removed from the panel. */
  method TwoPageScenario()
  {
    var t := new ArtworksTable();
    var first := seq(5, k => Artwork(k + 1, "", None, None, None, None, None));
    var second := seq(5, k => Artwork(k + 6, "", None, None, None, None, None));
    var _ := t.Mount(Some(Response(first, Some(Pagination(Some(100))))));
    assert t.totalRecords == 100;
    t.ToggleRow(first[2]);
    assert t.selectionMap == map[3 := first[2]];
    var _ := t.GoToPage(1, Some(Response(second, Some(Pagination(Some(100))))));
    t.ToggleRow(second[1]);
    assert t.selectionMap == map[3 := first[2], 7 := second[1]];
    t.RemoveFromSelection(3);
    assert t.selectionMap == map[7 := second[1]];
    assert t.SelectedCount() == 1;
    var again := t.GoToPage(1, None);
    assert again.None? && t.artworks == second;
  }

  /** Asking for eight rows of a five-row page selects all five, so the header shows ticked. */
  method SelectMoreThanPageScenario()
  {
    var t := new ArtworksTable();
    var rows := seq(5, k => Artwork(k + 1, "", None, None, None, None, None));
    var _ := t.Mount(Some(Response(rows, None)));
    assert t.totalRecords == 0;
    t.SetRowsToSelect(8);
    t.HandleSelectRows();
    SelectFirstWholePage(map[], rows, 8);
    HeaderAfterSelectAll(map[], rows);
    assert t.AllSelected();
  }
}
