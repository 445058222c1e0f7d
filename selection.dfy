/**
 * The cross-page selection store of the artworks table: a map from artwork
 * identifier to the selected artwork. Every handler of the table hands React
 * an updater that copies the previous map, edits the copy and returns it; each
 * updater is a method here (the copy-and-edit procedure), specified by a
 * function on maps about which the properties are stated.
 */
module Selection {
  import opened Optional
  import opened Artworks

  type SelectionMap = map<int, Artwork>

  /** Every stored artwork is filed under its own identifier. */
  ghost predicate WellKeyed(m: SelectionMap)
  {
    forall id :: id in m ==> m[id].id == id
  }

  /** `m` and `m'` hold the same entries for every identifier outside `ids`. */
  ghost predicate SameOutside(m: SelectionMap, m': SelectionMap, ids: set<int>)
  {
    forall id :: id !in ids ==> (id in m <==> id in m') && (id in m ==> m[id] == m'[id])
  }

  /** `selectionMap[id]`: the stored artwork, or `undefined` when there is none. */
  function Lookup(m: SelectionMap, id: int): Option<Artwork>
  {
    if id in m then Some(m[id]) else None
  }

  /** `!!selectionMap[art.id]`: a stored artwork is an object and so truthy, `undefined` is falsy;
      a row is therefore selected exactly when its identifier has an entry. */
  function IsSelected(m: SelectionMap, art: Artwork): (b: bool)
    ensures b <==> art.id in m
  {
    Lookup(m, art.id).Some?
  }

  // ---------------------------------------------------------------------------
  // Row toggle

  /** The map after the row checkbox of `art` is clicked. */
  function Toggled(m: SelectionMap, art: Artwork): (r: SelectionMap)
    ensures IsSelected(r, art) <==> !IsSelected(m, art)
    ensures IsSelected(r, art) ==> r[art.id] == art
    ensures SameOutside(m, r, {art.id})
    ensures WellKeyed(m) ==> WellKeyed(r)
  {
    if art.id in m then m - {art.id} else m[art.id := art]
  }

  /** The updater given to the store by the row toggle. */
  method ToggleRowUpdate(prev: SelectionMap, art: Artwork) returns (updated: SelectionMap)
    ensures updated == Toggled(prev, art)
  {
    updated := prev;
    if art.id in updated {
      updated := updated - {art.id};
    } else {
      updated := updated[art.id := art];
    }
  }

  /** Two clicks on the same row restore its membership and touch nothing else;
      a row that was selected ends up holding the clicked record. */
  lemma ToggleTwice(m: SelectionMap, art: Artwork)
    ensures IsSelected(Toggled(Toggled(m, art), art), art) <==> IsSelected(m, art)
    ensures SameOutside(m, Toggled(Toggled(m, art), art), {art.id})
    ensures !IsSelected(m, art) ==> Toggled(Toggled(m, art), art) == m
    ensures IsSelected(m, art) ==> Toggled(Toggled(m, art), art) == m[art.id := art]
  {
  }

  // ---------------------------------------------------------------------------
  // Header checkbox: select or deselect the whole page

  /** One step of the page loop: write the record, or delete its identifier. */
  function Mark(m: SelectionMap, art: Artwork, checked: bool): (r: SelectionMap)
    ensures checked ==> art.id in r && r[art.id] == art
    ensures !checked ==> art.id !in r
    ensures SameOutside(m, r, {art.id})
  {
    if checked then m[art.id := art] else m - {art.id}
  }

  /** The map after the page `arts` has been walked in order, marking each record:
      its keys gain, or lose, exactly the identifiers of the page. */
  function SetMembership(m: SelectionMap, arts: seq<Artwork>, checked: bool): (r: SelectionMap)
    ensures r.Keys == if checked then m.Keys + PageIds(arts) else m.Keys - PageIds(arts)
    decreases |arts|
  {
    if arts == [] then m
    else Mark(SetMembership(m, arts[..|arts| - 1], checked), arts[|arts| - 1], checked)
  }

  /** The updater given to the store by the header checkbox. */
  method SelectAllUpdate(prev: SelectionMap, arts: seq<Artwork>, checked: bool) returns (updated: SelectionMap)
    ensures updated == SetMembership(prev, arts, checked)
  {
    updated := prev;
    var i := 0;
    while i < |arts|
      invariant 0 <= i <= |arts|
      invariant updated == SetMembership(prev, arts[..i], checked)
    {
      var art := arts[i];
      if checked {
        updated := updated[art.id := art];
      } else {
        updated := updated - {art.id};
      }
      assert arts[..i + 1][..i] == arts[..i];
      i := i + 1;
    }
    assert arts[..i] == arts;
  }

  /** Entries whose identifier is not on the page are left as they were, in both directions. */
  lemma {:induction false} SetMembershipOutside(m: SelectionMap, arts: seq<Artwork>, checked: bool)
    ensures SameOutside(m, SetMembership(m, arts, checked), PageIds(arts))
    decreases |arts|
  {
    if arts != [] {
      SetMembershipOutside(m, arts[..|arts| - 1], checked);
    }
  }

  /** Selecting the page puts every page identifier in the map, filed under the last record carrying it. */
  lemma {:induction false} SetMembershipSelects(m: SelectionMap, arts: seq<Artwork>)
    ensures forall k :: 0 <= k < |arts| ==> arts[k].id in SetMembership(m, arts, true)
    ensures forall k :: IsLastWithId(arts, k) ==> SetMembership(m, arts, true)[arts[k].id] == arts[k]
    decreases |arts|
  {
    if arts != [] {
      var init := arts[..|arts| - 1];
      SetMembershipSelects(m, init);
      assert forall k :: 0 <= k < |init| ==> init[k] == arts[k];
      forall k | IsLastWithId(arts, k) && k < |init|
        ensures IsLastWithId(init, k)
      {
      }
    }
  }

  /** Deselecting the page removes every page identifier from the map. */
  lemma {:induction false} SetMembershipDeselects(m: SelectionMap, arts: seq<Artwork>)
    ensures forall k :: 0 <= k < |arts| ==> arts[k].id !in SetMembership(m, arts, false)
    decreases |arts|
  {
    if arts != [] {
      var init := arts[..|arts| - 1];
      SetMembershipDeselects(m, init);
      assert forall k :: 0 <= k < |init| ==> init[k] == arts[k];
    }
  }

  /** Walking the page keeps every artwork filed under its own identifier. */
  lemma {:induction false} SetMembershipWellKeyed(m: SelectionMap, arts: seq<Artwork>, checked: bool)
    requires WellKeyed(m)
    ensures WellKeyed(SetMembership(m, arts, checked))
    decreases |arts|
  {
    if arts != [] {
      SetMembershipWellKeyed(m, arts[..|arts| - 1], checked);
    }
  }

  /** With distinct identifiers, selecting the page files each record under its id. */
  lemma SelectAllDistinct(m: SelectionMap, arts: seq<Artwork>)
    requires DistinctIds(arts)
    ensures forall k :: 0 <= k < |arts| ==>
      arts[k].id in SetMembership(m, arts, true) && SetMembership(m, arts, true)[arts[k].id] == arts[k]
  {
    SetMembershipSelects(m, arts);
    assert forall k :: 0 <= k < |arts| ==> IsLastWithId(arts, k);
  }

  /** Deselecting an empty page, or selecting it, changes nothing. */
  lemma SetMembershipEmptyPage(m: SelectionMap, checked: bool)
    ensures SetMembership(m, [], checked) == m
  {
  }

  // ---------------------------------------------------------------------------
  // Header checkbox state

  /** `Array.prototype.every` with `isSelected` over the page. */
  function EverySelected(m: SelectionMap, arts: seq<Artwork>): (b: bool)
    ensures b <==> forall k :: 0 <= k < |arts| ==> arts[k].id in m
    decreases |arts|
  {
    assert forall k :: 0 < k < |arts| ==> arts[k] == arts[1..][k - 1];
    arts == [] || (IsSelected(m, arts[0]) && EverySelected(m, arts[1..]))
  }

  /** The header checkbox is ticked exactly when the page is non-empty and every row on it is
      selected; in particular it is off on an empty page. */
  function AllSelectedOnPage(m: SelectionMap, arts: seq<Artwork>): (b: bool)
    ensures b <==> |arts| > 0 && forall k :: 0 <= k < |arts| ==> arts[k].id in m
    ensures arts == [] ==> !b
  {
    |arts| > 0 && EverySelected(m, arts)
  }

  /** After the header checkbox selects the page, the header shows ticked (unless the page is empty). */
  lemma HeaderAfterSelectAll(m: SelectionMap, arts: seq<Artwork>)
    ensures AllSelectedOnPage(SetMembership(m, arts, true), arts) <==> |arts| > 0
  {
    SetMembershipSelects(m, arts);
  }

  /** After the header checkbox deselects the page, the header shows unticked. */
  lemma HeaderAfterDeselectAll(m: SelectionMap, arts: seq<Artwork>)
    ensures !AllSelectedOnPage(SetMembership(m, arts, false), arts)
  {
    SetMembershipDeselects(m, arts);
  }

  // ---------------------------------------------------------------------------
  // Removal from the selection panel

  /** The map after the panel's Remove button for `id`. */
  function Removed(m: SelectionMap, id: int): (r: SelectionMap)
    ensures id !in r
    ensures SameOutside(m, r, {id})
    ensures id !in m ==> r == m
    ensures WellKeyed(m) ==> WellKeyed(r)
  {
    m - {id}
  }

  /** The updater given to the store by the Remove button. */
  method RemoveUpdate(prev: SelectionMap, id: int) returns (updated: SelectionMap)
    ensures updated == Removed(prev, id)
  {
    updated := prev;
    updated := updated - {id};
  }

  // ---------------------------------------------------------------------------
  // "Select first N rows"

  /** JavaScript's `Math.min` on two integers. */
  function Min(a: int, b: int): (r: int)
    ensures r <= a && r <= b
    ensures r == a || r == b
  {
    if a <= b then a else b
  }

  /** How many rows `for (i = 0; i < min(requested, pageLength); i++)` visits. */
  function SelectionCount(requested: int, pageLength: nat): (n: nat)
    ensures n <= pageLength
    ensures requested <= 0 ==> n == 0
    ensures requested >= pageLength ==> n == pageLength
    ensures 0 <= requested <= pageLength ==> n == requested
  {
    if Min(requested, pageLength) <= 0 then 0 else Min(requested, pageLength)
  }

  /** The map after the first `requested` rows of the page are selected (clamped to the page). */
  function SelectFirst(m: SelectionMap, arts: seq<Artwork>, requested: int): (r: SelectionMap)
    ensures r.Keys == m.Keys + PageIds(arts[..SelectionCount(requested, |arts|)])
  {
    SetMembership(m, arts[..SelectionCount(requested, |arts|)], true)
  }

  /** Exactly the first `n = min(requested, |arts|)` rows are written; every other entry,
      including those of later rows of the page, is left as it was. */
  lemma SelectFirstPrefix(m: SelectionMap, arts: seq<Artwork>, requested: int)
    ensures var n, r := SelectionCount(requested, |arts|), SelectFirst(m, arts, requested);
      && (forall k :: 0 <= k < n ==> arts[k].id in r)
      && (forall k :: IsLastWithId(arts[..n], k) ==> r[arts[k].id] == arts[k])
      && SameOutside(m, r, PageIds(arts[..n]))
  {
    var n := SelectionCount(requested, |arts|);
    SetMembershipSelects(m, arts[..n]);
    SetMembershipOutside(m, arts[..n], true);
    assert forall k :: 0 <= k < n ==> arts[..n][k] == arts[k];
  }

  /** A count of zero or below selects nothing. */
  lemma SelectFirstNone(m: SelectionMap, arts: seq<Artwork>, requested: int)
    requires requested <= 0
    ensures SelectFirst(m, arts, requested) == m
  {
  }

  /** A count at or above the page length selects the whole page, as the header checkbox does. */
  lemma SelectFirstWholePage(m: SelectionMap, arts: seq<Artwork>, requested: int)
    requires requested >= |arts|
    ensures SelectFirst(m, arts, requested) == SetMembership(m, arts, true)
  {
    assert arts[..|arts|] == arts;
  }

  lemma SelectFirstWellKeyed(m: SelectionMap, arts: seq<Artwork>, requested: int)
    requires WellKeyed(m)
    ensures WellKeyed(SelectFirst(m, arts, requested))
  {
    SetMembershipWellKeyed(m, arts[..SelectionCount(requested, |arts|)], true);
  }

  /** The updater given to the store by the Submit button of "select first N rows". */
  method SelectRowsUpdate(prev: SelectionMap, arts: seq<Artwork>, requested: int) returns (updated: SelectionMap)
    ensures updated == SelectFirst(prev, arts, requested)
  {
    var n := Min(requested, |arts|);
    ghost var count := SelectionCount(requested, |arts|);
    assert n <= 0 ==> count == 0;
    assert n > 0 ==> count == n;
    updated := prev;
    var i := 0;
    while i < n
      invariant 0 <= i <= count
      invariant updated == SetMembership(prev, arts[..i], true)
    {
      updated := updated[arts[i].id := arts[i]];
      assert arts[..i + 1][..i] == arts[..i];
      i := i + 1;
    }
    assert i == count;
  }

  // ---------------------------------------------------------------------------
  // The selection panel

  /** The artworks the panel lists (`Object.values`), as a set. */
  function SelectedRows(m: SelectionMap): (rows: set<Artwork>)
    ensures forall id :: id in m ==> m[id] in rows
    ensures WellKeyed(m) ==> forall a :: a in rows ==> a.id in m && m[a.id] == a
  {
    set id | id in m :: m[id]
  }

  /** Every artwork the panel lists is selected. */
  lemma PanelRowsSelected(m: SelectionMap)
    requires WellKeyed(m)
    ensures forall a :: a in SelectedRows(m) ==> IsSelected(m, a)
  {
  }

  /** A set with no element is the empty set. */
  lemma EmptyWithoutElements<T>(s: set<T>)
    requires forall k :: k !in s
    ensures s == {}
  {
    assert forall k :: (k in s) == (k in {});
  }

  /** Filing by identifier makes the panel list one artwork per entry, so its count is the map's size. */
  lemma {:induction false} PanelCount(m: SelectionMap)
    requires WellKeyed(m)
    ensures |SelectedRows(m)| == |m|
    decreases |m|
  {
    if forall id :: id !in m {
      EmptyWithoutElements(m.Keys);
      assert forall a :: a !in SelectedRows(m);
      EmptyWithoutElements(SelectedRows(m));
    } else {
      var id :| id in m;
      var m' := m - {id};
      assert m'.Keys == m.Keys - {id};
      assert SelectedRows(m') == SelectedRows(m) - {m[id]} by {
        forall v | v in SelectedRows(m) && v != m[id] ensures v in SelectedRows(m') {
          var k :| k in m && m[k] == v;
          assert k in m' && m'[k] == v;
        }
        forall v | v in SelectedRows(m') ensures v in SelectedRows(m) && v != m[id] {
          var k :| k in m' && m'[k] == v;
          assert m[k] == v && v.id == k;
        }
      }
      PanelCount(m');
    }
  }

  /** After Remove, the panel lists no artwork with that identifier. */
  lemma PanelAfterRemove(m: SelectionMap, id: int)
    requires WellKeyed(m)
    ensures forall a :: a in SelectedRows(Removed(m, id)) ==> a.id != id
  {
  }
}
