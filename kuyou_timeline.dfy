/**
 * The prototype client's timeline: every stored history, narrowed by an optional category and
 * a search text and ordered by one of three options. The list on screen is rebuilt from the
 * loaded histories by filtering step by step and sorting once.
 */
module KuyouTimeline {
  import opened Wrappers
  import opened KuyouModels
  import opened KuyouStorage
  import KuyouContentFilter
  import Ordering

  datatype SortOption = Newest | Popular | Resolved

  function CreatedAt(h: BlackHistory): int { h.createdAt }

  function SalvationCount(h: BlackHistory): int { h.salvationCount }

  function IsResolved(h: BlackHistory): bool { h.isResolved }

  /** The category step: `filter { $0.category == category }`. */
  function InCategory(c: Category): BlackHistory -> bool {
    (h: BlackHistory) => h.category == c
  }

  /** The search step: `localizedCaseInsensitiveContains(searchText)`, here ASCII case folding. */
  function Mentions(q: string): BlackHistory -> bool {
    (h: BlackHistory) => KuyouContentFilter.ContainsFolded(h.content, q)
  }

  /** Whether a history is on screen: in the category when one is chosen, mentioning the search
    * text when there is one, and resolved when that option is chosen. */
  predicate Shown(h: BlackHistory, category: Option<Category>, search: string, option: SortOption) {
    (category.None? || h.category == category.value)
    && (search == [] || KuyouContentFilter.ContainsFolded(h.content, search))
    && (option != Resolved || h.isResolved)
  }

  function ShownBy(category: Option<Category>, search: string, option: SortOption): BlackHistory -> bool {
    (h: BlackHistory) => Shown(h, category, search, option)
  }

  /** The histories on screen, in stored order before sorting. */
  function Visible(hs: seq<BlackHistory>, category: Option<Category>, search: string, option: SortOption)
    : (r: seq<BlackHistory>)
    ensures forall h :: h in r <==> h in hs && Shown(h, category, search, option)
    ensures forall h :: multiset(r)[h] == if Shown(h, category, search, option) then multiset(hs)[h] else 0
  {
    var r := Ordering.Filter(hs, ShownBy(category, search, option));
    assert forall h :: multiset(r)[h] == (if Shown(h, category, search, option) then multiset(hs)[h] else 0)
                       && (h in r <==> h in hs && Shown(h, category, search, option)) by {
      forall h ensures multiset(r)[h] == (if Shown(h, category, search, option) then multiset(hs)[h] else 0)
                       && (h in r <==> h in hs && Shown(h, category, search, option)) {
        Ordering.FilterMultiset(hs, ShownBy(category, search, option), h);
      }
    }
    r
  }

  /** The key the option orders by: salvations for `popular`, the date for `newest` and
    * `resolved`. */
  function SortKey(option: SortOption): BlackHistory -> int {
    if option == Popular then SalvationCount else CreatedAt
  }

  /** The steps of `applyFiltersAndSort()`: the category filter when one is chosen, the search
    * filter when the text is not empty, then the option's sort, after keeping only resolved
    * histories for `resolved`. The result holds exactly the visible histories, in the
    * option's order. */
  function Arranged(hs: seq<BlackHistory>, category: Option<Category>, search: string, option: SortOption)
    : (r: seq<BlackHistory>)
    ensures multiset(r) == multiset(Visible(hs, category, search, option))
    ensures Ordering.SortedDesc(r, SortKey(option))
  {
    var byCategory := ShownBy(category, [], Newest);
    var s1 := if category.Some? then Ordering.Filter(hs, InCategory(category.value)) else hs;
    assert s1 == Ordering.Filter(hs, byCategory) by {
      if category.Some? {
        Ordering.FilterAgree(hs, InCategory(category.value), byCategory);
      } else {
        Ordering.FilterAll(hs, byCategory);
      }
    }
    var bySearch := ShownBy(category, search, Newest);
    var s2 := if search != [] then Ordering.Filter(s1, Mentions(search)) else s1;
    assert s2 == Ordering.Filter(hs, bySearch) by {
      if search != [] {
        Ordering.FilterFilter(hs, byCategory, Mentions(search), bySearch);
      } else {
        Ordering.FilterAgree(hs, byCategory, bySearch);
      }
    }
    var shown := ShownBy(category, search, option);
    var s3 := if option == Resolved then Ordering.Filter(s2, IsResolved) else s2;
    assert s3 == Ordering.Filter(hs, shown) by {
      if option == Resolved {
        Ordering.FilterFilter(hs, bySearch, IsResolved, shown);
      } else {
        Ordering.FilterAgree(hs, bySearch, shown);
      }
    }
    Ordering.SortDesc(s3, SortKey(option))
  }

  class TimelineViewModel {
    var blackHistories: seq<BlackHistory>
    var filteredHistories: seq<BlackHistory>
    var selectedCategory: Option<Category>
    var sortOption: SortOption
    var isLoading: bool
    var searchText: string
    const storage: Storage

    /** The screen shows exactly the visible histories, each as often as loaded, in the
      * chosen order. */
    ghost predicate Presented()
      reads this
    {
      multiset(filteredHistories) == multiset(Visible(blackHistories, selectedCategory, searchText, sortOption))
      && Ordering.SortedDesc(filteredHistories, SortKey(sortOption))
    }

    /** `init()`: the stored histories are loaded and presented, newest first. */
    constructor(storage: Storage)
      ensures this.storage == storage && blackHistories == storage.histories
      ensures selectedCategory.None? && sortOption == Newest && searchText == [] && !isLoading
      ensures Presented()
    {
      this.storage := storage;
      blackHistories := storage.histories;
      filteredHistories := [];
      selectedCategory := None;
      sortOption := Newest;
      isLoading := false;
      searchText := [];
      new;
      ApplyFiltersAndSort();
    }

    /** `loadBlackHistories()`: reload from the store and present again. */
    method LoadBlackHistories()
      modifies this
      ensures blackHistories == storage.histories && !isLoading && Presented()
      ensures selectedCategory == old(selectedCategory) && sortOption == old(sortOption)
      ensures searchText == old(searchText)
    {
      isLoading := true;
      blackHistories := storage.histories;
      ApplyFiltersAndSort();
      isLoading := false;
    }

    /** `refresh()`. */
    method Refresh()
      modifies this
      ensures blackHistories == storage.histories && !isLoading && Presented()
      ensures selectedCategory == old(selectedCategory) && sortOption == old(sortOption)
      ensures searchText == old(searchText)
    {
      LoadBlackHistories();
    }

    /** `applyFiltersAndSort()`: the screen is rebuilt from the loaded histories. */
    method ApplyFiltersAndSort()
      modifies this
      ensures Presented()
      ensures filteredHistories == Arranged(blackHistories, selectedCategory, searchText, sortOption)
      ensures blackHistories == old(blackHistories) && selectedCategory == old(selectedCategory)
      ensures sortOption == old(sortOption) && searchText == old(searchText) && isLoading == old(isLoading)
    {
      filteredHistories := Arranged(blackHistories, selectedCategory, searchText, sortOption);
    }

    /** `giveSalvation(to:)`: the history with one more salvation is saved and the user credited;
      * if the history is on the loaded list it is replaced there and the screen rebuilt. */
    method GiveSalvation(history: BlackHistory, freshUserId: Uuid, now: int)
      modifies this, storage
      ensures var updated := history.(salvationCount := history.salvationCount + 1);
        var before := old(storage.LoadUser(freshUserId, now));
        storage.histories == Upsert(old(storage.histories), updated, HistoryKey, true)
        && storage.rewrites == old(storage.rewrites)
        && storage.user == Some(Salvaged(before))
        && (match IndexOf(old(blackHistories), history.id, HistoryKey)
            case Some(i) => blackHistories == old(blackHistories)[i := updated] && Presented()
            case None => blackHistories == old(blackHistories) && filteredHistories == old(filteredHistories))
      ensures selectedCategory == old(selectedCategory) && sortOption == old(sortOption)
      ensures searchText == old(searchText) && isLoading == old(isLoading)
    {
      var updated := history.(salvationCount := history.salvationCount + 1);
      RecordSalvation(storage, updated, freshUserId, now);
      match IndexOf(blackHistories, history.id, HistoryKey) {
        case Some(index) =>
          blackHistories := blackHistories[index := updated];
          ApplyFiltersAndSort();
        case None =>
      }
    }

    /** `toggleCategory(_:)`: choosing the selected category clears the choice; any other
      * category becomes the choice. The screen is rebuilt by the debounced binding, which is
      * not modelled. */
    method ToggleCategory(category: Category)
      modifies this
      ensures old(selectedCategory) == Some(category) ==> selectedCategory.None?
      ensures old(selectedCategory) != Some(category) ==> selectedCategory == Some(category)
      ensures blackHistories == old(blackHistories) && filteredHistories == old(filteredHistories)
      ensures sortOption == old(sortOption) && searchText == old(searchText) && isLoading == old(isLoading)
    {
      if selectedCategory == Some(category) {
        selectedCategory := None;
      } else {
        selectedCategory := Some(category);
      }
    }
  }

  /** With no category chosen, no search text and the `newest` option, every loaded history
    * is on screen. */
  lemma UnfilteredShowsAll(hs: seq<BlackHistory>)
    ensures multiset(Arranged(hs, None, [], Newest)) == multiset(hs)
  {
    var r := Visible(hs, None, [], Newest);
    assert forall h :: multiset(r)[h] == multiset(hs)[h];
    assert multiset(r) == multiset(hs);
  }

  /** Choosing a category, or the `resolved` option, only ever removes histories from the
    * screen. */
  lemma NarrowingRemoves(hs: seq<BlackHistory>, c: Category, search: string, option: SortOption)
    ensures multiset(Arranged(hs, Some(c), search, option)) <= multiset(Arranged(hs, None, search, option))
    ensures multiset(Arranged(hs, None, search, Resolved)) <= multiset(Arranged(hs, None, search, Newest))
  {
    var a, b := Visible(hs, Some(c), search, option), Visible(hs, None, search, option);
    assert forall h :: multiset(a)[h] <= multiset(b)[h];
    var d, e := Visible(hs, None, search, Resolved), Visible(hs, None, search, Newest);
    assert forall h :: multiset(d)[h] <= multiset(e)[h];
  }
}
