/**
 The component's view state: the three `useState` cells (search term,
 selected manufacturer, expanded row), the handlers that update them, and the
 rows and detail panel derived from them on every render.
 */
module View {
  import opened Sequences
  import opened CompatibilityTable

  class ViewState {
    var searchTerm: string
    var selectedManufacturer: string
    var expandedRow: Option<string>

    /** The initial state: empty search, every manufacturer, no row expanded. */
    constructor()
      ensures searchTerm == "" && selectedManufacturer == All && expandedRow == None
    {
      searchTerm := "";
      selectedManufacturer := All;
      expandedRow := None;
    }

    /** `filteredData`: the table rows shown for the current search and manufacturer, in table order. */
    function FilteredData(): (r: seq<Board>)
      reads this
      ensures IsSubsequence(r, CompatibilityData)
      ensures forall b :: b in r <==> b in CompatibilityData && Shown(b, searchTerm, selectedManufacturer)
      ensures NamesDistinct(r)
    {
      FilterIsSubsequence(CompatibilityData, searchTerm, selectedManufacturer);
      FilterMembership(CompatibilityData, searchTerm, selectedManufacturer);
      CompatibilityDataNamesDistinct();
      FilterNamesDistinct(CompatibilityData, searchTerm, selectedManufacturer);
      Filter(CompatibilityData, searchTerm, selectedManufacturer)
    }

    /** The shown rows whose detail panel is open: at most one, and only a shown row named by `expandedRow`. */
    function DetailRows(): (r: seq<Board>)
      reads this
      ensures |r| <= 1
      ensures forall b :: b in r <==> b in FilteredData() && expandedRow == Some(b.motherboard)
    {
      AtMostOneExpanded(FilteredData(), expandedRow);
      ExpandedRows(FilteredData(), expandedRow)
    }

    /** The search box's `onChange`: replaces the term, leaves the rest of the state alone. */
    method SetSearchTerm(t: string)
      modifies this
      ensures searchTerm == t
      ensures selectedManufacturer == old(selectedManufacturer) && expandedRow == old(expandedRow)
    {
      searchTerm := t;
    }

    /** A manufacturer button's `onClick`: selects that manufacturer, leaves the rest of the state alone. */
    method SetSelectedManufacturer(m: string)
      modifies this
      ensures selectedManufacturer == m
      ensures searchTerm == old(searchTerm) && expandedRow == old(expandedRow)
    {
      selectedManufacturer := m;
    }

    /**
     `toggleRow`: collapses the row when it is the expanded one, otherwise
     expands it (collapsing any other); the search and manufacturer stay.
     Expanding a shown row opens that row's panel and no other.
     */
    method ToggleRow(motherboard: string)
      modifies this
      ensures expandedRow == Toggle(old(expandedRow), motherboard)
      ensures searchTerm == old(searchTerm) && selectedManufacturer == old(selectedManufacturer)
      ensures old(expandedRow) == Some(motherboard) ==> DetailRows() == []
      ensures old(expandedRow) != Some(motherboard) ==>
        forall b :: b in FilteredData() && b.motherboard == motherboard ==> DetailRows() == [b]
    {
      expandedRow := Toggle(expandedRow, motherboard);
      ExpandedRowsAbsent(FilteredData(), None);
      forall b | b in FilteredData() && b.motherboard == motherboard && expandedRow == Some(motherboard)
        ensures DetailRows() == [b]
      {
        ExpandedRowsOfShown(FilteredData(), b);
      }
    }
  }
}
