/**
  * The dashboard's Recent Crime Reports card: five crimes a page, a button for every page,
  * and the crime whose details are open.
  */
module RecentCrimesPage {
  import opened Wrappers
  import opened Schema
  import opened Paging
  import opened CrimeListing

  const PerPage: nat := 5

  /** The endpoint returns at most ten crimes, so the card never has more than two pages. */
  lemma AtMostTwoPages(db: Database)
    ensures TotalPages(|RecentCrimes(db)|, PerPage) <= 2
  {
    assert |RecentCrimes(db)| <= RecentLimit;
  }

  /** Every page button leads to a page that shows from one to five crimes. */
  lemma {:induction false} EveryButtonShowsCrimes(crimes: seq<RecentCrime>, i: nat)
    requires i < |AllPageButtons(TotalPages(|crimes|, PerPage))|
    ensures 1 <= |PageItems(crimes, AllPageButtons(TotalPages(|crimes|, PerPage))[i], PerPage)| <= PerPage
  {
    var b := AllPageButtons(TotalPages(|crimes|, PerPage));
    assert b[i] in b;
    PageItemsOfPage(crimes, b[i], PerPage);
  }

  /** The `RecentCrimes` component's `useState` fields. */
  class RecentCrimesState {
    var currentPage: int
    var selectedCrime: Option<string>
    var isModalOpen: bool

    /** The page can reach 0 (see `ClickNext`), never below. */
    predicate Valid()
      reads this
    {
      currentPage >= 0
    }

    /** The detail dialog is shown only when it is open and a crime is selected. */
    predicate ShowsDetails()
      reads this
    {
      isModalOpen && selectedCrime.Some? && selectedCrime.value != ""
    }

    constructor ()
      ensures Valid() && currentPage == 1 && selectedCrime == None && !isModalOpen
    {
      currentPage := 1;
      selectedCrime := None;
      isModalOpen := false;
    }

    /** The eye button of a row: that crime becomes the selected one and the dialog opens; the page is kept. */
    method OpenCrimeDetails(crimeId: string)
      modifies this
      ensures selectedCrime == Some(crimeId) && isModalOpen && currentPage == old(currentPage)
      ensures ShowsDetails() <==> crimeId != ""
    {
      selectedCrime := Some(crimeId);
      isModalOpen := true;
    }

    /** The dialog's close: it is hidden, and the selection stays. */
    method CloseDetails()
      modifies this
      ensures !isModalOpen && !ShowsDetails()
      ensures selectedCrime == old(selectedCrime) && currentPage == old(currentPage)
    {
      isModalOpen := false;
    }

    /** The crimes of the current page. */
    function Visible(crimes: seq<RecentCrime>): seq<RecentCrime>
      reads this
    {
      PageItems(crimes, currentPage, PerPage)
    }

    /** The previous button: one page back, at least page 1. */
    method ClickPrev()
      requires Valid()
      modifies this
      ensures Valid() && currentPage == Prev(old(currentPage))
      ensures selectedCrime == old(selectedCrime) && isModalOpen == old(isModalOpen)
    {
      if !PrevDisabled(currentPage) {
        currentPage := Prev(currentPage);
      }
    }

    /** The next button: one page on, at most the last page; with no crimes page 1 goes to 0. */
    method ClickNext(totalRecords: nat)
      requires Valid()
      modifies this
      ensures Valid() && currentPage == Next(old(currentPage), TotalPages(totalRecords, PerPage))
      ensures selectedCrime == old(selectedCrime) && isModalOpen == old(isModalOpen)
      ensures totalRecords == 0 && old(currentPage) == 1 ==> currentPage == 0
    {
      var totalPages := TotalPages(totalRecords, PerPage);
      if !NextDisabled(currentPage, totalPages) {
        currentPage := Next(currentPage, totalPages);
      }
    }

    /** Button `i` of the full button row: page `i + 1`, which exists. */
    method ClickPageButton(totalRecords: nat, i: nat)
      requires i < |AllPageButtons(TotalPages(totalRecords, PerPage))|
      modifies this
      ensures Valid() && currentPage == i + 1 && 1 <= currentPage <= TotalPages(totalRecords, PerPage)
      ensures selectedCrime == old(selectedCrime) && isModalOpen == old(isModalOpen)
    {
      currentPage := i + 1;
    }
  }
}
