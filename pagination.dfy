/** The blog index's page selector (app/blog/components/Pagination.jsx). */
module Pagination {
  import opened Wrappers

  /** `[...Array(totalPages).keys()].map((x) => x + 1)`. */
  function PageNumbers(totalPages: nat): (pages: seq<int>)
    ensures |pages| == totalPages
    ensures forall i :: 0 <= i < |pages| ==> pages[i] == i + 1
  {
    seq(totalPages, i => i + 1)
  }

  /** One rendered button: its label, whether it has the active style, and
      the page number its click handler passes to `onPageChange`. */
  datatype PageButton = PageButton(page: int, active: bool, onClickPage: int)

  /** The rendered output: nothing (`null`) or the row of buttons. */
  function Render(currentPage: int, totalPages: nat): Option<seq<PageButton>>
  {
    var pages := PageNumbers(totalPages);
    if totalPages <= 1 then None
    else Some(seq(|pages|, i requires 0 <= i < |pages| =>
      PageButton(pages[i], pages[i] == currentPage, pages[i])))
  }

  /** The page list is 1, 2, ..., totalPages: strictly ascending and holding
      exactly the numbers from 1 to totalPages. */
  lemma {:induction false} PageNumbersAscending(totalPages: nat)
    ensures forall i, j :: 0 <= i < j < totalPages ==> PageNumbers(totalPages)[i] < PageNumbers(totalPages)[j]
    ensures forall p :: p in PageNumbers(totalPages) <==> 1 <= p <= totalPages
  {
    var pages := PageNumbers(totalPages);
    forall p | 1 <= p <= totalPages
      ensures p in pages
    {
      assert pages[p - 1] == p;
    }
  }

  /** The pages the buttons' click handlers ask for. */
  function ClickTargets(buttons: seq<PageButton>): set<int>
  {
    set b | b in buttons :: b.onClickPage
  }

  /** Nothing is rendered for zero or one page. Otherwise the buttons'
      clicks reach exactly the pages 1 to totalPages, the button at
      position i asking for page i + 1 and labelled with it, and a button
      has the active style exactly when its click would stay on the
      current page. */
  lemma {:induction false} ClicksReachEveryPage(currentPage: int, totalPages: nat)
    ensures Render(currentPage, totalPages).None? <==> totalPages <= 1
    ensures Render(currentPage, totalPages).Some? ==>
      var buttons := Render(currentPage, totalPages).value;
      && |buttons| == totalPages
      && (forall p :: p in ClickTargets(buttons) <==> 1 <= p <= totalPages)
      && (forall i :: 0 <= i < |buttons| ==> buttons[i].onClickPage == buttons[i].page == i + 1)
      && (forall i :: 0 <= i < |buttons| ==> (buttons[i].active <==> buttons[i].onClickPage == currentPage))
  {
    if totalPages > 1 {
      var buttons := Render(currentPage, totalPages).value;
      forall p | 1 <= p <= totalPages
        ensures p in ClickTargets(buttons)
      {
        assert buttons[p - 1] in buttons;
      }
    }
  }

  /** At most one button is active, and exactly one when the current page is
      one of the listed pages. */
  lemma {:induction false} OneActiveButton(currentPage: int, totalPages: nat)
    requires totalPages > 1
    ensures var buttons := Render(currentPage, totalPages).value;
      && (forall i, j :: 0 <= i < |buttons| && 0 <= j < |buttons| && buttons[i].active && buttons[j].active ==> i == j)
      && ((exists i :: 0 <= i < |buttons| && buttons[i].active) <==> 1 <= currentPage <= totalPages)
  {
    var buttons := Render(currentPage, totalPages).value;
    if 1 <= currentPage <= totalPages {
      assert buttons[currentPage - 1].active;
    }
  }
}
