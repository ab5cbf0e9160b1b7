/**
 The scroll chrome of the page: whether the navigation bar has its solid
 background (`scrolled`) and whether the "back to top" button is shown
 (`showScrollTop`), both recomputed by the scroll handler from the raw
 vertical scroll offset.
 */
module ScrollChrome {

  /** Offsets strictly above this make the navigation bar solid. */
  const NavThreshold: real := 50.0

  /** Offsets strictly above this show the "back to top" button. */
  const ScrollTopThreshold: real := 500.0

  predicate NavSolid(y: real) {
    y > NavThreshold
  }

  predicate ShowsScrollTop(y: real) {
    y > ScrollTopThreshold
  }

  /** The button is never shown over a transparent navigation bar. */
  lemma ScrollTopImpliesNavSolid(y: real)
    ensures ShowsScrollTop(y) ==> NavSolid(y)
  {
  }

  /** The two flags as the page holds them. */
  class Chrome {
    var scrolled: bool
    var showScrollTop: bool

    /** Mount: both flags start false. */
    constructor ()
      ensures !scrolled && !showScrollTop
    {
      scrolled, showScrollTop := false, false;
    }

    /**
     The scroll handler at offset `y`. `scrolled` is written only when its new
     value differs from the current one, which `wroteScrolled` reports;
     `showScrollTop` is written every time.
     */
    method OnScroll(y: real) returns (wroteScrolled: bool)
      modifies this
      ensures scrolled == NavSolid(y)
      ensures showScrollTop == ShowsScrollTop(y)
      ensures showScrollTop ==> scrolled
      ensures wroteScrolled == (NavSolid(y) != old(scrolled))
    {
      var isScrolled := y > NavThreshold;
      var showButton := y > ScrollTopThreshold;
      wroteScrolled := false;
      if isScrolled != scrolled {
        scrolled := isScrolled;
        wroteScrolled := true;
      }
      showScrollTop := showButton;
    }

    /**
     Not an operation of the page: a client of OnScroll stating its
     idempotence. Delivering the same offset twice leaves the flags as one
     delivery does, and the second delivery does not write `scrolled`.
     */
    method OnScrollTwice(y: real) returns (secondWrote: bool)
      modifies this
      ensures scrolled == NavSolid(y) && showScrollTop == ShowsScrollTop(y)
      ensures !secondWrote
    {
      var _ := OnScroll(y);
      secondWrote := OnScroll(y);
    }
  }
}
