/** The responsive breakpoints, as predicates on the viewport width in CSS pixels. */
module Breakpoints {

  /** Below this width the layout is the mobile one. */
  const MobileBreakpoint: int := 768

  /** `window.innerWidth < MOBILE_BREAKPOINT`. */
  predicate IsMobile(width: int) {
    width < MobileBreakpoint
  }

  /** `(max-width: 430px)`. */
  predicate IsSmallMobile(width: int) {
    width <= 430
  }

  /** `(min-width: 431px) and (max-width: 639px)`. */
  predicate IsMediumMobile(width: int) {
    431 <= width <= 639
  }

  /** `(min-width: 640px) and (max-width: 767px)`. */
  predicate IsLargeMobile(width: int) {
    640 <= width <= 767
  }

  /** `(min-width: 768px)`. */
  predicate IsDesktop(width: int) {
    width >= 768
  }

  /** The four flags a screen reads from its hooks. Screens may hold any combination (the hooks
      start out false before their first effect runs); `At` gives the flags of a settled width. */
  datatype Flags = Flags(isMobile: bool, isSmallMobile: bool, isMediumMobile: bool, isLargeMobile: bool)

  /** The flags at a given width: mobile is exactly one of the three mobile ranges, the ranges
      never overlap, and desktop is exactly the complement of mobile. */
  function At(width: int): (f: Flags)
    ensures f.isMobile <==> f.isSmallMobile || f.isMediumMobile || f.isLargeMobile
    ensures !(f.isSmallMobile && f.isMediumMobile)
    ensures !(f.isSmallMobile && f.isLargeMobile)
    ensures !(f.isMediumMobile && f.isLargeMobile)
    ensures f.isMobile <==> !IsDesktop(width)
    ensures f.isMobile <==> width < 768
  {
    Flags(IsMobile(width), IsSmallMobile(width), IsMediumMobile(width), IsLargeMobile(width))
  }
}
