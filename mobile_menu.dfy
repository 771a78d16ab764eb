/** The mobile navigation menu of script.js: three elements whose
    `active` class is added and removed together, and the body's overflow
    style, which is 'hidden' exactly while the menu is open. */
module MobileMenu {

  /** Above this viewport width a resize closes an open menu. */
  const DesktopWidth: int := 768

  class Menu {
    /** Whether `#hamburger`, `#navLinks` and `#navOverlay` exist. */
    const hasHamburger: bool
    const hasNavLinks: bool
    const hasOverlay: bool

    /** Whether each element carries the `active` class. */
    var hamburgerActive: bool
    var navLinksActive: bool
    var overlayActive: bool
    /** Whether `document.body.style.overflow` is 'hidden' (else ''). */
    var bodyScrollLocked: bool

    /** All three elements are present. */
    predicate Complete()
      reads this
    {
      hasHamburger && hasNavLinks && hasOverlay
    }

    /** The three classes and the scroll lock move together. */
    ghost predicate Valid()
      reads this
    {
      hamburgerActive == navLinksActive == overlayActive == bodyScrollLocked
    }

    constructor (hasHamburger: bool, hasNavLinks: bool, hasOverlay: bool)
      ensures this.hasHamburger == hasHamburger && this.hasNavLinks == hasNavLinks && this.hasOverlay == hasOverlay
      ensures Valid() && !navLinksActive
    {
      this.hasHamburger := hasHamburger;
      this.hasNavLinks := hasNavLinks;
      this.hasOverlay := hasOverlay;
      hamburgerActive, navLinksActive, overlayActive, bodyScrollLocked := false, false, false, false;
    }

    method Open()
      requires Valid()
      modifies this
      ensures Valid()
      ensures navLinksActive == (if Complete() then true else old(navLinksActive))
      ensures !Complete() ==> unchanged(this)
    {
      if !Complete() {
        return;
      }
      hamburgerActive, navLinksActive, overlayActive, bodyScrollLocked := true, true, true, true;
    }

    method Close()
      requires Valid()
      modifies this
      ensures Valid()
      ensures navLinksActive == (if Complete() then false else old(navLinksActive))
      ensures !Complete() ==> unchanged(this)
    {
      if !Complete() {
        return;
      }
      hamburgerActive, navLinksActive, overlayActive, bodyScrollLocked := false, false, false, false;
    }

    /** The hamburger's click handler: open when closed, close when open. */
    method Toggle()
      requires Valid()
      modifies this
      ensures Valid()
      ensures Complete() ==> navLinksActive == !old(navLinksActive)
      ensures !Complete() ==> unchanged(this)
    {
      if !hasNavLinks {
        return;
      }
      if navLinksActive {
        Close();
      } else {
        Open();
      }
    }

    /** The resize handler: a viewport wider than DesktopWidth closes an open menu. */
    method Resize(innerWidth: int)
      requires Valid()
      modifies this
      ensures Valid()
      ensures innerWidth > DesktopWidth && Complete() ==> !navLinksActive
      ensures innerWidth <= DesktopWidth ==> unchanged(this)
      ensures !Complete() ==> unchanged(this)
    {
      if innerWidth > DesktopWidth && hasNavLinks && navLinksActive {
        Close();
      }
    }
  }
}
