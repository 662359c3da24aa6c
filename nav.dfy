/**
 * The header's mobile menu (`Nav`): a menu-open flag, and the effect that
 * locks the page's scrolling (body overflow "hidden") while the menu is
 * open. The effect is keyed on the flag: when the flag changes, the
 * previous run's cleanup releases the lock and the new run sets it from
 * the flag; unmounting runs the cleanup once more.
 */
module Nav {

  class NavMenu {
    var isMenuOpen: bool
    /** `document.body.style.overflow == 'hidden'`. */
    var scrollLocked: bool
    var mounted: bool

    /** The lock is held exactly while the menu is mounted and open. */
    ghost predicate Valid()
      reads this
    {
      scrollLocked == (mounted && isMenuOpen)
    }

    /** Mounting: the menu starts closed and the first effect run leaves scrolling free. */
    constructor ()
      ensures Valid()
      ensures mounted && !isMenuOpen && !scrollLocked
    {
      isMenuOpen := false;
      mounted := true;
      scrollLocked := false;
    }

    /** One re-run of the effect after the flag changed: cleanup, then lock iff open. */
    method RunMenuEffect()
      requires mounted
      modifies this`scrollLocked
      ensures scrollLocked == isMenuOpen
    {
      scrollLocked := false;
      if isMenuOpen {
        scrollLocked := true;
      } else {
        scrollLocked := false;
      }
    }

    /** The burger button: flip the flag. */
    method ToggleMenu()
      requires Valid() && mounted
      modifies this
      ensures Valid() && mounted
      ensures isMenuOpen == !old(isMenuOpen)
      ensures scrollLocked == isMenuOpen
    {
      isMenuOpen := !isMenuOpen;
      RunMenuEffect();
    }

    /** The overlay, the close button and every menu link: clear the flag (no effect run if it was already clear). */
    method CloseMenu()
      requires Valid() && mounted
      modifies this
      ensures Valid() && mounted
      ensures !isMenuOpen && !scrollLocked
    {
      var changed := isMenuOpen;
      isMenuOpen := false;
      if changed {
        RunMenuEffect();
      }
    }

    /** Unmounting: the last cleanup releases the lock, whatever the flag. */
    method Unmount()
      requires Valid() && mounted
      modifies this
      ensures Valid() && !mounted
      ensures !scrollLocked && isMenuOpen == old(isMenuOpen)
    {
      scrollLocked := false;
      mounted := false;
    }
  }

  /** Two toggles return to the start; closing twice is closing once; unmounting an open menu frees scrolling. */
  method MenuScenario()
  {
    var m := new NavMenu();
    m.ToggleMenu();
    assert m.isMenuOpen && m.scrollLocked;
    m.ToggleMenu();
    assert !m.isMenuOpen && !m.scrollLocked;
    m.CloseMenu();
    m.CloseMenu();
    assert !m.isMenuOpen && !m.scrollLocked;
    m.ToggleMenu();
    m.Unmount();
    assert m.isMenuOpen && !m.scrollLocked;
  }
}
