/**
 The show/hide behaviour of the group-membership panel inside
 `InjectUserGroups`: the mouse handlers `showMenu`, `hideMenuImmediately`,
 `hideMenuWithDelay` and `hideMenuIfOutside`, the timer callback they
 schedule, and the clean-up run on unmount, over the shared `hideTimer`
 handle and the panel's `hide` class.

 The host's timer service is modelled by the set of scheduled hides that
 have been neither cleared nor run, and a counter standing for the ids it
 hands out. A timer running is an explicit event (`RunTimer`), not elapsed
 time. The DOM lookups become boolean inputs: whether the mouse target lies
 inside the panel or inside the profile link, and whether that link exists.
 */
module HoverMenu {

  class Controller {
    /** The panel lacks its `hide` class. */
    var visible: bool
    /** `hideTimer`: the id of the latest scheduled hide, or 0 for `null` (host ids are positive). */
    var hideTimer: nat
    /** Ids of scheduled hides that have been neither cleared nor run. */
    var pending: set<nat>
    /** The id the host hands out next. */
    var nextId: nat

    /**
     Ids are handed out in increasing order from 1, `hideTimer` is the latest
     one handed out, and every scheduled hide still waiting is one of those.
     */
    ghost predicate Valid()
      reads this
    {
      1 <= nextId &&
      hideTimer == nextId - 1 &&
      forall t :: t in pending ==> 1 <= t <= hideTimer
    }

    /** The panel is rendered with the `hide` class, and `hideTimer` starts out `null`. */
    constructor ()
      ensures Valid()
      ensures !visible && hideTimer == 0 && pending == {}
    {
      visible := false;
      hideTimer := 0;
      pending := {};
      nextId := 1;
    }

    /**
     `showMenu` (on `mouseenter` of the profile link): removes `hide` and
     clears the timer held in `hideTimer`, and only that one; every other
     scheduled hide stays armed, and all of those are older.
     */
    method ShowMenu()
      requires Valid()
      modifies this
      ensures Valid()
      ensures visible
      ensures hideTimer == old(hideTimer) && nextId == old(nextId)
      ensures pending == old(pending) - {old(hideTimer)}
      ensures forall t :: t in pending ==> t < hideTimer
    {
      visible := true;
      if hideTimer != 0 {
        pending := pending - {hideTimer};
      }
    }

    /**
     `hideMenuImmediately` (on `click` of the profile link): clears the timer
     held in `hideTimer` and adds `hide`.
     */
    method HideMenuImmediately()
      requires Valid()
      modifies this
      ensures Valid()
      ensures !visible
      ensures hideTimer == old(hideTimer) && nextId == old(nextId)
      ensures pending == old(pending) - {old(hideTimer)}
      ensures forall t :: t in pending ==> t < hideTimer
    {
      if hideTimer != 0 {
        pending := pending - {hideTimer};
      }
      visible := false;
    }

    /**
     `hideMenuWithDelay`: schedules a hide under a fresh id and stores that id
     in `hideTimer`, overwriting the previous handle without clearing it.
     */
    method HideMenuWithDelay()
      requires Valid()
      modifies this
      ensures Valid()
      ensures visible == old(visible)
      ensures old(hideTimer) < hideTimer && hideTimer !in old(pending)
      ensures pending == old(pending) + {hideTimer}
    {
      hideTimer := nextId;
      nextId := nextId + 1;
      pending := pending + {hideTimer};
    }

    /**
     `hideMenuIfOutside` (on every `mouseover` of the document): schedules a
     delayed hide exactly when the target is outside the panel and outside
     the profile link. With no profile link on the page, a target outside
     the panel makes the handler throw before anything is scheduled.
     */
    method HideMenuIfOutside(inPanel: bool, inLink: bool, linkFound: bool)
      requires Valid()
      modifies this
      ensures Valid()
      ensures visible == old(visible)
      ensures !inPanel && linkFound && !inLink ==>
                old(hideTimer) < hideTimer && hideTimer !in old(pending) &&
                pending == old(pending) + {hideTimer}
      ensures inPanel || !linkFound || inLink ==>
                hideTimer == old(hideTimer) && pending == old(pending) && nextId == old(nextId)
    {
      if !inPanel && linkFound && !inLink {
        HideMenuWithDelay();
      }
    }

    /**
     The host runs the callback scheduled under `id`: a scheduled hide that
     was neither cleared nor run adds `hide`; a cleared one never runs.
     */
    method RunTimer(id: nat)
      requires Valid()
      modifies this
      ensures Valid()
      ensures hideTimer == old(hideTimer) && nextId == old(nextId)
      ensures pending == old(pending) - {id}
      ensures visible == (old(visible) && id !in old(pending))
    {
      if id in pending {
        visible := false;
        pending := pending - {id};
      }
    }

    /**
     The effect's clean-up: clears the timer held in `hideTimer` (the
     listeners it also removes are not part of this model); older scheduled
     hides stay armed and can still hide the panel after unmount.
     */
    method Cleanup()
      requires Valid()
      modifies this
      ensures Valid()
      ensures visible == old(visible)
      ensures hideTimer == old(hideTimer) && nextId == old(nextId)
      ensures pending == old(pending) - {old(hideTimer)}
    {
      if hideTimer != 0 {
        pending := pending - {hideTimer};
      }
    }
  }

  /**
   Pointer enters the link, moves outside twice, re-enters: the re-entry
   shows the panel, but the hide scheduled by the first outside move is
   still armed and hides the panel when it runs.
   */
  method StaleHideAfterReentry() returns (shownOnReentry: bool, shownAfterTimer: bool)
    ensures shownOnReentry && !shownAfterTimer
  {
    var c := new Controller();
    c.ShowMenu();
    c.HideMenuIfOutside(false, false, true);
    var first := c.hideTimer;
    c.HideMenuIfOutside(false, false, true);
    c.ShowMenu();
    shownOnReentry := c.visible;
    c.RunTimer(first);
    shownAfterTimer := c.visible;
  }

  /**
   Pointer enters the link, moves outside once, re-enters: the one scheduled
   hide is cleared, so when its time comes the panel stays visible.
   */
  method SingleHideCancelledByReentry() returns (shownAfterTimer: bool)
    ensures shownAfterTimer
  {
    var c := new Controller();
    c.ShowMenu();
    c.HideMenuIfOutside(false, false, true);
    var only := c.hideTimer;
    c.ShowMenu();
    c.RunTimer(only);
    shownAfterTimer := c.visible;
  }

  /**
   Moves over the panel or over the link schedule nothing: after entering
   the link and moving across both, no hide is waiting and the panel stays
   visible.
   */
  method MovesInsideScheduleNothing() returns (shown: bool, waiting: nat)
    ensures shown && waiting == 0
  {
    var c := new Controller();
    c.ShowMenu();
    c.HideMenuIfOutside(false, true, true);
    c.HideMenuIfOutside(true, false, true);
    shown := c.visible;
    waiting := |c.pending|;
  }

  /** A click on the link hides the panel at once, whatever was scheduled. */
  method ClickHides(outsideMoves: nat) returns (shown: bool)
    ensures !shown
  {
    var c := new Controller();
    c.ShowMenu();
    var i := 0;
    while i < outsideMoves
      invariant c.Valid()
    {
      c.HideMenuIfOutside(false, false, true);
      i := i + 1;
    }
    c.HideMenuImmediately();
    shown := c.visible;
  }

  /**
   Clean-up after two outside moves clears only the latest hide: the older
   one still hides the panel after unmount.
   */
  method HideAfterCleanup() returns (shownAfterCleanup: bool, shownAfterTimer: bool)
    ensures shownAfterCleanup && !shownAfterTimer
  {
    var c := new Controller();
    c.ShowMenu();
    c.HideMenuIfOutside(false, false, true);
    var first := c.hideTimer;
    c.HideMenuIfOutside(false, false, true);
    c.Cleanup();
    shownAfterCleanup := c.visible;
    c.RunTimer(first);
    shownAfterTimer := c.visible;
  }
}
