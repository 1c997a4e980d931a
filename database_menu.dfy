/** The Database menu wired by `wireMenu`: open or closed, toggled by its
    button, closed by a click outside it and by Escape on the button. The
    button's `aria-expanded` attribute mirrors the state. */
module DatabaseMenu {

  /** The events the listeners react to. A click on the button stops
      propagating, so `DocumentClick` stands for every other click, inside
      the menu's list or outside the menu. */
  datatype MenuEvent = ButtonClick | DocumentClick(insideMenu: bool) | ButtonKeyDown(key: string)

  /** The value written to `aria-expanded`. */
  function AriaExpanded(open: bool): string {
    if open then "true" else "false"
  }

  /** Whether the menu is open after one event: a closing event closes it,
      the button toggles it, and every other event leaves it. */
  function NextOpen(open: bool, e: MenuEvent): (r: bool)
    ensures Closes(e) ==> !r
    ensures e == ButtonClick ==> r == !open
    ensures !Closes(e) && e != ButtonClick ==> r == open
  {
    match e
    case ButtonClick => !open
    case DocumentClick(inside) => if !inside then false else open
    case ButtonKeyDown(key) => if key == "Escape" then false else open
  }

  /** The events that close the menu. */
  predicate Closes(e: MenuEvent) {
    e == DocumentClick(false) || e == ButtonKeyDown("Escape")
  }

  /** A closing event closes the menu whatever its state, so closing twice is
      closing once; a click inside the menu and any other key change nothing;
      the button toggles, so two clicks restore the state. */
  lemma EventEffects(open: bool, e: MenuEvent)
    ensures Closes(e) ==> !NextOpen(open, e) && NextOpen(NextOpen(open, e), e) == NextOpen(open, e)
    ensures !Closes(e) && e != ButtonClick ==> NextOpen(open, e) == open
    ensures e == ButtonClick ==> NextOpen(open, e) != open && NextOpen(NextOpen(open, e), e) == open
  {
  }

  /** The state after a sequence of events. */
  function Replay(open: bool, events: seq<MenuEvent>): bool
    decreases |events|
  {
    if events == [] then open else Replay(NextOpen(open, events[0]), events[1..])
  }

  lemma {:induction false} ReplayAppend(open: bool, events: seq<MenuEvent>, e: MenuEvent)
    ensures Replay(open, events + [e]) == NextOpen(Replay(open, events), e)
    decreases |events|
  {
    if events != [] {
      assert (events + [e])[1..] == events[1..] + [e];
      ReplayAppend(NextOpen(open, events[0]), events[1..], e);
    }
  }

  /** Whatever happened before, a closing event leaves the menu closed. */
  lemma ClosedAfterClosingEvent(open: bool, events: seq<MenuEvent>, e: MenuEvent)
    requires Closes(e)
    ensures !Replay(open, events + [e])
  {
    ReplayAppend(open, events, e);
  }

  /** A menu that starts closed is open only after a click on its button. */
  lemma {:induction false} OpensOnlyByButton(events: seq<MenuEvent>)
    requires Replay(false, events)
    ensures exists i :: 0 <= i < |events| && events[i] == ButtonClick
    decreases |events|
  {
    if events[0] != ButtonClick {
      assert NextOpen(false, events[0]) == false;
      OpensOnlyByButton(events[1..]);
      var i :| 0 <= i < |events[1..]| && events[1..][i] == ButtonClick;
      assert events[i + 1] == ButtonClick;
    }
  }

  function Clicks(n: nat): seq<MenuEvent>
    decreases n
  {
    if n == 0 then [] else [ButtonClick] + Clicks(n - 1)
  }

  /** After `n` clicks on the button the menu is open exactly when it was
      open before and `n` is even, or closed before and `n` is odd. */
  lemma {:induction false} ClicksToggle(open: bool, n: nat)
    ensures Replay(open, Clicks(n)) == (open == (n % 2 == 0))
    decreases n
  {
    if n > 0 {
      assert Clicks(n)[1..] == Clicks(n - 1);
      ClicksToggle(!open, n - 1);
    }
  }

  /** The menu element and its button. */
  class Menu {
    var open: bool
    var ariaExpanded: string

    /** The attribute agrees with the state. */
    ghost predicate Valid()
      reads this
    {
      ariaExpanded == AriaExpanded(open)
    }

    /** As rendered: no `open` class and `aria-expanded="false"`. */
    constructor ()
      ensures Valid() && !open && ariaExpanded == "false"
    {
      open := false;
      ariaExpanded := "false";
    }

    method Open()
      modifies this
      ensures Valid() && open
    {
      open := true;
      ariaExpanded := "true";
    }

    method Close()
      modifies this
      ensures Valid() && !open
    {
      open := false;
      ariaExpanded := "false";
    }

    method OnButtonClick()
      requires Valid()
      modifies this
      ensures Valid() && open == NextOpen(old(open), ButtonClick)
    {
      if open {
        Close();
      } else {
        Open();
      }
    }

    method OnDocumentClick(insideMenu: bool)
      requires Valid()
      modifies this
      ensures Valid() && open == NextOpen(old(open), DocumentClick(insideMenu))
    {
      if !insideMenu {
        Close();
      }
    }

    method OnButtonKeyDown(key: string)
      requires Valid()
      modifies this
      ensures Valid() && open == NextOpen(old(open), ButtonKeyDown(key))
    {
      if key == "Escape" {
        Close();
      }
    }
  }
}
