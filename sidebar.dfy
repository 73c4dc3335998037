/**
 * The navigation script core/static/core/js/sidebar.js: opening and closing
 * the sidebar with its overlay and toggle button, and the accordion of
 * dropdown sections in which opening one section closes every other one.
 *
 * The page's elements are fields of a `Page`: three flags for the sidebar,
 * the overlay and the toggle button, the "open" class of every
 * `.dropdown-content` in document order, and the inline transform of every
 * `.dropdown-arrow`. An element the script looks up is an index into those
 * arrays, or None when the lookup returns null.
 */
module Sidebar {
  import opened Options

  /** The inline `style.transform` of an arrow. */
  datatype Transform = NoTransform | Rotate(degrees: int)

  /** The sidebar's three flags: `open` on the sidebar, `show` on the
      overlay, `hidden` on the toggle button. */
  datatype SidebarState = SidebarState(open: bool, overlayShown: bool, toggleHidden: bool)

  /** The state after `toggleSidebar`. */
  function SidebarToggled(s: SidebarState): (t: SidebarState)
    ensures t.open == !s.open && t.overlayShown == !s.overlayShown
    ensures t.toggleHidden == t.open
  {
    SidebarState(!s.open, !s.overlayShown, !s.open)
  }

  /** Overlay shown and button hidden exactly while the sidebar is open. */
  predicate SidebarConsistent(s: SidebarState) {
    s.overlayShown == s.open && s.toggleHidden == s.open
  }

  /** Toggling keeps the sidebar, overlay and button in step, and toggling
      twice restores the page. */
  lemma SidebarToggleKeepsConsistent(s: SidebarState)
    ensures SidebarConsistent(s) ==> SidebarConsistent(SidebarToggled(s))
    ensures SidebarConsistent(s) ==> SidebarToggled(SidebarToggled(s)) == s
  {
  }

  /** The dropdowns' "open" flags after the first loop of `toggleDropdown`:
      every section other than the clicked one closed. */
  function OthersClosed(open: seq<bool>, content: Option<nat>): (r: seq<bool>)
    ensures |r| == |open|
    ensures forall j :: 0 <= j < |r| && content != Some(j) ==> !r[j]
    ensures forall j :: 0 <= j < |r| && content == Some(j) ==> r[j] == open[j]
  {
    seq(|open|, j requires 0 <= j < |open| => if content == Some(j) then open[j] else false)
  }

  /** The dropdowns' flags after `toggleDropdown`: the others closed, the
      clicked one flipped (when the lookup found it). */
  function DropdownAfter(open: seq<bool>, content: Option<nat>): (r: seq<bool>)
    requires content.Some? ==> content.value < |open|
    ensures |r| == |open|
  {
    var closed := OthersClosed(open, content);
    if content.Some? then closed[content.value := !open[content.value]] else closed
  }

  /** The arrows after `toggleDropdown`: every arrow other than the clicked
      one back at 0 degrees, the clicked one at 90 when its section ended up
      open and at 0 when it ended up closed (`isOpen` is None when the script
      stopped before setting it). */
  function ArrowsAfter(arrows: seq<Transform>, clicked: Option<nat>, isOpen: Option<bool>): (r: seq<Transform>)
    ensures |r| == |arrows|
  {
    seq(|arrows|, j requires 0 <= j < |arrows| =>
      if clicked != Some(j) then Rotate(0)
      else if isOpen.Some? then (if isOpen.value then Rotate(90) else Rotate(0))
      else arrows[j])
  }

  /** The accordion: whatever the flags were before, afterwards at most one
      section is open; the clicked one is flipped and every other one closed. */
  lemma DropdownAtMostOneOpen(open: seq<bool>, content: Option<nat>)
    requires content.Some? ==> content.value < |open|
    ensures var r := DropdownAfter(open, content);
      && (forall i, j :: 0 <= i < |r| && 0 <= j < |r| && r[i] && r[j] ==> i == j)
      && (forall j :: 0 <= j < |r| && content != Some(j) ==> !r[j])
      && (content.Some? ==> r[content.value] == !open[content.value])
  {
  }

  /** Clicking the same header twice opens its section and closes it again,
      leaving every section closed. */
  lemma DropdownClickTwiceClosesAll(open: seq<bool>, k: nat)
    requires k < |open|
    ensures DropdownAfter(open, Some(k))[k] == !open[k]
    ensures var twice := DropdownAfter(DropdownAfter(open, Some(k)), Some(k));
      !open[k] ==> forall j :: 0 <= j < |twice| ==> !twice[j]
  {
  }

  /** After a completed click the clicked arrow points right exactly when its
      section is open, and every other arrow points down. */
  lemma ArrowsFollowSections(open: seq<bool>, arrows: seq<Transform>, k: nat, a: nat)
    requires k < |open| && a < |arrows|
    ensures var r := DropdownAfter(open, Some(k));
      var t := ArrowsAfter(arrows, Some(a), Some(r[k]));
      && (t[a] == Rotate(90) <==> r[k])
      && (t[a] == Rotate(0) <==> !r[k])
      && forall j :: 0 <= j < |t| && j != a ==> t[j] == Rotate(0)
  {
  }

  /** The elements sidebar.js reads and changes. */
  class Page {
    var sidebarOpen: bool
    var overlayShown: bool
    var toggleHidden: bool
    /** The "open" class of each `.dropdown-content`, in document order. */
    const contents: array<bool>
    /** The transform of each `.dropdown-arrow`, in document order. */
    const arrows: array<Transform>

    /** A page as served: sidebar and every section closed, arrows
        untransformed. */
    constructor (sections: nat, arrowCount: nat)
      ensures Sidebar() == SidebarState(false, false, false) && SidebarConsistent(Sidebar())
      ensures fresh(contents) && fresh(arrows)
      ensures contents.Length == sections && arrows.Length == arrowCount
      ensures forall j :: 0 <= j < sections ==> !contents[j]
      ensures forall j :: 0 <= j < arrowCount ==> arrows[j] == NoTransform
    {
      sidebarOpen, overlayShown, toggleHidden := false, false, false;
      contents := new bool[sections](_ => false);
      arrows := new Transform[arrowCount](_ => NoTransform);
    }

    function Sidebar(): SidebarState
      reads this
    {
      SidebarState(sidebarOpen, overlayShown, toggleHidden)
    }

    /** `toggleSidebar()`. */
    method ToggleSidebar()
      modifies this
      ensures Sidebar() == SidebarToggled(old(Sidebar()))
    {
      sidebarOpen := !sidebarOpen;
      var isOpen := sidebarOpen;
      overlayShown := !overlayShown;
      if isOpen {
        toggleHidden := true;
      } else {
        toggleHidden := false;
      }
    }

    /** `toggleDropdown(id)`: `content` is the section `getElementById(id)`
        found and `clickedArrow` the arrow inside the clicked header. Either
        may be missing, and then the script stops with a TypeError
        (`completed` is false) after the updates before the failing line. */
    method ToggleDropdown(content: Option<nat>, clickedArrow: Option<nat>) returns (completed: bool)
      requires content.Some? ==> content.value < contents.Length
      requires clickedArrow.Some? ==> clickedArrow.value < arrows.Length
      modifies contents, arrows
      ensures contents[..] == DropdownAfter(old(contents[..]), content)
      ensures arrows[..] == ArrowsAfter(old(arrows[..]), clickedArrow,
                                       if content.Some? then Some(contents[content.value]) else None)
      ensures completed <==> content.Some? && clickedArrow.Some?
    {
      ghost var open0 := contents[..];
      ghost var arrows0 := arrows[..];
      for i := 0 to contents.Length
        invariant forall j :: 0 <= j < i ==> contents[j] == OthersClosed(open0, content)[j]
        invariant forall j :: i <= j < contents.Length ==> contents[j] == open0[j]
        invariant arrows[..] == arrows0
      {
        if content != Some(i) {
          contents[i] := false;
        }
      }
      assert contents[..] == OthersClosed(open0, content);
      for i := 0 to arrows.Length
        invariant forall j :: 0 <= j < i ==> arrows[j] == ArrowsAfter(arrows0, clickedArrow, None)[j]
        invariant forall j :: i <= j < arrows.Length ==> arrows[j] == arrows0[j]
        invariant contents[..] == OthersClosed(open0, content)
      {
        if clickedArrow != Some(i) {
          arrows[i] := Rotate(0);
        }
      }
      if content.None? {
        assert arrows[..] == ArrowsAfter(arrows0, clickedArrow, None);
        return false;
      }
      contents[content.value] := !contents[content.value];
      var isOpen := contents[content.value];
      if clickedArrow.None? {
        assert arrows[..] == ArrowsAfter(arrows0, clickedArrow, Some(isOpen));
        return false;
      }
      arrows[clickedArrow.value] := if isOpen then Rotate(90) else Rotate(0);
      assert arrows[..] == ArrowsAfter(arrows0, clickedArrow, Some(isOpen));
      return true;
    }
  }
}
