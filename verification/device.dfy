/**
  What the plugin asks of the device and of the view hierarchy: the device
  orientation, and the first navigation bar among the parent view's subviews.
 */
module Device {
  import opened Wrappers

  /** UIKit's `UIDeviceOrientation` values. */
  datatype Orientation =
    | Unknown
    | Portrait
    | PortraitUpsideDown
    | LandscapeLeft
    | LandscapeRight
    | FaceUp
    | FaceDown

  /** UIKit's `UIDeviceOrientationIsPortrait`. */
  predicate IsPortrait(o: Orientation) {
    o == Portrait || o == PortraitUpsideDown
  }

  /** UIKit's `UIDeviceOrientationIsLandscape`. */
  predicate IsLandscape(o: Orientation) {
    o == LandscapeLeft || o == LandscapeRight
  }

  /**
    A subview of the parent view, reduced to what the plugin reads of it:
    whether its class is exactly `UINavigationBar` (a subclass does not
    match `isMemberOfClass`), whether it is hidden, and its frame height.
   */
  datatype View = View(isNavigationBar: bool, hidden: bool, height: real)

  /** The height assumed for a navigation bar before one is found. */
  const DefaultNavBarHeight: real := 44.0

  /** The first subview whose class is exactly `UINavigationBar`, if any. */
  function FirstNavigationBar(subviews: seq<View>): (r: Option<View>)
    ensures r.Some? ==> r.value in subviews && r.value.isNavigationBar
    // The one found is the first: no navigation bar comes before it.
    ensures r.Some? ==> exists i :: 0 <= i < |subviews| && subviews[i] == r.value
                                    && forall j :: 0 <= j < i ==> !subviews[j].isNavigationBar
    ensures r.None? ==> forall i :: 0 <= i < |subviews| ==> !subviews[i].isNavigationBar
  {
    if subviews == [] then None
    else if subviews[0].isNavigationBar then Some(subviews[0])
    else FirstNavigationBar(subviews[1..])
  }

  /** Whether the navigation bar that `FirstNavigationBar` finds is on screen. */
  function NavBarShown(subviews: seq<View>): bool {
    var nav := FirstNavigationBar(subviews);
    nav.Some? && !nav.value.hidden
  }

  /** The navigation bar height the web view correction uses. */
  function NavBarHeight(subviews: seq<View>): real {
    var nav := FirstNavigationBar(subviews);
    if nav.Some? then nav.value.height else DefaultNavBarHeight
  }

  /**
    The scan of the parent's subviews done by the web view correction: stop at
    the first exact `UINavigationBar`, take its visibility and height, and
    otherwise report it as not shown with the default height.
   */
  method FindNavigationBar(subviews: seq<View>) returns (shown: bool, height: real)
    ensures shown == NavBarShown(subviews)
    ensures height == NavBarHeight(subviews)
    ensures shown ==> exists i :: 0 <= i < |subviews| && subviews[i].isNavigationBar && !subviews[i].hidden
                                  && forall j :: 0 <= j < i ==> !subviews[j].isNavigationBar
  {
    height := DefaultNavBarHeight;
    shown := false;
    var i := 0;
    while i < |subviews|
      invariant 0 <= i <= |subviews|
      invariant FirstNavigationBar(subviews) == FirstNavigationBar(subviews[i..])
      invariant !shown && height == DefaultNavBarHeight
    {
      if subviews[i].isNavigationBar {
        shown := !subviews[i].hidden;
        height := subviews[i].height;
        return;
      }
      assert subviews[i..][1..] == subviews[i + 1..];
      i := i + 1;
    }
  }
}
