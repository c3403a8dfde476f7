/**
  The frame arithmetic of the tab bar plugin: where the tab bar goes at the
  bottom of the parent view, the per-orientation cache of "good" bar
  positions that papers over stale bounds after quick successive rotations,
  and where the web view goes between the status bar (plus an optional
  navigation bar) and the tab bar. `CGFloat` is modelled by `real`.
 */
module Layout {
  import opened Wrappers
  import opened Device

  datatype Rect = Rect(x: real, y: real, width: real, height: real)

  /** The right edge of the parent bounds. */
  function RawRight(bounds: Rect): real {
    bounds.x + bounds.width
  }

  /** The top edge of a tab bar of the given height sitting at the bottom of the parent bounds. */
  function RawBottom(bounds: Rect, barHeight: real): real {
    bounds.y + bounds.height - barHeight
  }

  /**
    The four optional cached values. They are separate optionals, as in the
    plugin; `Paired` states that they are only ever set two at a time.
    A "width" is a right edge and a "height" is a bar top, both absolute.
   */
  datatype Cache = Cache(
    portraitHeight: Option<real>,
    portraitWidth: Option<real>,
    landscapeHeight: Option<real>,
    landscapeWidth: Option<real>)

  const EmptyCache := Cache(None, None, None, None)

  predicate PortraitComplete(c: Cache) {
    c.portraitHeight.Some? && c.portraitWidth.Some?
  }

  predicate LandscapeComplete(c: Cache) {
    c.landscapeHeight.Some? && c.landscapeWidth.Some?
  }

  /** Each orientation's height and width are present together or absent together. */
  predicate Paired(c: Cache) {
    && (c.portraitHeight.Some? <==> c.portraitWidth.Some?)
    && (c.landscapeHeight.Some? <==> c.landscapeWidth.Some?)
  }

  /** A cached portrait entry is portrait-shaped and a cached landscape entry is landscape-shaped. */
  predicate Consistent(c: Cache) {
    && (PortraitComplete(c) ==> c.portraitWidth.value <= c.portraitHeight.value)
    && (LandscapeComplete(c) ==> c.landscapeWidth.value >= c.landscapeHeight.value)
  }

  /** The right edge of a tab bar frame. */
  function BarRight(frame: Rect): real {
    frame.x + frame.width
  }

  /** The result of one tab bar correction: the frame written and the cache afterwards. */
  datatype BarLayout = BarLayout(frame: Rect, cache: Cache)

  /** The bar frame spanning `left`..`right` with its top at `bottom`. */
  function BarFrame(left: real, right: real, bottom: real, barHeight: real): Rect {
    Rect(left, bottom, right - left, barHeight)
  }

  /**
    The tab bar correction when the bar is visible. The candidate edges come
    from the parent bounds. In a portrait orientation, bounds that look
    landscape (right > bottom) are replaced by the cached portrait values when
    both are present, except on an iPhone held upside down; portrait-looking
    bounds are stored. Landscape is symmetric (right < bottom contradicts it)
    without the upside-down exception. Any other orientation uses the
    candidate and leaves the cache alone.
   */
  function TabBarLayout(cache: Cache, bounds: Rect, orientation: Orientation, isPad: bool, barHeight: real): (r: BarLayout)
    // The bar always starts at the parent's left edge and has the bar height.
    ensures r.frame.x == bounds.x && r.frame.height == barHeight
    // Portrait-shaped bounds in portrait: stored as the portrait entry, used as they are.
    ensures IsPortrait(orientation) && RawRight(bounds) <= RawBottom(bounds, barHeight) ==>
      && r.frame == BarFrame(bounds.x, RawRight(bounds), RawBottom(bounds, barHeight), barHeight)
      && r.cache == cache.(portraitHeight := Some(RawBottom(bounds, barHeight)), portraitWidth := Some(RawRight(bounds)))
    // Landscape-shaped bounds in portrait: the cached entry is used when complete, except upside down on an iPhone.
    ensures IsPortrait(orientation) && RawRight(bounds) > RawBottom(bounds, barHeight) ==>
      && r.cache == cache
      && (if (isPad || orientation != PortraitUpsideDown) && PortraitComplete(cache)
          then r.frame == BarFrame(bounds.x, cache.portraitWidth.value, cache.portraitHeight.value, barHeight)
          else r.frame == BarFrame(bounds.x, RawRight(bounds), RawBottom(bounds, barHeight), barHeight))
    // Landscape-shaped bounds in landscape: stored as the landscape entry, used as they are.
    ensures IsLandscape(orientation) && RawRight(bounds) >= RawBottom(bounds, barHeight) ==>
      && r.frame == BarFrame(bounds.x, RawRight(bounds), RawBottom(bounds, barHeight), barHeight)
      && r.cache == cache.(landscapeHeight := Some(RawBottom(bounds, barHeight)), landscapeWidth := Some(RawRight(bounds)))
    // Portrait-shaped bounds in landscape: the cached entry is used when complete.
    ensures IsLandscape(orientation) && RawRight(bounds) < RawBottom(bounds, barHeight) ==>
      && r.cache == cache
      && (if LandscapeComplete(cache)
          then r.frame == BarFrame(bounds.x, cache.landscapeWidth.value, cache.landscapeHeight.value, barHeight)
          else r.frame == BarFrame(bounds.x, RawRight(bounds), RawBottom(bounds, barHeight), barHeight))
    // Neither portrait nor landscape (unknown, face up, face down): the candidate, cache untouched.
    ensures !IsPortrait(orientation) && !IsLandscape(orientation) ==>
      && r.frame == BarFrame(bounds.x, RawRight(bounds), RawBottom(bounds, barHeight), barHeight)
      && r.cache == cache
  {
    var left := bounds.x;
    var right := left + bounds.width;
    var bottom := bounds.y + bounds.height - barHeight;
    if IsPortrait(orientation) then
      if right > bottom then
        if (isPad || (!isPad && orientation != PortraitUpsideDown))
           && cache.portraitHeight.Some? && cache.portraitWidth.Some?
        then BarLayout(BarFrame(left, cache.portraitWidth.value, cache.portraitHeight.value, barHeight), cache)
        else BarLayout(BarFrame(left, right, bottom, barHeight), cache)
      else
        BarLayout(BarFrame(left, right, bottom, barHeight),
                  cache.(portraitHeight := Some(bottom), portraitWidth := Some(right)))
    else if IsLandscape(orientation) then
      if right < bottom then
        if cache.landscapeHeight.Some? && cache.landscapeWidth.Some?
        then BarLayout(BarFrame(left, cache.landscapeWidth.value, cache.landscapeHeight.value, barHeight), cache)
        else BarLayout(BarFrame(left, right, bottom, barHeight), cache)
      else
        BarLayout(BarFrame(left, right, bottom, barHeight),
                  cache.(landscapeHeight := Some(bottom), landscapeWidth := Some(right)))
    else
      BarLayout(BarFrame(left, right, bottom, barHeight), cache)
  }

  /** Whether `TabBarLayout` replaced the candidate edges by cached ones. */
  predicate Substituted(cache: Cache, bounds: Rect, orientation: Orientation, isPad: bool, barHeight: real) {
    || (IsPortrait(orientation) && RawRight(bounds) > RawBottom(bounds, barHeight)
        && (isPad || orientation != PortraitUpsideDown) && PortraitComplete(cache))
    || (IsLandscape(orientation) && RawRight(bounds) < RawBottom(bounds, barHeight)
        && LandscapeComplete(cache))
  }

  /**
    The web view correction when the bar is visible: the web view spans the
    parent's width, starts below the status bar and, when one is shown, the
    navigation bar, and ends where an uncorrected tab bar begins.
   */
  function WebViewFrame(bounds: Rect, barHeight: real, statusBarHeight: real, navShown: bool, navHeight: real): (r: Rect)
    ensures r.x == bounds.x && r.width == bounds.width
    ensures r.y == bounds.y + (if navShown then navHeight else 0.0) + statusBarHeight
    ensures r.y + r.height == RawBottom(bounds, barHeight)
  {
    var left := bounds.x;
    var right := left + bounds.width;
    var top := bounds.y;
    var bottom := top + bounds.height - barHeight;
    var top' := if navShown then top + navHeight else top;
    Rect(left, top' + statusBarHeight, right - left, bottom - (top' + statusBarHeight))
  }

  /** Only a stored entry is ever changed, so the cached values stay paired. */
  lemma TabBarLayoutKeepsPaired(cache: Cache, bounds: Rect, orientation: Orientation, isPad: bool, barHeight: real)
    requires Paired(cache)
    ensures Paired(TabBarLayout(cache, bounds, orientation, isPad, barHeight).cache)
  {
  }

  /** Bounds that contradict the orientation are never stored, so the cache stays consistent. */
  lemma TabBarLayoutKeepsConsistent(cache: Cache, bounds: Rect, orientation: Orientation, isPad: bool, barHeight: real)
    requires Consistent(cache)
    ensures Consistent(TabBarLayout(cache, bounds, orientation, isPad, barHeight).cache)
  {
  }

  /**
    What the heuristic buys: with a consistent cache holding an entry for the
    current orientation, the bar is placed in a region shaped like that
    orientation, whatever the reported bounds, except on an iPhone held
    upside down.
   */
  lemma TabBarLayoutAgreesWithOrientation(cache: Cache, bounds: Rect, orientation: Orientation, isPad: bool, barHeight: real)
    requires Consistent(cache)
    ensures var r := TabBarLayout(cache, bounds, orientation, isPad, barHeight);
      && (IsPortrait(orientation) && PortraitComplete(cache) && (isPad || orientation != PortraitUpsideDown)
          ==> BarRight(r.frame) <= r.frame.y)
      && (IsLandscape(orientation) && LandscapeComplete(cache) ==> BarRight(r.frame) >= r.frame.y)
  {
  }

  /** When no cached value is substituted, the web view ends exactly where the tab bar starts. */
  lemma WebViewAbutsTabBar(cache: Cache, bounds: Rect, orientation: Orientation, isPad: bool,
                           barHeight: real, statusBarHeight: real, navShown: bool, navHeight: real)
    requires !Substituted(cache, bounds, orientation, isPad, barHeight)
    ensures var bar := TabBarLayout(cache, bounds, orientation, isPad, barHeight).frame;
      var web := WebViewFrame(bounds, barHeight, statusBarHeight, navShown, navHeight);
      web.y + web.height == bar.y && web.x == bar.x && web.width == bar.width
  {
  }

  /**
    A second correction with the same inputs changes nothing more: the cache
    the first one leaves behind makes the second one take the same decision.
   */
  lemma TabBarLayoutIdempotent(cache: Cache, bounds: Rect, orientation: Orientation, isPad: bool, barHeight: real)
    ensures var r := TabBarLayout(cache, bounds, orientation, isPad, barHeight);
      TabBarLayout(r.cache, bounds, orientation, isPad, barHeight) == r
  {
  }

  /**
    Parent bounds 800 wide and 400 high reported while the device is in
    portrait, with portrait edges (400, 800) cached: the bar uses the cached
    edges, not the landscape-looking candidate.
   */
  lemma StaleBoundsExample()
    ensures var cache := EmptyCache.(portraitHeight := Some(800.0), portraitWidth := Some(400.0));
      TabBarLayout(cache, Rect(0.0, 0.0, 800.0, 400.0), Portrait, false, 49.0).frame
        == Rect(0.0, 800.0, 400.0, 49.0)
  {
  }
}
