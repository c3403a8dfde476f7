/**
  The plugin object as a state record with one pure step per command or
  callback: `create`, `setVisible`, `selectItem`, the device orientation
  notification, and the tab bar delegate's tap callback. The host's views,
  the device and the app bundle are inputs; the web view load a tap starts is
  returned as a URL.
 */
module TabBarPlugin {
  import opened Wrappers
  import opened Device
  import opened Layout
  import opened Registry

  /** The heights `create` sets; before it runs both are zero. */
  const TabBarHeight: real := 49.0
  const StatusBarHeight: real := 20.0

  /**
    The current `UITabBar`, reduced to what the plugin writes or reads: its
    hidden flag, whether it has been added to the web view's parent, the
    selected item, and its frame (`None` until the plugin first writes it).
   */
  datatype TabBar = TabBar(hidden: bool, inSuperview: bool, selected: Option<TabItem>, frame: Option<Rect>)

  /**
    The plugin's fields, plus the web view frame it writes (`None` until it
    first does) and whether `create` has registered the orientation observer.
   */
  datatype Plugin = Plugin(
    observing: bool,
    tabBarHeight: real,
    statusBarHeight: real,
    cache: Cache,
    registry: Registry,
    bar: TabBar,
    webViewFrame: Option<Rect>)

  /**
    What the host reports when a frame correction runs: the bounds of the web
    view's parent, that parent's subviews, the device orientation, and whether
    the device is an iPad.
   */
  datatype Env = Env(bounds: Rect, subviews: seq<View>, orientation: Orientation, isPad: bool)

  /** The one way a step can end the process: unwrapping the superview of a bar that has none. */
  datatype Fault = MissingSuperview

  /** A freshly constructed plugin: a default `UITabBar` is visible and not in any view. */
  const Initial := Plugin(false, 0.0, 0.0, EmptyCache, EmptyRegistry, TabBar(false, false, None, None), None)

  /** The plugin's invariant: the cached values are paired and agree with their orientation. */
  predicate Valid(s: Plugin) {
    && Paired(s.cache)
    && Consistent(s.cache)
    && (s.bar.inSuperview ==> s.tabBarHeight == TabBarHeight && s.statusBarHeight == StatusBarHeight)
    && (s.observing ==> s.bar.inSuperview)
  }

  /** Everything but the two frames and the cache is the same. */
  predicate SameButFrames(s: Plugin, t: Plugin) {
    && t.observing == s.observing
    && t.tabBarHeight == s.tabBarHeight
    && t.statusBarHeight == s.statusBarHeight
    && t.registry == s.registry
    && t.bar.hidden == s.bar.hidden
    && t.bar.inSuperview == s.bar.inSuperview
    && t.bar.selected == s.bar.selected
  }

  /** `correctTabBarFrame`: nothing when hidden, otherwise the bar frame and the cache from `TabBarLayout`. */
  function CorrectTabBarFrame(s: Plugin, env: Env): (t: Plugin)
    ensures s.bar.hidden ==> t == s
    ensures SameButFrames(s, t) && t.webViewFrame == s.webViewFrame
    ensures !s.bar.hidden ==>
      var layout := TabBarLayout(s.cache, env.bounds, env.orientation, env.isPad, s.tabBarHeight);
      t.bar.frame == Some(layout.frame) && t.cache == layout.cache
  {
    if s.bar.hidden then s
    else
      var layout := TabBarLayout(s.cache, env.bounds, env.orientation, env.isPad, s.tabBarHeight);
      s.(cache := layout.cache, bar := s.bar.(frame := Some(layout.frame)))
  }

  /**
    `correctWebViewFrame`: nothing when hidden; otherwise it needs the bar's
    superview to look for a navigation bar, and faults without one.
   */
  function CorrectWebViewFrame(s: Plugin, env: Env): (r: Result<Plugin, Fault>)
    ensures s.bar.hidden ==> r == Success(s)
    ensures r.Failure? <==> !s.bar.hidden && !s.bar.inSuperview
    ensures r.Success? ==> SameButFrames(s, r.value) && r.value.cache == s.cache && r.value.bar.frame == s.bar.frame
    ensures r.Success? && !s.bar.hidden ==>
      r.value.webViewFrame == Some(WebViewFrame(env.bounds, s.tabBarHeight, s.statusBarHeight,
                                                NavBarShown(env.subviews), NavBarHeight(env.subviews)))
  {
    if s.bar.hidden then Success(s)
    else if !s.bar.inSuperview then Failure(MissingSuperview)
    else
      var frame := WebViewFrame(env.bounds, s.tabBarHeight, s.statusBarHeight,
                                NavBarShown(env.subviews), NavBarHeight(env.subviews));
      Success(s.(webViewFrame := Some(frame)))
  }

  /** Whether a visible correction of `s` under `env` leaves exactly the state `t`. */
  predicate CorrectedFrames(s: Plugin, env: Env, t: Plugin) {
    var layout := TabBarLayout(s.cache, env.bounds, env.orientation, env.isPad, s.tabBarHeight);
    && SameButFrames(s, t)
    && t.cache == layout.cache
    && t.bar.frame == Some(layout.frame)
    && t.webViewFrame == Some(WebViewFrame(env.bounds, s.tabBarHeight, s.statusBarHeight,
                                           NavBarShown(env.subviews), NavBarHeight(env.subviews)))
  }

  /** `correctViewFrames`: the tab bar first, then the web view. */
  function CorrectViewFrames(s: Plugin, env: Env): (r: Result<Plugin, Fault>)
    // A hidden bar makes the whole correction a no-op.
    ensures s.bar.hidden ==> r == Success(s)
    ensures r.Failure? <==> !s.bar.hidden && !s.bar.inSuperview
    ensures r.Success? ==> SameButFrames(s, r.value)
    // A visible bar in its superview gets both frames, and the cache, from the current report.
    ensures r.Success? && !s.bar.hidden ==> CorrectedFrames(s, env, r.value)
    ensures r.Success? && !s.bar.hidden ==>
      && r.value.bar.frame.value.x == env.bounds.x
      && r.value.bar.frame.value.height == s.tabBarHeight
      && r.value.webViewFrame.value.y + r.value.webViewFrame.value.height == RawBottom(env.bounds, s.tabBarHeight)
  {
    CorrectWebViewFrame(CorrectTabBarFrame(s, env), env)
  }

  /**
    `create`: sets the two heights, starts fresh tables and a fresh hidden
    bar, registers the definitions whose image is in the bundle, adds the bar
    to the web view's parent and corrects the frames.
   */
  function Create(s: Plugin, defs: seq<TabDefinition>, bundle: set<string>, env: Env): (r: Result<Plugin, Fault>)
    ensures r.Success?
    ensures r.value.observing
    ensures r.value.tabBarHeight == TabBarHeight && r.value.statusBarHeight == StatusBarHeight
    ensures r.value.registry == Register(defs, bundle)
    ensures r.value.bar == TabBar(true, true, None, None)
    // The bar is hidden, so the correction at the end writes no frame and caches nothing.
    ensures r.value.cache == s.cache && r.value.webViewFrame == s.webViewFrame
  {
    var created := Plugin(true, TabBarHeight, StatusBarHeight, s.cache, Register(defs, bundle),
                        TabBar(true, true, None, None), s.webViewFrame);
    CorrectViewFrames(created, env)
  }

  /** `setVisible`: shows the bar exactly when asked to, then corrects the frames. */
  function SetVisible(s: Plugin, shouldShow: bool, env: Env): (r: Result<Plugin, Fault>)
    ensures r.Success? ==> r.value.bar.hidden == !shouldShow
    ensures r.Failure? <==> shouldShow && !s.bar.inSuperview
    ensures !shouldShow ==> r == Success(s.(bar := s.bar.(hidden := true)))
    // Showing the bar corrects both frames and the cache, and touches nothing else.
    ensures shouldShow && r.Success? ==> CorrectedFrames(s.(bar := s.bar.(hidden := false)), env, r.value)
  {
    CorrectViewFrames(s.(bar := s.bar.(hidden := !shouldShow)), env)
  }

  /** `selectItem`: selects the item registered under the name, or clears the selection. */
  function SelectItem(s: Plugin, name: string): (t: Plugin)
    ensures t.bar.selected.Some? <==> name in s.registry.itemsByUrl
    ensures t.bar.selected.Some? ==> t.bar.selected.value == s.registry.itemsByUrl[name]
    // Only the selection changes: no frame is written and nothing is loaded.
    ensures t == s.(bar := s.bar.(selected := t.bar.selected))
  {
    s.(bar := s.bar.(selected := Select(s.registry, name)))
  }

  /** The orientation notification handler: one more frame correction. */
  function OrientationChanged(s: Plugin, env: Env): (r: Result<Plugin, Fault>)
    ensures s.bar.hidden ==> r == Success(s)
    ensures r.Failure? <==> !s.bar.hidden && !s.bar.inSuperview
    ensures r.Success? && !s.bar.hidden ==> CorrectedFrames(s, env, r.value)
  {
    CorrectViewFrames(s, env)
  }

  /**
    The tab bar delegate's tap callback: the URL it loads into the web view,
    the base URL followed by the relative URL registered for the tapped item's
    title, or nothing when the title is not registered.
   */
  function TabTapped(s: Plugin, baseUrl: string, item: TabItem): (url: Option<string>)
    ensures url.Some? <==> item.title in s.registry.urlsByLabel
    ensures url.Some? ==> url.value == baseUrl + s.registry.urlsByLabel[item.title]
  {
    Navigate(s.registry, baseUrl, item.title)
  }

  /** The commands and callbacks that change the plugin's state. */
  datatype Event =
    | CreateEvent(defs: seq<TabDefinition>, bundle: set<string>)
    | SetVisibleEvent(shouldShow: bool)
    | SelectItemEvent(name: string)
    | OrientationEvent

  /** An event together with what the host reports while it is handled. */
  datatype Input = Input(event: Event, env: Env)

  function Step(s: Plugin, input: Input): Result<Plugin, Fault> {
    match input.event
    case CreateEvent(defs, bundle) => Create(s, defs, bundle, input.env)
    case SetVisibleEvent(shouldShow) => SetVisible(s, shouldShow, input.env)
    case SelectItemEvent(name) => Success(SelectItem(s, name))
    // The notification reaches the plugin only once `create` has registered for it.
    case OrientationEvent => if s.observing then OrientationChanged(s, input.env) else Success(s)
  }

  /** Handles the inputs in order, stopping at the first fault. */
  function Run(s: Plugin, inputs: seq<Input>): Result<Plugin, Fault>
    decreases |inputs|
  {
    if inputs == [] then Success(s)
    else match Step(s, inputs[0])
      case Failure(e) => Failure(e)
      case Success(t) => Run(t, inputs[1..])
  }

  lemma InitialValid()
    ensures Valid(Initial)
  {
  }

  /**
    Every step keeps the invariant and keeps a bar that is in its superview
    there; an orientation notification never faults.
   */
  lemma StepPreservesValid(s: Plugin, input: Input)
    requires Valid(s)
    ensures Step(s, input).Success? ==> Valid(Step(s, input).value)
    ensures s.bar.inSuperview ==> Step(s, input).Success? && Step(s, input).value.bar.inSuperview
    ensures input.event.CreateEvent? ==> Step(s, input).Success? && Step(s, input).value.bar.inSuperview
    ensures input.event.OrientationEvent? ==> Step(s, input).Success?
  {
    var env := input.env;
    if !s.bar.hidden {
      TabBarLayoutKeepsPaired(s.cache, env.bounds, env.orientation, env.isPad, s.tabBarHeight);
      TabBarLayoutKeepsConsistent(s.cache, env.bounds, env.orientation, env.isPad, s.tabBarHeight);
    }
    if input.event.SetVisibleEvent? {
      var s' := s.(bar := s.bar.(hidden := !input.event.shouldShow));
      TabBarLayoutKeepsPaired(s'.cache, env.bounds, env.orientation, env.isPad, s'.tabBarHeight);
      TabBarLayoutKeepsConsistent(s'.cache, env.bounds, env.orientation, env.isPad, s'.tabBarHeight);
    }
  }

  /**
    Every state a run reaches keeps the invariant, and once the bar is in its
    superview no run can fault.
   */
  lemma {:induction false} RunPreservesValid(s: Plugin, inputs: seq<Input>)
    requires Valid(s)
    ensures Run(s, inputs).Success? ==> Valid(Run(s, inputs).value)
    ensures s.bar.inSuperview ==> Run(s, inputs).Success?
    decreases |inputs|
  {
    if inputs != [] {
      StepPreservesValid(s, inputs[0]);
      var r := Step(s, inputs[0]);
      if r.Success? {
        RunPreservesValid(r.value, inputs[1..]);
      }
    }
  }

  /** A plugin whose first command is `create` never faults, whatever follows. */
  lemma CreateFirstNeverFaults(defs: seq<TabDefinition>, bundle: set<string>, env: Env, inputs: seq<Input>)
    ensures Run(Initial, [Input(CreateEvent(defs, bundle), env)] + inputs).Success?
  {
    var all := [Input(CreateEvent(defs, bundle), env)] + inputs;
    assert all[0] == Input(CreateEvent(defs, bundle), env) && all[1..] == inputs;
    var s := Create(Initial, defs, bundle, env).value;
    RunPreservesValid(s, inputs);
  }

  /** Orientation notifications while the bar is hidden change nothing at all. */
  lemma {:induction false} HiddenOrientationChangesNothing(s: Plugin, inputs: seq<Input>)
    requires s.bar.hidden
    requires forall i :: 0 <= i < |inputs| ==> inputs[i].event == OrientationEvent
    ensures Run(s, inputs) == Success(s)
    decreases |inputs|
  {
    if inputs != [] {
      HiddenOrientationChangesNothing(s, inputs[1..]);
    }
  }

  /**
    A second correction with the same host report leaves the state as the
    first left it, so duplicate notifications (one observer per `create`
    call) are harmless.
   */
  lemma CorrectViewFramesIdempotent(s: Plugin, env: Env)
    requires CorrectViewFrames(s, env).Success?
    ensures CorrectViewFrames(CorrectViewFrames(s, env).value, env) == CorrectViewFrames(s, env)
  {
    if !s.bar.hidden {
      TabBarLayoutIdempotent(s.cache, env.bounds, env.orientation, env.isPad, s.tabBarHeight);
    }
  }

  /** Calling `setVisible` twice with the same flag gives the same state as calling it once. */
  lemma SetVisibleIdempotent(s: Plugin, shouldShow: bool, env: Env)
    requires SetVisible(s, shouldShow, env).Success?
    ensures SetVisible(SetVisible(s, shouldShow, env).value, shouldShow, env) == SetVisible(s, shouldShow, env)
  {
    var s' := s.(bar := s.bar.(hidden := !shouldShow));
    CorrectViewFramesIdempotent(s', env);
    var t := SetVisible(s, shouldShow, env).value;
    assert t.(bar := t.bar.(hidden := !shouldShow)) == t;
  }

  /**
    A second `create` replaces the tables: afterwards a name can be selected,
    and a tapped title navigates, exactly when a definition of the second call
    with its image in the bundle carries it, whatever the first call registered.
   */
  lemma CreateReplacesRegistry(s: Plugin, defs: seq<TabDefinition>, bundle: set<string>, env: Env,
                                name: string, baseUrl: string, item: TabItem)
    ensures var t := Create(s, defs, bundle, env).value;
      && (SelectItem(t, name).bar.selected.Some? <==> HasUrl(Kept(defs, bundle), name))
      && (TabTapped(t, baseUrl, item).Some? <==> HasLabel(Kept(defs, bundle), item.title))
  {
    RegisterItemsByUrl(defs, bundle, name);
    RegisterUrlsByLabel(defs, bundle, item.title);
  }

  /**
    A tap on an item of the current bar loads the base URL followed by that
    item's own relative URL, provided the kept definitions have distinct labels
    and relative URLs.
   */
  lemma TapNavigatesToOwnUrl(s: Plugin, defs: seq<TabDefinition>, bundle: set<string>, env: Env, baseUrl: string, k: int)
    requires DistinctKeys(Kept(defs, bundle))
    requires 0 <= k < |Kept(defs, bundle)|
    ensures var t := Create(s, defs, bundle, env).value;
      && k < |t.registry.items|
      && TabTapped(t, baseUrl, t.registry.items[k]) == Some(baseUrl + Kept(defs, bundle)[k].relativeUrl)
  {
    RegistryRoundTrip(defs, bundle, baseUrl, k);
  }

  /** `create` with one "Home" tab whose image exists, then a tap on it, loads the base URL plus "/home". */
  lemma HomeTabExample(baseUrl: string, env: Env)
    ensures var defs := [TabDefinition("Home", "home", "/home")];
      var t := Create(Initial, defs, {"home"}, env).value;
      && |t.registry.items| == 1
      && TabTapped(t, baseUrl, t.registry.items[0]) == Some(baseUrl + "/home")
  {
    var defs := [TabDefinition("Home", "home", "/home")];
    assert defs[..0] == [];
  }
}
