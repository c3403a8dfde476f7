# DTabBar in Dafny

A model of the native side of the Cordova `DTabBar` plugin (`src/DTabBar.swift`). The plugin
puts a `UITabBar` over a hybrid app's web view. It keeps the web view and the bar laid out
relative to each other, and it turns taps on tabs into page loads. The model has two parts.

- **Frame reconciliation** (`Layout`, `TabBarPlugin`). When the bar is visible, each correction
  puts the bar at the bottom of the web view's parent and puts the web view between the status
  bar (plus a shown navigation bar) and the tab bar. The parent can report stale bounds after
  two quick rotations. Against that, the plugin caches one (right edge, bar top) pair per
  orientation class. It stores bounds that agree with the device orientation. It swaps in the
  cached pair for bounds that contradict the orientation, with an exception for an iPhone held
  upside down. When the bar is hidden, nothing is written and nothing is cached.
- **Tab registry** (`Registry`, `TabBarPlugin`). `create` builds two tables from the tab
  definitions: relative URL → tab item and label → relative URL. It hands out consecutive tags
  and skips definitions whose image is not in the app bundle. `selectItem` looks an item up by
  relative URL. A tap loads the base URL followed by the relative URL registered for the tab's
  title.

Geometry uses `real` in place of `CGFloat`. The device orientation is UIKit's
`UIDeviceOrientation`, and `IsPortrait`/`IsLandscape` follow UIKit's
`UIDeviceOrientationIsPortrait`/`UIDeviceOrientationIsLandscape`. The host's reports are passed
in as an `Env` value: the parent bounds, the parent's subviews, the orientation and the iPad
flag. The app bundle is passed in as the set of image names it holds. The base URL is a
parameter. A tap returns the URL to load instead of loading it.

Points where the code's behaviour is easy to misread (the model follows the code):

- Bounds that contradict the orientation are never cached, even when no cached pair exists to
  replace them. In that case the raw candidate is used.
- An iPhone held upside down with landscape-shaped bounds neither substitutes nor caches.
  Portrait-shaped bounds are stored for it as for any portrait orientation.
- The cache holds absolute edges (`left + width` and the bar's top), not a width and a height.
- `create` does not clear the cache.
- Each registered item has exactly one label pointing back to its URL when the kept
  definitions have distinct labels and distinct relative URLs (`Registry.RegistryRoundTrip`).
  Otherwise a later duplicate overwrites an earlier one and can break it
  (`Registry.DuplicateLabelExample`).
- Before `create`, the bar is a default `UITabBar`, which is visible and has no superview.
  `setVisible(true)` at that point faults when `correctWebViewFrame` unwraps the missing
  superview. The model represents this as `Failure(MissingSuperview)`. That is the only way
  to reach this fault. The orientation observer is registered only inside `create`, so the
  model ignores orientation events until `create` has run (the `observing` flag).

## Model

| member | source | states |
|---|---|---|
| Device.FirstNavigationBar | src/DTabBar.swift:145-151 | the navigation bar found is the first subview that is exactly a `UINavigationBar`, with none before it; finding none means no subview is one |
| Device.FindNavigationBar | src/DTabBar.swift:140-151 | the loop that stops at the first navigation bar reports it shown exactly when the first one is not hidden, and otherwise reports the default height 44; a shown bar is a visible navigation bar with no navigation bar before it |
| Layout.TabBarLayout | src/DTabBar.swift:177-220 | the bar starts at the parent's left edge and has the bar height; in each orientation class, bounds that agree with the orientation are stored for that class only, and contradicting bounds are replaced only by a complete cached pair (not for an upside-down iPhone) and never change the cache; any other orientation uses the raw candidate and leaves both caches alone |
| Layout.WebViewFrame | src/DTabBar.swift:153-167 | the web view spans the parent's width, starts below the status bar and any shown navigation bar, and ends where an uncorrected tab bar starts |
| Layout.TabBarLayoutKeepsPaired | src/DTabBar.swift:192-216 | each orientation's height and width stay both present or both absent |
| Layout.TabBarLayoutKeepsConsistent | src/DTabBar.swift:186-217 | a cached portrait pair is portrait-shaped and a cached landscape pair is landscape-shaped, after every correction |
| Layout.TabBarLayoutAgreesWithOrientation | src/DTabBar.swift:183-218 | with a consistent cache that holds the current class, the bar lies in a region shaped like the device orientation whatever bounds are reported, except for an upside-down iPhone |
| Layout.WebViewAbutsTabBar | src/DTabBar.swift:158-167 | when no cached value is substituted, the web view's bottom edge is the tab bar's top edge, with the same left edge and width |
| Layout.TabBarLayoutIdempotent | src/DTabBar.swift:184-220 | a second correction with the same bounds and orientation gives the same frame and cache |
| Layout.StaleBoundsExample | src/DTabBar.swift:189-196 | bounds 800×400 in portrait with (400, 800) cached put the bar at the cached edges |
| Registry.Select | src/DTabBar.swift:89-94 | the selected item is the one registered under the name, and nothing when the name is absent |
| Registry.Navigate | src/DTabBar.swift:98-99 | a tap yields the base URL followed by the registered relative URL exactly when the title is registered |
| Registry.Register | src/DTabBar.swift:51-67 | the item loop of `create`, starting from empty tables: at most one item per definition, tags consecutive from 0, every URL entry points at an item of the bar, and every label's URL is registered; its full contents are stated by `Registry.RegisterItems`, `Registry.RegisterItemsByUrl` and `Registry.RegisterUrlsByLabel` |
| Registry.RegisterItems | src/DTabBar.swift:51-61 | the bar's items are exactly the definitions whose image exists, in order, with tags 0, 1, 2, …; a skipped definition uses no tag |
| Registry.RegisterItemsByUrl | src/DTabBar.swift:54-64 | a relative URL is registered iff some kept definition carries it, and it maps to the item of the last such definition |
| Registry.RegisterUrlsByLabel | src/DTabBar.swift:54-65 | a label is registered iff some kept definition carries it, and it maps to the relative URL of the last such definition |
| Registry.SkippedDefinitionUnregistered | src/DTabBar.swift:56-66 | a definition whose image is missing, and whose keys no other definition shares, is in neither table |
| Registry.KeptFrom | src/DTabBar.swift:54-56 | every kept definition is an input definition whose image exists |
| Registry.KeptComplete | src/DTabBar.swift:54-56 | every input definition whose image exists is kept |
| Registry.RegistryRoundTrip | src/DTabBar.swift:60-65 | with distinct labels and URLs, tapping the k-th item navigates to its own definition's URL, selecting that URL selects that item, and no other label maps to that URL |
| Registry.DuplicateLabelExample | src/DTabBar.swift:64-65 | two kept tabs sharing a label both navigate to the later one's URL |
| TabBarPlugin.CorrectTabBarFrame | src/DTabBar.swift:171-220 | a hidden bar changes nothing; a visible one gets its frame and the cache from the layout, and nothing else changes |
| TabBarPlugin.CorrectWebViewFrame | src/DTabBar.swift:135-168 | a hidden bar changes nothing; a visible bar without a superview faults; otherwise only the web view frame is written |
| TabBarPlugin.CorrectViewFrames | src/DTabBar.swift:130-133 | a hidden bar makes the correction a no-op; it faults exactly for a visible bar without a superview; otherwise the bar frame and the cache are the tab bar layout's, the web view frame is the web view layout's (with the first navigation bar), and nothing else changes |
| TabBarPlugin.Create | src/DTabBar.swift:22-77 | `create` never faults; it registers the orientation observer, sets heights 49 and 20, replaces the tables with the registry of the new definitions and installs a hidden bar with no selection; its final correction writes no frame and caches nothing |
| TabBarPlugin.SetVisible | src/DTabBar.swift:80-84 | the bar is hidden exactly when not asked to show; hiding changes nothing else; showing faults only before the bar has a superview, and otherwise writes both frames and the cache from the layouts and changes nothing else |
| TabBarPlugin.SelectItem | src/DTabBar.swift:87-95 | the selection is the item registered under the name, or cleared when the name is absent, and nothing else changes |
| TabBarPlugin.OrientationChanged | src/DTabBar.swift:126-128 | a notification while hidden changes nothing; it faults only for a visible bar without a superview; otherwise it writes both frames and the cache from the layouts and changes nothing else |
| TabBarPlugin.TabTapped | src/DTabBar.swift:97-109 | a tap loads base URL + registered relative URL exactly when the item's title is registered, and loads nothing otherwise |
| TabBarPlugin.InitialValid | src/DTabBar.swift:9-20 | the freshly constructed plugin, with empty caches, satisfies the invariant |
| TabBarPlugin.StepPreservesValid | src/DTabBar.swift:22-128 | every command or callback keeps the cache invariant; after `create`, and once the bar has a superview, no step faults; an orientation notification never faults |
| TabBarPlugin.RunPreservesValid | src/DTabBar.swift:22-133 | every state reachable by a run keeps the invariant, and once the bar has a superview no run faults |
| TabBarPlugin.CreateFirstNeverFaults | src/DTabBar.swift:72-77 | a plugin whose first command is `create` never faults, whatever follows |
| TabBarPlugin.HiddenOrientationChangesNothing | src/DTabBar.swift:126-138 | any number of orientation notifications while the bar is hidden leave the whole state unchanged |
| TabBarPlugin.CorrectViewFramesIdempotent | src/DTabBar.swift:130-133 | repeating a correction with the same host report changes nothing, so the duplicate observers that repeated `create` calls register are harmless |
| TabBarPlugin.SetVisibleIdempotent | src/DTabBar.swift:80-83 | `setVisible` twice with the same flag equals once |
| TabBarPlugin.CreateReplacesRegistry | src/DTabBar.swift:26-27 | after a second `create`, a name is selectable, and a tapped title navigates, iff a kept definition of that call carries it, whatever was registered before |
| TabBarPlugin.TapNavigatesToOwnUrl | src/DTabBar.swift:97-99 | after `create` with distinct labels and URLs, tapping the k-th item loads the base URL plus that definition's URL |
| TabBarPlugin.HomeTabExample | src/DTabBar.swift:60-65 | `create` with one "Home" tab and a tap on it loads the base URL plus "/home" |

## Left out

- `colorStringToColor` and the `iconTintColor` option: they rest on `NSString.doubleValue` parsing and floating-point division. The one behaviour worth stating is a crash on fewer than four components.
- The orientation observer registration in `NSNotificationCenter`: it is event plumbing. `OrientationChanged` is simply one more frame correction.
- Option parsing: `options` that is not a dictionary, or has no `items`, registers nothing, which is the model's empty definition list. A definition missing `relativeUrl` or `label` crashes at a force-unwrap when its image is found. That crash is not modelled, so every definition carries all three strings.
- `NSBundle` image lookup and `UIImage` loading: these are foreign calls. They are replaced by membership in a set of bundle image names.
- `NSURLRequest` and the `UIWebView`/`WKWebView` load: these are I/O. The tap returns the URL string instead.
- TabBarPlugin.TabTapped: does not model the crash at the `NSURL(string:)` force-unwrap when the base URL plus the relative URL is not a valid URL (for example a relative URL with a space). URL syntax belongs to Foundation, and the model returns the concatenated string in that case too.
- TabBarPlugin.TabTapped: does not model that nothing is loaded when the web view is neither a `UIWebView` nor a `WKWebView`. The web view's class is host state outside the model.
- TabBarPlugin.SelectItem: does not model the crash at the `as! String` cast when the command argument is not a string. The argument is typed as a string.
- The view flag assignments of `create` (delegate, touch, autoresizing, opaque), `sizeToFit` and `addSubview`: they carry no logic. `addSubview` is only the `inSuperview` flag. The frame of a fresh bar before the plugin writes one is `None`.
- Bars from earlier `create` calls: they stay in the view hierarchy but are not modelled. Only the current bar is.
- A force-unwrapped `webView` or its missing superview: the host guarantees both. `setVisible` receiving a non-boolean argument: this crashes at `as! Bool`, and the host guarantees a boolean.
- `www/DTabBar.js`: it passes calls straight to `cordova/exec`.
