/**
  The tab registry that `create` builds: the tab bar items in definition
  order with consecutive tags, a map from relative URL to item (used by
  `selectItem`) and a map from tabLabel to relative URL (used when a tab is
  tapped). Definitions whose image cannot be found in the app bundle are
  skipped; the bundle is modelled as the set of image names it holds.
 */
module Registry {
  import opened Wrappers

  /** One entry of the `items` option of `create`. */
  datatype TabDefinition = TabDefinition(tabLabel: string, imageFilename: string, relativeUrl: string)

  /** A `UITabBarItem`: its title, the image it was loaded from, and its tag. */
  datatype TabItem = TabItem(title: string, image: string, tag: nat)

  datatype Registry = Registry(
    items: seq<TabItem>,
    itemsByUrl: map<string, TabItem>,
    urlsByLabel: map<string, string>)

  const EmptyRegistry := Registry([], map[], map[])

  /** The definitions whose image is in the bundle, in definition order. */
  function Kept(defs: seq<TabDefinition>, bundle: set<string>): (kept: seq<TabDefinition>)
    ensures |kept| <= |defs|
  {
    if defs == [] then []
    else
      var d := defs[|defs| - 1];
      Kept(defs[..|defs| - 1], bundle) + (if d.imageFilename in bundle then [d] else [])
  }

  /** Registers one definition: the next tag, and both lookup tables overwritten at its keys. */
  function Add(r: Registry, d: TabDefinition): Registry {
    var item := ItemFor(d, |r.items|);
    Registry(r.items + [item],
             r.itemsByUrl[d.relativeUrl := item],
             r.urlsByLabel[d.tabLabel := d.relativeUrl])
  }

  /** The registry `create` builds from fresh tables, one definition at a time. */
  function Register(defs: seq<TabDefinition>, bundle: set<string>): (r: Registry)
    ensures |r.items| <= |defs|
    // Tags are consecutive from 0, in item order.
    ensures forall k :: 0 <= k < |r.items| ==> r.items[k].tag == k
    // Every table entry points at an item of the bar, and every label's URL is registered.
    ensures forall url :: url in r.itemsByUrl ==> r.itemsByUrl[url] in r.items
    ensures forall tabLabel :: tabLabel in r.urlsByLabel ==> r.urlsByLabel[tabLabel] in r.itemsByUrl
  {
    if defs == [] then EmptyRegistry
    else
      var r := Register(defs[..|defs| - 1], bundle);
      var d := defs[|defs| - 1];
      if d.imageFilename in bundle then Add(r, d) else r
  }

  /** The item `create` makes for the k-th kept definition. */
  function ItemFor(d: TabDefinition, k: nat): TabItem {
    TabItem(d.tabLabel, d.imageFilename, k)
  }

  /** The item registered under a relative URL, or nothing: `selectItem`'s lookup. */
  function Select(r: Registry, name: string): (item: Option<TabItem>)
    ensures item.Some? <==> name in r.itemsByUrl
    ensures item.Some? ==> item.value == r.itemsByUrl[name]
  {
    if name in r.itemsByUrl then Some(r.itemsByUrl[name]) else None
  }

  /** The URL a tap on a tab with this title loads, or nothing when the title is not registered. */
  function Navigate(r: Registry, baseUrl: string, title: string): (url: Option<string>)
    ensures url.Some? <==> title in r.urlsByLabel
    ensures url.Some? ==> url.value == baseUrl + r.urlsByLabel[title]
  {
    if title in r.urlsByLabel then Some(baseUrl + r.urlsByLabel[title]) else None
  }

  /**
    The items are exactly the kept definitions, in order, tagged 0, 1, 2, ...
    A skipped definition does not use up a tag.
   */
  lemma {:induction false} RegisterItems(defs: seq<TabDefinition>, bundle: set<string>)
    ensures var r := Register(defs, bundle); var kept := Kept(defs, bundle);
      && |r.items| == |kept|
      && forall k :: 0 <= k < |kept| ==> r.items[k] == ItemFor(kept[k], k)
  {
    if defs != [] {
      RegisterItems(defs[..|defs| - 1], bundle);
    }
  }

  /** Some kept definition carries this relative URL. */
  ghost predicate HasUrl(kept: seq<TabDefinition>, url: string) {
    exists k :: 0 <= k < |kept| && kept[k].relativeUrl == url
  }

  /** Some kept definition carries this label. */
  ghost predicate HasLabel(kept: seq<TabDefinition>, tabLabel: string) {
    exists k :: 0 <= k < |kept| && kept[k].tabLabel == tabLabel
  }

  /** The k-th kept definition is the last kept one with its relative URL. */
  ghost predicate LastWithUrl(kept: seq<TabDefinition>, k: int, url: string) {
    && 0 <= k < |kept|
    && kept[k].relativeUrl == url
    && forall j :: k < j < |kept| ==> kept[j].relativeUrl != url
  }

  /** The k-th kept definition is the last kept one with its label. */
  ghost predicate LastWithLabel(kept: seq<TabDefinition>, k: int, tabLabel: string) {
    && 0 <= k < |kept|
    && kept[k].tabLabel == tabLabel
    && forall j :: k < j < |kept| ==> kept[j].tabLabel != tabLabel
  }

  /**
    A relative URL is registered exactly when some kept definition carries it,
    and it maps to the item of the last such definition.
   */
  lemma {:induction false} RegisterItemsByUrl(defs: seq<TabDefinition>, bundle: set<string>, url: string)
    ensures url in Register(defs, bundle).itemsByUrl <==> HasUrl(Kept(defs, bundle), url)
    ensures url in Register(defs, bundle).itemsByUrl ==>
      exists k :: LastWithUrl(Kept(defs, bundle), k, url)
                  && Register(defs, bundle).itemsByUrl[url] == ItemFor(Kept(defs, bundle)[k], k)
  {
    if defs != [] {
      var prefix := defs[..|defs| - 1];
      var d := defs[|defs| - 1];
      RegisterItemsByUrl(prefix, bundle, url);
      RegisterItems(prefix, bundle);
      var r0, kept0 := Register(prefix, bundle), Kept(prefix, bundle);
      var r, kept := Register(defs, bundle), Kept(defs, bundle);
      if d.imageFilename in bundle {
        assert r == Add(r0, d) && kept == kept0 + [d];
        assert forall k :: 0 <= k < |kept0| ==> kept[k] == kept0[k];
        if d.relativeUrl == url {
          var k := |kept0|;
          assert kept[k] == d;
          assert HasUrl(kept, url);
          assert LastWithUrl(kept, k, url) && r.itemsByUrl[url] == ItemFor(kept[k], k);
        } else if url in r0.itemsByUrl {
          var k :| LastWithUrl(kept0, k, url) && r0.itemsByUrl[url] == ItemFor(kept0[k], k);
          assert kept[k] == kept0[k];
          assert HasUrl(kept, url);
          assert LastWithUrl(kept, k, url) && r.itemsByUrl[url] == ItemFor(kept[k], k);
        } else {
          forall k | 0 <= k < |kept|
            ensures kept[k].relativeUrl != url
          {
            if k < |kept0| {
              assert kept[k] == kept0[k];
            } else {
              assert kept[k] == d;
            }
          }
          assert !HasUrl(kept, url);
        }
      } else {
        assert r == r0;
        assert kept == kept0 + [] == kept0;
      }
    }
  }

  /**
    A label is registered exactly when some kept definition carries it, and it
    maps to the relative URL of the last such definition.
   */
  lemma {:induction false} RegisterUrlsByLabel(defs: seq<TabDefinition>, bundle: set<string>, tabLabel: string)
    ensures tabLabel in Register(defs, bundle).urlsByLabel <==> HasLabel(Kept(defs, bundle), tabLabel)
    ensures tabLabel in Register(defs, bundle).urlsByLabel ==>
      exists k :: LastWithLabel(Kept(defs, bundle), k, tabLabel)
                  && Register(defs, bundle).urlsByLabel[tabLabel] == Kept(defs, bundle)[k].relativeUrl
  {
    if defs != [] {
      var prefix := defs[..|defs| - 1];
      var d := defs[|defs| - 1];
      RegisterUrlsByLabel(prefix, bundle, tabLabel);
      var r0, kept0 := Register(prefix, bundle), Kept(prefix, bundle);
      var r, kept := Register(defs, bundle), Kept(defs, bundle);
      if d.imageFilename in bundle {
        assert r == Add(r0, d) && kept == kept0 + [d];
        assert forall k :: 0 <= k < |kept0| ==> kept[k] == kept0[k];
        if d.tabLabel == tabLabel {
          var k := |kept0|;
          assert kept[k] == d;
          assert HasLabel(kept, tabLabel);
          assert LastWithLabel(kept, k, tabLabel) && r.urlsByLabel[tabLabel] == kept[k].relativeUrl;
        } else if tabLabel in r0.urlsByLabel {
          var k :| LastWithLabel(kept0, k, tabLabel) && r0.urlsByLabel[tabLabel] == kept0[k].relativeUrl;
          assert kept[k] == kept0[k];
          assert HasLabel(kept, tabLabel);
          assert LastWithLabel(kept, k, tabLabel) && r.urlsByLabel[tabLabel] == kept[k].relativeUrl;
        } else {
          forall k | 0 <= k < |kept|
            ensures kept[k].tabLabel != tabLabel
          {
            if k < |kept0| {
              assert kept[k] == kept0[k];
            } else {
              assert kept[k] == d;
            }
          }
          assert !HasLabel(kept, tabLabel);
        }
      } else {
        assert r == r0;
        assert kept == kept0 + [] == kept0;
      }
    }
  }

  /** A definition whose image is missing contributes to neither table unless a kept one shares its key. */
  lemma SkippedDefinitionUnregistered(defs: seq<TabDefinition>, bundle: set<string>, i: int)
    requires 0 <= i < |defs| && defs[i].imageFilename !in bundle
    requires forall j :: 0 <= j < |defs| && defs[j].relativeUrl == defs[i].relativeUrl ==> j == i
    requires forall j :: 0 <= j < |defs| && defs[j].tabLabel == defs[i].tabLabel ==> j == i
    ensures defs[i].relativeUrl !in Register(defs, bundle).itemsByUrl
    ensures defs[i].tabLabel !in Register(defs, bundle).urlsByLabel
  {
    KeptFrom(defs, bundle);
    RegisterItemsByUrl(defs, bundle, defs[i].relativeUrl);
    RegisterUrlsByLabel(defs, bundle, defs[i].tabLabel);
  }

  /** Every kept definition is one of the definitions, with its image in the bundle. */
  lemma {:induction false} KeptFrom(defs: seq<TabDefinition>, bundle: set<string>)
    ensures forall k :: 0 <= k < |Kept(defs, bundle)| ==>
      Kept(defs, bundle)[k] in defs && Kept(defs, bundle)[k].imageFilename in bundle
  {
    if defs != [] {
      var prefix := defs[..|defs| - 1];
      KeptFrom(prefix, bundle);
      assert forall d :: d in prefix ==> d in defs;
    }
  }

  /** Every definition whose image is in the bundle is kept. */
  lemma {:induction false} KeptComplete(defs: seq<TabDefinition>, bundle: set<string>, i: int)
    requires 0 <= i < |defs| && defs[i].imageFilename in bundle
    ensures defs[i] in Kept(defs, bundle)
  {
    var prefix := defs[..|defs| - 1];
    if i < |defs| - 1 {
      assert prefix[i] == defs[i];
      KeptComplete(prefix, bundle, i);
    }
  }

  /** No two kept definitions share a relative URL or a tabLabel. */
  ghost predicate DistinctKeys(kept: seq<TabDefinition>) {
    forall i, j :: 0 <= i < j < |kept| ==>
      kept[i].relativeUrl != kept[j].relativeUrl && kept[i].tabLabel != kept[j].tabLabel
  }

  /**
    With distinct labels and URLs the two tables agree with the item list:
    tapping any item loads the base URL followed by its own definition's
    relative URL, and selecting that URL selects that very item.
   */
  lemma RegistryRoundTrip(defs: seq<TabDefinition>, bundle: set<string>, baseUrl: string, k: int)
    requires DistinctKeys(Kept(defs, bundle))
    requires 0 <= k < |Kept(defs, bundle)|
    ensures var r := Register(defs, bundle); var d := Kept(defs, bundle)[k];
      && k < |r.items| && r.items[k] == ItemFor(d, k)
      && Navigate(r, baseUrl, r.items[k].title) == Some(baseUrl + d.relativeUrl)
      && Select(r, d.relativeUrl) == Some(r.items[k])
    // No other label maps back to that URL.
    ensures forall l :: l in Register(defs, bundle).urlsByLabel
                        && Register(defs, bundle).urlsByLabel[l] == Kept(defs, bundle)[k].relativeUrl
                        ==> l == Kept(defs, bundle)[k].tabLabel
  {
    var kept := Kept(defs, bundle);
    var r := Register(defs, bundle);
    RegisterItems(defs, bundle);
    RegisterItemsByUrl(defs, bundle, kept[k].relativeUrl);
    RegisterUrlsByLabel(defs, bundle, kept[k].tabLabel);
    forall l | l in r.urlsByLabel && r.urlsByLabel[l] == kept[k].relativeUrl
      ensures l == kept[k].tabLabel
    {
      RegisterUrlsByLabel(defs, bundle, l);
    }
  }

  /**
    Without distinct labels the tabLabel table is not one-to-one: two kept tabs
    labelled "x" with URLs "/a" and "/b" both navigate to "/b".
   */
  lemma DuplicateLabelExample(baseUrl: string)
    ensures var defs := [TabDefinition("x", "a", "/a"), TabDefinition("x", "b", "/b")];
      var r := Register(defs, {"a", "b"});
      && |r.items| == 2
      && Navigate(r, baseUrl, r.items[0].title) == Some(baseUrl + "/b")
      && Select(r, "/a") == Some(r.items[0])
  {
    var defs := [TabDefinition("x", "a", "/a"), TabDefinition("x", "b", "/b")];
    assert defs[..1] == [TabDefinition("x", "a", "/a")];
    assert defs[..1][..0] == [];
  }
}
