/** The page's state and its event handlers (main.js:10-12, 60-78, 104-175):
    the loaded mods, the mods the search shows, the selected slugs, the
    version and loader controls and whether the download button is disabled. */
module Session {
  import opened Wrappers
  import opened Seqs
  import opened Versions
  import opened Catalog
  import opened Search
  import opened Downloads

  /** The slugs of a list of mods. */
  function Slugs(mods: seq<Mod>): (slugs: set<string>)
    ensures forall m :: m in mods ==> m.slug in slugs
    ensures forall s :: s in slugs ==> exists m :: m in mods && m.slug == s
  {
    set m | m in mods :: m.slug
  }

  class Session {
    /** The options of the game-version control and its value. */
    var versionOptions: seq<string>
    var version: string
    /** The value of the loader control. */
    var loader: string
    /** `allMods`, `shownMods` and `selectedMods`. */
    var allMods: seq<Mod>
    var shownMods: seq<Mod>
    var selectedMods: set<string>
    /** `downloadBtn.disabled` */
    var downloadDisabled: bool

    /** The shown mods are some of the loaded ones, in their order; only slugs
        of loaded mods are selected; an empty selection keeps the download
        button disabled. */
    ghost predicate Valid()
      reads this
    {
      && IsSubseq(shownMods, allMods)
      && selectedMods <= Slugs(allMods)
      && (selectedMods == {} ==> downloadDisabled)
    }

    /** The page before its first load: nothing fetched or selected. The
        button's initial state comes from the page's HTML, which is not part
        of this model; it is taken to start disabled, as `reloadMods` leaves it
        once the load on `DOMContentLoaded` reaches it. */
    constructor (loader: string)
      ensures Valid()
      ensures this.loader == loader && versionOptions == [] && version == ""
      ensures allMods == [] && shownMods == [] && selectedMods == {} && downloadDisabled
    {
      this.loader := loader;
      versionOptions, version := [], "";
      allMods, shownMods, selectedMods := [], [], {};
      downloadDisabled := true;
    }

    /** `fetchVersions`: install the normalised version list and its default,
        or the two fallback versions when the request fails. */
    method FetchVersions(answer: Option<seq<VersionTag>>)
      requires Valid()
      modifies this`versionOptions, this`version
      ensures Valid()
      ensures Choices(versionOptions, version) == LoadVersions(answer)
      ensures answer.None? ==> versionOptions == ["1.20.1", "1.18.2"] && version == "1.20.1"
    {
      var c := LoadVersions(answer);
      versionOptions, version := c.options, c.selected;
    }

    /** The user picks a game version among the options, and a loader. */
    method ChooseFilters(version: string, loader: string)
      requires Valid() && version in versionOptions
      modifies this`version, this`loader
      ensures Valid() && this.version == version && this.loader == loader
    {
      this.version, this.loader := version, loader;
    }

    /** `reloadMods`: clear the selection and disable the button, fetch every
        mod for the chosen version and loader, and show all of them. `search`
        gives the search endpoint's answer for a version and loader. */
    method ReloadMods(search: (string, string) -> SearchService) returns (requests: seq<nat>)
      requires Valid()
      modifies this`selectedMods, this`downloadDisabled, this`allMods, this`shownMods
      ensures Valid()
      ensures selectedMods == {} && downloadDisabled
      ensures allMods == Fetched(search(version, loader)) && shownMods == allMods
      ensures requests != [] && |requests| <= |Offsets(|search(version, loader).hits|)|
      ensures requests == Offsets(|search(version, loader).hits|)[..|requests|]
    {
      selectedMods := {};
      downloadDisabled := true;
      var mods;
      mods, requests := FetchMods(search(version, loader));
      allMods := mods;
      shownMods := allMods;
      SubseqReflexive(allMods);
      RenderMods();
    }

    /** The part of `renderMods` that is not drawing: an empty list disables
        the download button. */
    method RenderMods()
      requires Valid()
      modifies this`downloadDisabled
      ensures Valid()
      ensures downloadDisabled == (old(downloadDisabled) || shownMods == [])
    {
      if |shownMods| == 0 {
        downloadDisabled := true;
      }
    }

    /** `filterMods`: show the loaded mods that match the search box; the
        selection is left as it is. */
    method FilterShown(raw: string)
      requires Valid()
      modifies this`shownMods, this`downloadDisabled
      ensures Valid()
      ensures shownMods == FilterMods(allMods, raw)
      ensures downloadDisabled == (old(downloadDisabled) || shownMods == [])
    {
      var shown := FilterMods(allMods, raw);
      FilterModsSpec(allMods, raw);
      shownMods := shown;
      RenderMods();
    }

    /** The checkbox of a shown mod changes: checking adds its slug, unchecking
        removes it, and the button is disabled exactly when nothing is selected. */
    method Toggle(slug: string, checked: bool)
      requires Valid() && slug in Slugs(shownMods)
      modifies this`selectedMods, this`downloadDisabled
      ensures Valid()
      ensures selectedMods == if checked then old(selectedMods) + {slug} else old(selectedMods) - {slug}
      ensures downloadDisabled <==> selectedMods == {}
    {
      SubseqMembers(shownMods, allMods);
      if checked {
        selectedMods := selectedMods + {slug};
      } else {
        selectedMods := selectedMods - {slug};
      }
      downloadDisabled := |selectedMods| == 0;
    }

    /** A press of the download button. A disabled button fires no click, so
        nothing happens; with nothing selected the handler returns at once;
        otherwise each shown mod whose slug is selected is attempted once, in
        the order shown, and the loop goes on after every failure. `releases`
        gives the version listing for a slug, game version and loader. */
    method Download(releases: (string, string, string) -> Listing) returns (attempts: seq<Attempt>)
      ensures downloadDisabled || selectedMods == {} ==> attempts == []
      ensures !downloadDisabled ==>
        var batch := Batch(shownMods, selectedMods);
        && |attempts| == |batch|
        && forall i :: 0 <= i < |batch| ==>
             attempts[i] == Outcome(batch[i], releases(batch[i].slug, version, loader))
    {
      if downloadDisabled {
        return [];
      }
      if |selectedMods| == 0 {
        return [];
      }
      var batch := Batch(shownMods, selectedMods);
      attempts := AttemptAll(batch, version, loader, releases);
    }

    /** `DOMContentLoaded`: load the versions, then the mods. */
    method Start(answer: Option<seq<VersionTag>>, search: (string, string) -> SearchService)
      requires Valid()
      modifies this`versionOptions, this`version, this`selectedMods, this`downloadDisabled,
        this`allMods, this`shownMods
      ensures Valid() && loader == old(loader)
      ensures Choices(versionOptions, version) == LoadVersions(answer)
      ensures allMods == Fetched(search(version, loader)) && shownMods == allMods
      ensures selectedMods == {} && downloadDisabled
    {
      FetchVersions(answer);
      var _ := ReloadMods(search);
    }
  }
}
