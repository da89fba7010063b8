/** What the download button does with each mod (main.js:136-170): ask for
    the mod's versions that fit the chosen game version and loader, take the
    first `.jar` file of the first version, and trigger its transfer. */
module Downloads {
  import opened Wrappers
  import opened Text
  import opened Seqs
  import opened Catalog

  /** One file of a version: its name and where to fetch it. */
  datatype ModFile = ModFile(filename: string, url: string)
  /** One version of a mod, as listed by the server (best match first). */
  datatype ModVersion = ModVersion(files: seq<ModFile>)

  /** The answer of the version-listing request for one mod: the request or
      its decoding throws, or it lists the compatible versions. */
  datatype Listing = Thrown(detail: string) | Listed(versions: seq<ModVersion>)

  /** What became of one mod of the batch. `Triggered` is the hidden-anchor
      click that starts the browser's transfer of `filename` from `url`. */
  datatype Attempt =
    | NoCompatibleVersion(mod: Mod)
    | NoJarFile(mod: Mod)
    | Errored(mod: Mod, detail: string)
    | Triggered(mod: Mod, filename: string, url: string)

  predicate IsJar(f: ModFile)
  {
    EndsWith(f.filename, ".jar")
  }

  /** `files.find(f => f.filename.endsWith(".jar"))`, as a position. */
  function FirstJar(files: seq<ModFile>): (r: Option<nat>)
    ensures r.Some? ==> r.value < |files| && IsJar(files[r.value])
    ensures r.Some? ==> forall j :: 0 <= j < r.value ==> !IsJar(files[j])
    ensures r.None? ==> forall j :: 0 <= j < |files| ==> !IsJar(files[j])
    decreases |files|
  {
    if files == [] then None
    else if IsJar(files[0]) then Some(0)
    else
      match FirstJar(files[1..])
      case None => None
      case Some(k) => Some(k + 1)
  }

  /** `shownMods.filter(m => selectedMods.has(m.slug))`: the batch to download. */
  function Batch(shown: seq<Mod>, selected: set<string>): (batch: seq<Mod>)
    ensures IsSubseq(batch, shown)
    ensures forall m :: m in batch <==> m in shown && m.slug in selected
    ensures forall m :: multiset(batch)[m] == if m.slug in selected then multiset(shown)[m] else 0
    ensures selected == {} ==> batch == []
  {
    Filter(shown, (m: Mod) => m.slug in selected)
  }

  /** The body of the download loop for one mod, given its listing. */
  function Outcome(mod: Mod, listing: Listing): Attempt
  {
    match listing
    case Thrown(detail) => Errored(mod, detail)
    case Listed(versions) =>
      if |versions| == 0 then NoCompatibleVersion(mod)
      else
        match FirstJar(versions[0].files)
        case None => NoJarFile(mod)
        case Some(k) => Triggered(mod, versions[0].files[k].filename, versions[0].files[k].url)
  }

  /** Every attempt is about its own mod; a transfer is triggered exactly when
      the first listed version has a `.jar` file, and then for the first such
      file; a mod without a compatible version or without a `.jar` is skipped,
      and a thrown error is recorded. */
  lemma OutcomeSpec(mod: Mod, listing: Listing)
    ensures Outcome(mod, listing).mod == mod
    ensures Outcome(mod, listing).Errored? <==> listing.Thrown?
    ensures Outcome(mod, listing).NoCompatibleVersion? <==> listing.Listed? && listing.versions == []
    ensures Outcome(mod, listing).NoJarFile? <==>
      listing.Listed? && listing.versions != [] &&
      forall j :: 0 <= j < |listing.versions[0].files| ==> !IsJar(listing.versions[0].files[j])
    ensures Outcome(mod, listing).Triggered? ==>
      listing.Listed? && listing.versions != [] &&
      exists k :: 0 <= k < |listing.versions[0].files| &&
        listing.versions[0].files[k] == ModFile(Outcome(mod, listing).filename, Outcome(mod, listing).url) &&
        IsJar(listing.versions[0].files[k]) &&
        forall j :: 0 <= j < k ==> !IsJar(listing.versions[0].files[j])
  {
    if listing.Listed? && listing.versions != [] {
      var files := listing.versions[0].files;
      var r := FirstJar(files);
      if r.Some? {
        assert files[r.value] == ModFile(files[r.value].filename, files[r.value].url);
      }
    }
  }

  /** The download loop over the batch: each mod is attempted once, in order,
      and a mod that fails never stops the ones after it. */
  method AttemptAll(batch: seq<Mod>, version: string, loader: string,
                    releases: (string, string, string) -> Listing) returns (attempts: seq<Attempt>)
    ensures |attempts| == |batch|
    ensures forall i :: 0 <= i < |batch| ==>
      attempts[i] == Outcome(batch[i], releases(batch[i].slug, version, loader))
  {
    attempts := [];
    for i := 0 to |batch|
      invariant |attempts| == i
      invariant forall k :: 0 <= k < i ==>
        attempts[k] == Outcome(batch[k], releases(batch[k].slug, version, loader))
    {
      var mod := batch[i];
      var listing := releases(mod.slug, version, loader);
      if listing.Thrown? {
        attempts := attempts + [Errored(mod, listing.detail)];
        continue;
      }
      var versions := listing.versions;
      if |versions| == 0 {
        attempts := attempts + [NoCompatibleVersion(mod)];
        continue;
      }
      var jar := FirstJar(versions[0].files);
      if jar.None? {
        attempts := attempts + [NoJarFile(mod)];
        continue;
      }
      var file := versions[0].files[jar.value];
      attempts := attempts + [Triggered(mod, file.filename, file.url)];
    }
  }
}
