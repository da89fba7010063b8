/** The free-text search of `filterMods` (main.js:104-116): a pure projection
    of the loaded mods, computed without asking the server again. */
module Search {
  import opened Wrappers
  import opened Text
  import opened Seqs
  import opened Catalog

  /** `mod.description || ""` */
  function Description(m: Mod): string
  {
    m.description.GetOr("")
  }

  /** `searchBox.value.trim().toLowerCase()` */
  function Query(raw: string): string
  {
    Lower(Trim(raw))
  }

  /** The title, slug or description contains `q`, ignoring case. */
  predicate Matches(m: Mod, q: string)
  {
    Contains(Lower(m.title), q) || Contains(Lower(m.slug), q) || Contains(Lower(Description(m)), q)
  }

  /** `shownMods` as `filterMods` computes it. */
  function FilterMods(all: seq<Mod>, raw: string): seq<Mod>
  {
    var q := Query(raw);
    if q == "" then all else Filter(all, (m: Mod) => Matches(m, q))
  }

  /** An empty query keeps every mod; otherwise exactly the mods that match,
      in their order and as often as they occur. */
  lemma FilterModsSpec(all: seq<Mod>, raw: string)
    ensures IsSubseq(FilterMods(all, raw), all)
    ensures Query(raw) == "" ==> FilterMods(all, raw) == all
    ensures Query(raw) != "" ==>
      forall m :: m in FilterMods(all, raw) <==> m in all && Matches(m, Query(raw))
    ensures Query(raw) != "" ==>
      forall m :: multiset(FilterMods(all, raw))[m] == if Matches(m, Query(raw)) then multiset(all)[m] else 0
  {
    if Query(raw) == "" {
      SubseqReflexive(all);
    }
  }

  /** Every mod matches the empty query, so the `if (!q)` branch of
      `filterMods` only short-cuts what the filter would give anyway. */
  lemma ShortcutAgrees(all: seq<Mod>, raw: string)
    ensures FilterMods(all, raw) == Filter(all, (m: Mod) => Matches(m, Query(raw)))
  {
    if Query(raw) == "" {
      EmptyQueryKeepsAll(all, Query(raw));
    }
  }

  lemma {:induction false} EmptyQueryKeepsAll(all: seq<Mod>, q: string)
    requires q == ""
    ensures Filter(all, (m: Mod) => Matches(m, q)) == all
    decreases |all|
  {
    if all != [] {
      ContainsEmpty(Lower(all[0].title));
      EmptyQueryKeepsAll(all[1..], q);
      assert all == [all[0]] + all[1..];
    }
  }

  /** The search ignores the case of what is typed. */
  lemma CaseInsensitive(all: seq<Mod>, raw: string)
    ensures FilterMods(all, Lower(raw)) == FilterMods(all, raw)
  {
    TrimLowerCommute(raw);
  }

  /** A query of white space only shows every mod. */
  lemma BlankQueryShowsAll(all: seq<Mod>, raw: string)
    requires forall k :: 0 <= k < |raw| ==> IsWhitespace(raw[k])
    ensures FilterMods(all, raw) == all
  {
  }
}
