/** The game-version list of `fetchVersions` (main.js:14-36): drop release
    candidates, remove duplicates, sort newest first with a numeric-aware
    comparison, and pick the default entry. */
module Versions {
  import opened Wrappers
  import opened Text
  import opened Seqs

  /** One record of the `tag/game_version` answer; only its `version` is read. */
  datatype VersionTag = VersionTag(version: string)

  /** The version chosen by default when the list offers it. */
  const Preferred: string := "1.20.1"
  /** The options installed when the version list cannot be loaded. */
  const FallbackOptions: seq<string> := ["1.20.1", "1.18.2"]
  /** Tags ending in this suffix are dropped. */
  const CandidateSuffix: string := "-rc"

  // ---------------------------------------------------------------------------
  // Numeric-aware comparison, `a.localeCompare(b, undefined, {numeric: true,
  // sensitivity: 'base'})`: a maximal run of decimal digits compares as one
  // number, other characters compare one by one ignoring ASCII case; the
  // punctuation below '0' ('.', '-', ...) sorts before numbers, the rest after.
  // ---------------------------------------------------------------------------

  datatype Token = Number(value: nat) | Symbol(c: char)

  predicate IsDigit(c: char)
  {
    '0' <= c <= '9'
  }

  /** Length of the run of digits that `s` starts with. */
  function DigitRun(s: string): (n: nat)
    ensures n <= |s|
    ensures forall k :: 0 <= k < n ==> IsDigit(s[k])
    ensures s != [] && IsDigit(s[0]) ==> n > 0
    decreases |s|
  {
    if s != [] && IsDigit(s[0]) then 1 + DigitRun(s[1..]) else 0
  }

  /** The decimal value of a run of digits. */
  function NumberValue(digits: string): nat
    requires AllDigits(digits)
    decreases |digits|
  {
    if digits == [] then 0
    else
      assert IsDigit(digits[|digits| - 1]);
      NumberValue(digits[..|digits| - 1]) * 10 + (digits[|digits| - 1] as int - '0' as int)
  }

  function Tokens(s: string): seq<Token>
    decreases |s|
  {
    if s == [] then []
    else if IsDigit(s[0]) then
      var n := DigitRun(s);
      [Number(NumberValue(s[..n]))] + Tokens(s[n..])
    else [Symbol(LowerChar(s[0]))] + Tokens(s[1..])
  }

  function Rank(t: Token): nat
  {
    match t
    case Symbol(c) => if c < '0' then 0 else 2
    case Number(_) => 1
  }

  function Weight(t: Token): nat
  {
    match t
    case Number(v) => v
    case Symbol(c) => c as nat
  }

  predicate TokenBefore(x: Token, y: Token)
  {
    Rank(x) < Rank(y) || (Rank(x) == Rank(y) && Weight(x) < Weight(y))
  }

  /** Token sequence `a` sorts no later than `b`: lexicographic, a prefix first. */
  predicate NoLater(a: seq<Token>, b: seq<Token>)
    decreases |a|
  {
    a == [] || (b != [] && (TokenBefore(a[0], b[0]) || (a[0] == b[0] && NoLater(a[1..], b[1..]))))
  }

  /** `a.localeCompare(b, ...) <= 0`. */
  predicate AtMost(a: string, b: string)
  {
    NoLater(Tokens(a), Tokens(b))
  }

  /** Two tokens that neither precedes are the same token. */
  lemma TokenTrichotomy(x: Token, y: Token)
    ensures TokenBefore(x, y) || TokenBefore(y, x) || x == y
  {
    if !TokenBefore(x, y) && !TokenBefore(y, x) {
      match x
      case Number(_) =>
      case Symbol(c) =>
        assert y.Symbol? && y.c as nat == c as nat;
    }
  }

  lemma {:induction false} NoLaterTotal(a: seq<Token>, b: seq<Token>)
    ensures NoLater(a, b) || NoLater(b, a)
    decreases |a|
  {
    if a != [] && b != [] {
      TokenTrichotomy(a[0], b[0]);
      NoLaterTotal(a[1..], b[1..]);
    }
  }

  lemma {:induction false} NoLaterTransitive(a: seq<Token>, b: seq<Token>, c: seq<Token>)
    requires NoLater(a, b) && NoLater(b, c)
    ensures NoLater(a, c)
    decreases |a|
  {
    if a != [] && a[0] == b[0] && b[0] == c[0] {
      NoLaterTransitive(a[1..], b[1..], c[1..]);
    }
  }

  lemma {:induction false} NoLaterReflexive(a: seq<Token>)
    ensures NoLater(a, a)
    decreases |a|
  {
    if a != [] {
      NoLaterReflexive(a[1..]);
    }
  }

  /** The comparison is a total preorder on version strings: any two compare,
      and the order is transitive and reflexive. */
  lemma AtMostTotalPreorder(a: string, b: string, c: string)
    ensures AtMost(a, b) || AtMost(b, a)
    ensures AtMost(a, b) && AtMost(b, c) ==> AtMost(a, c)
    ensures AtMost(a, a)
  {
    NoLaterTotal(Tokens(a), Tokens(b));
    if AtMost(a, b) && AtMost(b, c) {
      NoLaterTransitive(Tokens(a), Tokens(b), Tokens(c));
    }
    NoLaterReflexive(Tokens(a));
  }

  /** A common prefix does not change how two token sequences compare. */
  lemma {:induction false} NoLaterCommonPrefix(p: seq<Token>, a: seq<Token>, b: seq<Token>)
    ensures NoLater(p + a, p + b) <==> NoLater(a, b)
    decreases |p|
  {
    if p != [] {
      var pa, pb := p + a, p + b;
      assert pa != [] && pb != [] && pa[0] == p[0] && pb[0] == p[0];
      assert !TokenBefore(p[0], p[0]);
      assert pa[1..] == p[1..] + a;
      assert pb[1..] == p[1..] + b;
      NoLaterCommonPrefix(p[1..], a, b);
      assert NoLater(pa, pb) == NoLater(pa[1..], pb[1..]);
    } else {
      assert p + a == a && p + b == b;
    }
  }

  predicate AllDigits(d: string)
  {
    forall k :: 0 <= k < |d| ==> IsDigit(d[k])
  }

  /** A digit run that stops inside `p` stops at the same place in `p + q`. */
  lemma {:induction false} DigitRunStopsInPrefix(p: string, q: string)
    requires p != [] && !IsDigit(p[|p| - 1])
    ensures DigitRun(p + q) == DigitRun(p) < |p|
    decreases |p|
  {
    if IsDigit(p[0]) {
      assert (p + q)[1..] == p[1..] + q;
      DigitRunStopsInPrefix(p[1..], q);
    }
  }

  /** A run of digits is one number token. */
  lemma DigitsAreOneToken(d: string)
    requires d != [] && AllDigits(d)
    ensures Tokens(d) == [Number(NumberValue(d))]
  {
    DigitRunCoversDigits(d);
    assert d[..|d|] == d && d[|d|..] == [];
  }

  lemma {:induction false} DigitRunCoversDigits(d: string)
    requires AllDigits(d)
    ensures DigitRun(d) == |d|
    decreases |d|
  {
    if d != [] {
      DigitRunCoversDigits(d[1..]);
    }
  }

  /** A prefix that ends in a non-digit tokenises on its own. */
  lemma {:induction false} TokensSplit(p: string, q: string)
    requires p == [] || !IsDigit(p[|p| - 1])
    ensures Tokens(p + q) == Tokens(p) + Tokens(q)
    decreases |p|
  {
    if p == [] {
      assert p + q == q;
    } else if IsDigit(p[0]) {
      var n := DigitRun(p);
      DigitRunStopsInPrefix(p, q);
      assert (p + q)[..n] == p[..n];
      assert (p + q)[n..] == p[n..] + q;
      TokensSplit(p[n..], q);
    } else {
      assert (p + q)[1..] == p[1..] + q;
      TokensSplit(p[1..], q);
    }
  }

  /** The comparison is numeric-aware: after a common prefix that ends in a
      non-digit, runs of digits compare by value, so "1.20.10" sorts after
      "1.20.2". */
  lemma NumbersCompareByValue(p: string, d1: string, d2: string)
    requires p == [] || !IsDigit(p[|p| - 1])
    requires d1 != [] && AllDigits(d1) && d2 != [] && AllDigits(d2)
    ensures AtMost(p + d1, p + d2) <==> NumberValue(d1) <= NumberValue(d2)
  {
    TokensSplit(p, d1);
    TokensSplit(p, d2);
    DigitsAreOneToken(d1);
    DigitsAreOneToken(d2);
    NoLaterCommonPrefix(Tokens(p), [Number(NumberValue(d1))], [Number(NumberValue(d2))]);
    assert [Number(NumberValue(d1))][1..] == [];
  }

  // ---------------------------------------------------------------------------
  // The list pipeline: filter, map, de-duplicate, sort.
  // ---------------------------------------------------------------------------

  /** `versions.filter(v => !v.version.endsWith("-rc")).map(v => v.version)` */
  function StableNames(tags: seq<VersionTag>): seq<string>
  {
    var kept := Filter(tags, (t: VersionTag) => !EndsWith(t.version, CandidateSuffix));
    seq(|kept|, i requires 0 <= i < |kept| => kept[i].version)
  }

  /** `Array.from(new Set(s))`: the first occurrence of each value, in order. */
  function Dedup(s: seq<string>): seq<string>
    decreases |s|
  {
    if s == [] then []
    else
      var r := Dedup(s[..|s| - 1]);
      if s[|s| - 1] in r then r else r + [s[|s| - 1]]
  }

  ghost predicate NoDuplicates(s: seq<string>)
  {
    forall v :: multiset(s)[v] <= 1
  }

  /** Newest first: every entry sorts no later than each entry before it. */
  ghost predicate SortedNewestFirst(s: seq<string>)
  {
    forall i, j :: 0 <= i < j < |s| ==> AtMost(s[j], s[i])
  }

  /** Places `x` before the first entry it does not sort before; equal entries
      keep `x` first, so the sort built from it is stable as JavaScript's is. */
  function Insert(x: string, s: seq<string>): seq<string>
    decreases |s|
  {
    if s == [] || AtMost(s[0], x) then [x] + s
    else [s[0]] + Insert(x, s[1..])
  }

  /** `s.sort((a, b) => b.localeCompare(a, ...))` */
  function SortNewestFirst(s: seq<string>): seq<string>
    decreases |s|
  {
    if s == [] then [] else Insert(s[0], SortNewestFirst(s[1..]))
  }

  /** The version options `fetchVersions` installs. */
  function Normalise(tags: seq<VersionTag>): seq<string>
  {
    SortNewestFirst(Dedup(StableNames(tags)))
  }

  /** `stable.find(v => v === "1.20.1") || stable[0]`; an empty list selects
      nothing, which a `<select>` reports as "". */
  function DefaultChoice(options: seq<string>): string
  {
    if Preferred in options then Preferred
    else if options == [] then ""
    else options[0]
  }

  /** The options and the selected value of the version control. */
  datatype Choices = Choices(options: seq<string>, selected: string)

  /** `fetchVersions`: the answer of the version request, or `None` when the
      request or its decoding throws. */
  function LoadVersions(answer: Option<seq<VersionTag>>): (c: Choices)
    ensures answer.None? ==> c == Choices(FallbackOptions, "1.20.1")
    ensures answer.Some? ==> c.options == Normalise(answer.value)
  {
    match answer
    case None => Choices(FallbackOptions, FallbackOptions[0])
    case Some(tags) =>
      var options := Normalise(tags);
      Choices(options, DefaultChoice(options))
  }

  // ---------------------------------------------------------------------------
  // Properties.
  // ---------------------------------------------------------------------------

  lemma StableNamesSpec(tags: seq<VersionTag>)
    ensures forall v :: v in StableNames(tags) <==> (exists t :: t in tags && t.version == v) && !EndsWith(v, CandidateSuffix)
  {
    var kept := Filter(tags, (t: VersionTag) => !EndsWith(t.version, CandidateSuffix));
    var names := StableNames(tags);
    forall v
      ensures v in names <==> (exists t :: t in tags && t.version == v) && !EndsWith(v, CandidateSuffix)
    {
      if v in names {
        var i :| 0 <= i < |names| && names[i] == v;
        assert kept[i] in kept;
      }
      if (exists t :: t in tags && t.version == v) && !EndsWith(v, CandidateSuffix) {
        var t :| t in tags && t.version == v;
        assert t in kept;
        var i :| 0 <= i < |kept| && kept[i] == t;
        assert names[i] == v;
      }
    }
  }

  lemma {:induction false} DedupSpec(s: seq<string>)
    ensures NoDuplicates(Dedup(s))
    ensures forall v :: v in Dedup(s) <==> v in s
    decreases |s|
  {
    if s != [] {
      var init := s[..|s| - 1];
      DedupSpec(init);
      assert s == init + [s[|s| - 1]];
      var r := Dedup(init);
      if s[|s| - 1] !in r {
        assert multiset(r)[s[|s| - 1]] == 0;
      }
    }
  }

  lemma {:induction false} InsertSpec(x: string, s: seq<string>)
    requires SortedNewestFirst(s)
    ensures multiset(Insert(x, s)) == multiset(s) + multiset{x}
    ensures SortedNewestFirst(Insert(x, s))
    decreases |s|
  {
    if s == [] || AtMost(s[0], x) {
      InsertAtFront(x, s);
    } else {
      assert s == [s[0]] + s[1..];
      InsertSpec(x, s[1..]);
      AtMostTotalPreorder(s[0], x, x);
      InsertBehind(x, s, Insert(x, s[1..]));
    }
  }

  /** `x` goes first when it sorts no earlier than the head. */
  lemma InsertAtFront(x: string, s: seq<string>)
    requires SortedNewestFirst(s)
    requires s == [] || AtMost(s[0], x)
    ensures SortedNewestFirst([x] + s)
  {
    var r := [x] + s;
    forall i, j | 0 <= i < j < |r|
      ensures AtMost(r[j], r[i])
    {
      if i == 0 && j > 1 {
        AtMostTotalPreorder(s[j - 1], s[0], x);
      }
    }
  }

  /** The head stays first when `x` sorts after it and the rest, with `x`
      inserted, is in order. */
  lemma InsertBehind(x: string, s: seq<string>, rest: seq<string>)
    requires s != [] && SortedNewestFirst(s) && AtMost(x, s[0])
    requires multiset(rest) == multiset(s[1..]) + multiset{x}
    requires SortedNewestFirst(rest)
    ensures SortedNewestFirst([s[0]] + rest)
  {
    var r := [s[0]] + rest;
    forall i, j | 0 <= i < j < |r|
      ensures AtMost(r[j], r[i])
    {
      if i == 0 {
        var y := rest[j - 1];
        assert y in multiset(rest);
        if y != x {
          assert y in multiset(s[1..]);
          var k :| 0 <= k < |s[1..]| && s[1..][k] == y;
          assert s[k + 1] == y;
        }
      } else {
        assert r[i] == rest[i - 1] && r[j] == rest[j - 1];
      }
    }
  }

  lemma {:induction false} SortSpec(s: seq<string>)
    ensures multiset(SortNewestFirst(s)) == multiset(s)
    ensures SortedNewestFirst(SortNewestFirst(s))
    decreases |s|
  {
    if s != [] {
      SortSpec(s[1..]);
      InsertSpec(s[0], SortNewestFirst(s[1..]));
      assert s == [s[0]] + s[1..];
    }
  }

  /** The installed list holds exactly the tag names that do not end in "-rc",
      each once, newest first. */
  lemma NormaliseSpec(tags: seq<VersionTag>)
    ensures forall v :: v in Normalise(tags) <==> (exists t :: t in tags && t.version == v) && !EndsWith(v, CandidateSuffix)
    ensures NoDuplicates(Normalise(tags))
    ensures SortedNewestFirst(Normalise(tags))
  {
    var names := StableNames(tags);
    StableNamesSpec(tags);
    DedupSpec(names);
    SortSpec(Dedup(names));
    forall v
      ensures v in Normalise(tags) <==> v in Dedup(names)
    {
      assert v in Normalise(tags) <==> v in multiset(Normalise(tags));
    }
  }

  /** The default is "1.20.1" when offered, otherwise the newest version; an
      empty list selects nothing. */
  lemma DefaultChoiceSpec(options: seq<string>)
    requires SortedNewestFirst(options)
    ensures options != [] ==> DefaultChoice(options) in options
    ensures Preferred in options ==> DefaultChoice(options) == Preferred
    ensures Preferred !in options && options != [] ==>
      forall v :: v in options ==> AtMost(v, DefaultChoice(options))
    ensures options == [] ==> DefaultChoice(options) == ""
  {
    if options != [] {
      AtMostTotalPreorder(options[0], options[0], options[0]);
    }
  }

  /** What a successful load installs: the normalised list, and the preferred
      or newest entry selected. */
  lemma LoadVersionsSpec(tags: seq<VersionTag>)
    ensures var c := LoadVersions(Some(tags));
      && NoDuplicates(c.options) && SortedNewestFirst(c.options)
      && (forall v :: v in c.options ==> !EndsWith(v, CandidateSuffix))
      && (Preferred in c.options ==> c.selected == Preferred)
      && (Preferred !in c.options && c.options != [] ==> c.selected == c.options[0])
  {
    NormaliseSpec(tags);
  }

  /** `endsWith("-rc")` only drops tags that end in exactly "-rc": a numbered
      release candidate such as "1.20.1-rc1" stays in the list. */
  lemma NumberedCandidateKept()
    ensures "1.20.1-rc1" in Normalise([VersionTag("1.20.1-rc1")])
  {
    var v := "1.20.1-rc1";
    var tags := [VersionTag(v)];
    assert v[|v| - 3..] == "rc1";
    assert !EndsWith(v, CandidateSuffix);
    assert tags[0] in tags && tags[0].version == v;
    NormaliseSpec(tags);
  }
}
