// The grid of gradient blocks: the in-place shuffle that picks each block's
// base colour, and the media-query overrides applied on resize.

module GradientCards {

  /** The module-level colour table; a `const`, so nothing can change it */
  const Colors: seq<string> := [
    "#FF69B4", "#FFA500", "#FFD700", "#32CD32", "#87CEEB", "#9370DB", "#20B2AA",
    "#FF6347", "#4682B4", "#00CED1", "#FF4500", "#7B68EE", "#3CB371", "#F4A460"
  ]

  // ---------------------------------------------------------------------
  // Randomness

  /** Values a `Math.random()` call may return */
  predicate RandomValues(rolls: seq<real>)
  {
    forall k :: 0 <= k < |rolls| ==> 0.0 <= rolls[k] < 1.0
  }

  /** `Math.floor(r * n)` for a random value `r`: an index below `n` */
  function RandomIndex(r: real, n: nat): (j: int)
    requires 0.0 <= r < 1.0 && n > 0
    ensures 0 <= j < n
  {
    assert r * (n as real) < n as real by {
      assert (1.0 - r) * (n as real) > 0.0;
    }
    (r * (n as real)).Floor
  }

  // ---------------------------------------------------------------------
  // Fisher-Yates shuffle

  function Swap<T>(s: seq<T>, i: int, j: int): (r: seq<T>)
    requires 0 <= i < |s| && 0 <= j < |s|
    ensures |r| == |s| && multiset(r) == multiset(s)
    ensures r[i] == s[j] && r[j] == s[i]
    ensures forall k :: 0 <= k < |s| && k != i && k != j ==> r[k] == s[k]
  {
    s[i := s[j]][j := s[i]]
  }

  /** What the shuffle loop does from iteration `i` down to iteration 1;
      iteration `i` draws `rolls[i]`.  Those iterations swap only positions
      up to `i`, so every position above `i` is already final. */
  function ShuffleFrom<T>(s: seq<T>, rolls: seq<real>, i: int): (r: seq<T>)
    requires -1 <= i < |s| <= |rolls| && RandomValues(rolls)
    ensures |r| == |s| && multiset(r) == multiset(s)
    ensures forall k :: i < k < |s| ==> r[k] == s[k]
    decreases i
  {
    if i <= 0 then s
    else ShuffleFrom(Swap(s, i, RandomIndex(rolls[i], i + 1)), rolls, i - 1)
  }

  /** The whole shuffle: a permutation, the identity on sequences of at most
      one element */
  function Shuffle<T>(s: seq<T>, rolls: seq<real>): (r: seq<T>)
    requires |s| <= |rolls| && RandomValues(rolls)
    ensures |r| == |s| && multiset(r) == multiset(s)
    ensures |s| <= 1 ==> r == s
  {
    ShuffleFrom(s, rolls, |s| - 1)
  }

  /** Shuffles `a` in place and returns it */
  method ShuffleArray<T>(a: array<T>, rolls: seq<real>) returns (r: array<T>)
    requires a.Length <= |rolls| && RandomValues(rolls)
    modifies a
    ensures r == a
    ensures a[..] == Shuffle(old(a[..]), rolls)
    ensures multiset(a[..]) == multiset(old(a[..]))
  {
    ghost var goal := Shuffle(a[..], rolls);
    var i := a.Length - 1;
    while i > 0
      invariant -1 <= i < a.Length
      invariant ShuffleFrom(a[..], rolls, i) == goal
      invariant forall k :: i < k < a.Length ==> a[k] == goal[k]
      decreases i
    {
      var j := RandomIndex(rolls[i], i + 1);
      ghost var before := a[..];
      a[i], a[j] := a[j], a[i];
      assert a[..] == Swap(before, i, j);
      i := i - 1;
    }
    return a;
  }

  /** An element of a permutation of `t` is an element of `t` */
  lemma PermutationKeepsMembers<T>(s: seq<T>, t: seq<T>, k: int)
    requires multiset(s) == multiset(t) && 0 <= k < |s|
    ensures s[k] in t
  {
    assert s[k] in multiset(s);
  }

  /** The base colour of a block: a random entry of a shuffled copy of the
      colour table */
  method PickBaseColor(shuffleRolls: seq<real>, pickRoll: real) returns (baseColor: string)
    requires |Colors| <= |shuffleRolls| && RandomValues(shuffleRolls)
    requires 0.0 <= pickRoll < 1.0
    ensures baseColor in Colors
    ensures baseColor == Shuffle(Colors, shuffleRolls)[RandomIndex(pickRoll, |Colors|)]
  {
    var copy := new string[|Colors|](i requires 0 <= i < |Colors| => Colors[i]);
    assert copy[..] == Colors;
    var shuffledColors := ShuffleArray(copy, shuffleRolls);
    var index := RandomIndex(pickRoll, shuffledColors.Length);
    baseColor := shuffledColors[index];
    PermutationKeepsMembers(shuffledColors[..], Colors, index);
  }

  // ---------------------------------------------------------------------
  // Media-query overrides

  datatype Field = Columns | Rows | BlockSize | Gap

  /** Grid properties, and partial overrides of them, as JavaScript objects
      keyed by field */
  type Props = map<Field, int>

  function BaseProps(columns: int, rows: int, blockSize: int, gap: int): (p: Props)
  {
    map[Columns := columns, Rows := rows, BlockSize := blockSize, Gap := gap]
  }

  predicate Complete(p: Props)
  {
    Columns in p && Rows in p && BlockSize in p && Gap in p
  }

  /** The overrides of every matching query, spread onto `base` in order */
  function ApplyQueries(base: Props, queries: seq<(string, Props)>, matches: string -> bool): (r: Props)
    ensures base.Keys <= r.Keys
    decreases |queries|
  {
    if queries == [] then base
    else
      var previous := ApplyQueries(base, queries[..|queries| - 1], matches);
      var (query, overrides) := queries[|queries| - 1];
      if matches(query) then previous + overrides else previous
  }

  lemma {:induction false} NoMatchKeepsBase(base: Props, queries: seq<(string, Props)>, matches: string -> bool)
    requires forall k :: 0 <= k < |queries| ==> !matches(queries[k].0)
    ensures ApplyQueries(base, queries, matches) == base
    decreases |queries|
  {
    if queries != [] {
      NoMatchKeepsBase(base, queries[..|queries| - 1], matches);
    }
  }

  /** A field no matching query supplies keeps its base value */
  lemma {:induction false} UnsuppliedFieldKeepsBase(base: Props, queries: seq<(string, Props)>,
                                                    matches: string -> bool, f: Field)
    requires f in base
    requires forall k :: 0 <= k < |queries| && matches(queries[k].0) ==> f !in queries[k].1
    ensures ApplyQueries(base, queries, matches)[f] == base[f]
    decreases |queries|
  {
    if queries != [] {
      UnsuppliedFieldKeepsBase(base, queries[..|queries| - 1], matches, f);
    }
  }

  /** A field takes the value of the last matching query that supplies it */
  lemma {:induction false} LastMatchWins(base: Props, queries: seq<(string, Props)>,
                                         matches: string -> bool, f: Field, k: nat)
    requires k < |queries| && matches(queries[k].0) && f in queries[k].1
    requires forall m :: k < m < |queries| && matches(queries[m].0) ==> f !in queries[m].1
    ensures var r := ApplyQueries(base, queries, matches);
      f in r && r[f] == queries[k].1[f]
    decreases |queries|
  {
    if k < |queries| - 1 {
      LastMatchWins(base, queries[..|queries| - 1], matches, f, k);
    }
  }

  /** The resize handler: start from the base properties and spread the
      overrides of each matching query over them */
  method HandleResize(columns: int, rows: int, blockSize: int, gap: int,
                      mediaQueries: seq<(string, Props)>, matches: string -> bool)
    returns (newProps: Props)
    ensures Complete(newProps)
    ensures newProps == ApplyQueries(BaseProps(columns, rows, blockSize, gap), mediaQueries, matches)
  {
    newProps := BaseProps(columns, rows, blockSize, gap);
    for k := 0 to |mediaQueries|
      invariant newProps == ApplyQueries(BaseProps(columns, rows, blockSize, gap), mediaQueries[..k], matches)
    {
      var (query, overrides) := mediaQueries[k];
      if matches(query) {
        newProps := newProps + overrides;
      }
      assert mediaQueries[..k + 1][..k] == mediaQueries[..k];
    }
    assert mediaQueries[..|mediaQueries|] == mediaQueries;
  }

  /** The number of blocks rendered: `columns * rows`, where a negative
      length counts as zero */
  function BlockCount(p: Props): (n: nat)
    requires Columns in p && Rows in p
    ensures p[Columns] >= 0 && p[Rows] >= 0 ==> n == p[Columns] * p[Rows]
    ensures p[Columns] * p[Rows] < 0 ==> n == 0
    ensures n > 0 ==> p[Columns] != 0 && p[Rows] != 0
  {
    var length := p[Columns] * p[Rows];
    if length < 0 then 0 else length
  }

  /** When no query matches, the grid has `columns * rows` blocks */
  lemma BlockCountWithoutMatches(columns: nat, rows: nat, blockSize: int, gap: int,
                                 queries: seq<(string, Props)>, matches: string -> bool)
    requires forall k :: 0 <= k < |queries| ==> !matches(queries[k].0)
    ensures BlockCount(ApplyQueries(BaseProps(columns, rows, blockSize, gap), queries, matches)) == columns * rows
  {
  }
}
