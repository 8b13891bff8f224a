/** The layered topological sort of scripts/package-graph.ts. */
module PackageGraph {
  import opened Wrappers
  import opened Sorting

  datatype Package = Package(short: string, group: string, deps: seq<string>)

  /** `localeCompare`, taken as some total order on strings. */
  type Collation = (string, string) -> int

  ghost predicate IsCollation(collate: Collation) {
    && (forall a, b :: collate(a, b) == 0 <==> a == b)
    && (forall a, b :: collate(a, b) < 0 <==> collate(b, a) > 0)
    && (forall a, b, c :: collate(a, b) < 0 && collate(b, c) < 0 ==> collate(a, c) < 0)
  }

  /** The first place of `x`, or -1. */
  function IndexOf(xs: seq<string>, x: string): (i: int)
    ensures -1 <= i < |xs|
    ensures i == -1 <==> x !in xs
    ensures i >= 0 ==> xs[i] == x && x !in xs[..i]
  {
    if xs == [] then -1
    else if xs[0] == x then 0
    else
      var i := IndexOf(xs[1..], x);
      if i == -1 then -1 else i + 1
  }

  function GroupRank(group: string, groupOrder: seq<string>): int {
    if IndexOf(groupOrder, group) == -1 then MAX_SAFE_INTEGER else IndexOf(groupOrder, group)
  }

  /** `comparePackages` */
  function Compare(a: Package, b: Package, groupOrder: seq<string>, collate: Collation): int {
    var ranks := GroupRank(a.group, groupOrder) - GroupRank(b.group, groupOrder);
    if ranks != 0 then ranks
    else if collate(a.group, b.group) != 0 then collate(a.group, b.group)
    else collate(a.short, b.short)
  }

  function Comparing(groupOrder: seq<string>, collate: Collation): Comparator<Package> {
    (a, b) => Compare(a, b, groupOrder, collate)
  }

  lemma CompareIsOrder(groupOrder: seq<string>, collate: Collation)
    requires IsCollation(collate)
    ensures TotalPreorder(Comparing(groupOrder, collate))
    ensures forall a, b :: Compare(a, b, groupOrder, collate) == 0 ==> a.short == b.short
    ensures forall a, b :: Compare(a, b, groupOrder, collate) < 0 <==> Compare(b, a, groupOrder, collate) > 0
  {}

  /** The caller lists `g`, and does not list `h` before it or at all. */
  ghost predicate ListedFirst(g: string, h: string, groupOrder: seq<string>) {
    exists i :: 0 <= i < |groupOrder| && groupOrder[i] == g && h !in groupOrder[..i + 1]
  }

  /**
   * Within one layer: the caller's order of groups, then the groups it does not list by
   * their names, and the packages of one group by theirs.
   */
  ghost predicate PrintedBefore(a: Package, b: Package, groupOrder: seq<string>, collate: Collation) {
    || ListedFirst(a.group, b.group, groupOrder)
    || (a.group !in groupOrder && b.group !in groupOrder && collate(a.group, b.group) < 0)
    || (a.group == b.group && collate(a.short, b.short) < 0)
  }

  lemma {:induction false} ListedByIndex(g: string, h: string, groupOrder: seq<string>)
    ensures ListedFirst(g, h, groupOrder) <==>
      g in groupOrder && (h in groupOrder ==> IndexOf(groupOrder, g) < IndexOf(groupOrder, h))
  {
    var m, n := IndexOf(groupOrder, g), IndexOf(groupOrder, h);
    hide IndexOf;
    if i :| 0 <= i < |groupOrder| && groupOrder[i] == g && h !in groupOrder[..i + 1] {
      forall j | 0 <= j < m ensures groupOrder[j] != g { assert groupOrder[..m][j] == groupOrder[j]; }
      forall j | 0 <= j <= i ensures groupOrder[j] != h { assert groupOrder[..i + 1][j] == groupOrder[j]; }
    }
    if g in groupOrder && (h in groupOrder ==> m < n) {
      forall j | 0 <= j <= m ensures groupOrder[j] != h {
        if h in groupOrder { assert groupOrder[..n][j] == groupOrder[j]; }
      }
      assert h !in groupOrder[..m + 1];
    }
  }

  lemma {:induction false} RanksMean(g: string, h: string, groupOrder: seq<string>)
    requires |groupOrder| <= MAX_SAFE_INTEGER
    ensures GroupRank(g, groupOrder) < GroupRank(h, groupOrder) <==> ListedFirst(g, h, groupOrder)
    ensures GroupRank(g, groupOrder) == GroupRank(h, groupOrder) <==>
      g == h || (g !in groupOrder && h !in groupOrder)
  {
    ListedByIndex(g, h, groupOrder);
    var m, n := IndexOf(groupOrder, g), IndexOf(groupOrder, h);
    hide IndexOf, ListedFirst;
    assert m >= 0 ==> groupOrder[m] == g;
    assert n >= 0 ==> groupOrder[n] == h;
  }

  /** The ranks tell that order, as long as no place in the list reaches the rank of an unlisted group. */
  lemma {:induction false} CompareMeans(a: Package, b: Package, groupOrder: seq<string>, collate: Collation)
    requires IsCollation(collate) && |groupOrder| <= MAX_SAFE_INTEGER
    ensures Compare(a, b, groupOrder, collate) < 0 <==> PrintedBefore(a, b, groupOrder, collate)
  {
    RanksMean(a.group, b.group, groupOrder);
    assert collate(a.group, b.group) == 0 <==> a.group == b.group;
    hide IsCollation, GroupRank, ListedFirst;
  }

  // ----- the packages as the source indexes them

  /** `new Map(packages.map(pkg => [pkg.short, pkg]))`, as its values in insertion order. */
  function Entries(packages: seq<Package>): (r: seq<Package>)
    ensures UniqueShorts(r)
    ensures forall p :: p in r <==> LastOfName(packages, p)
    ensures Shorts(r) == Shorts(packages)
    ensures InOrderOf(r, packages)
  {
    if packages == [] then []
    else
      var before, last := Entries(packages[..|packages| - 1]), packages[|packages| - 1];
      EntriesStep(packages, before);
      Put(before, last)
  }

  /** `map.set(pkg.short, pkg)`: a known name keeps its place. */
  function Put(entries: seq<Package>, p: Package): seq<Package>
    requires UniqueShorts(entries)
  {
    if p.short in Shorts(entries) then Replace(entries, p) else entries + [p]
  }

  /** Of the packages with one name, the last. */
  ghost predicate LastOfName(packages: seq<Package>, p: Package) {
    exists i :: 0 <= i < |packages| && packages[i] == p && p.short !in Shorts(packages[i + 1..])
  }

  /** Some package of name `x` stands before every one of name `y`. */
  ghost predicate NamedFirst(packages: seq<Package>, x: string, y: string) {
    exists i :: 0 <= i < |packages| && packages[i].short == x && y !in Shorts(packages[..i + 1])
  }

  /** The names of `r` stand in the order in which they first occur in `packages`. */
  ghost predicate InOrderOf(r: seq<Package>, packages: seq<Package>) {
    forall i, j :: 0 <= i < j < |r| ==> NamedFirst(packages, r[i].short, r[j].short)
  }

  lemma {:induction false} EntriesStep(packages: seq<Package>, before: seq<Package>)
    requires packages != [] && UniqueShorts(before) && Shorts(before) == Shorts(packages[..|packages| - 1])
    requires forall p :: p in before <==> LastOfName(packages[..|packages| - 1], p)
    requires InOrderOf(before, packages[..|packages| - 1])
    ensures var r := Put(before, packages[|packages| - 1]);
            UniqueShorts(r) && Shorts(r) == Shorts(packages) && InOrderOf(r, packages)
            && forall p :: p in r <==> LastOfName(packages, p)
  {
    var older, last := packages[..|packages| - 1], packages[|packages| - 1];
    assert packages == older + [last];
    ShortsSnoc(older, last);
    PutFacts(before, last);
    PutOrder(older, before, last);
    hide Put, Shorts, UniqueShorts, LastOfName, InOrderOf;
    forall p ensures p in Put(before, last) <==> LastOfName(packages, p) {
      LastSnoc(older, last, p);
    }
  }

  lemma {:induction false} LastSnoc(older: seq<Package>, last: Package, p: Package)
    ensures LastOfName(older + [last], p) <==> p == last || (p.short != last.short && LastOfName(older, p))
  {
    var all := older + [last];
    assert all[|older|] == last && all[|older| + 1..] == [];
    NoShorts();
    if i :| 0 <= i < |older| && older[i] == p && p.short !in Shorts(older[i + 1..]) && p.short != last.short {
      BehindSnoc(older, last, i);
      assert all[i] == p;
    }
    if i :| 0 <= i < |older| && all[i] == p && p.short !in Shorts(all[i + 1..]) {
      BehindSnoc(older, last, i);
      assert older[i] == p;
    }
  }

  lemma BehindSnoc(older: seq<Package>, last: Package, i: nat)
    requires i < |older|
    ensures Shorts((older + [last])[i + 1..]) == Shorts(older[i + 1..]) + {last.short}
  {
    assert (older + [last])[i + 1..] == older[i + 1..] + [last];
    ShortsSnoc(older[i + 1..], last);
  }

  lemma NoShorts()
    ensures Shorts([]) == {}
  {}

  lemma {:induction false} NamedFirstSnoc(older: seq<Package>, last: Package, x: string, y: string)
    ensures NamedFirst(older, x, y) ==> NamedFirst(older + [last], x, y)
    ensures x in Shorts(older) && y !in Shorts(older) ==> NamedFirst(older, x, y)
  {
    var all := older + [last];
    if i :| 0 <= i < |older| && older[i].short == x && y !in Shorts(older[..i + 1]) {
      assert all[..i + 1] == older[..i + 1] && all[i] == older[i];
    }
    if x in Shorts(older) && y !in Shorts(older) {
      var p :| p in older && p.short == x;
      var i :| 0 <= i < |older| && older[i] == p;
      assert forall q :: q in older[..i + 1] ==> q in older;
    }
  }

  /** A new name comes last, and a known one keeps its place. */
  lemma {:induction false} PutOrder(older: seq<Package>, before: seq<Package>, last: Package)
    requires UniqueShorts(before) && Shorts(before) == Shorts(older) && InOrderOf(before, older)
    ensures InOrderOf(Put(before, last), older + [last])
  {
    var r := Put(before, last);
    hide NamedFirst;
    forall i, j | 0 <= i < j < |r| ensures NamedFirst(older + [last], r[i].short, r[j].short) {
      NamedFirstSnoc(older, last, r[i].short, r[j].short);
      if j < |before| {
        assert r[i].short == before[i].short && r[j].short == before[j].short;
      } else {
        assert before[i] in before && r[i] == before[i] && r[j] == last;
      }
    }
  }

  lemma {:induction false} PutFacts(entries: seq<Package>, p: Package)
    requires UniqueShorts(entries)
    ensures UniqueShorts(Put(entries, p)) && Shorts(Put(entries, p)) == Shorts(entries) + {p.short}
    ensures forall q :: q in Put(entries, p) <==> q == p || (q in entries && q.short != p.short)
  {
    var r := Put(entries, p);
    if p.short !in Shorts(entries) {
      ShortsSnoc(entries, p);
      forall i | 0 <= i < |entries| ensures entries[i].short != p.short { assert entries[i] in entries; }
    } else {
      var known :| known in entries && known.short == p.short;
      var k :| 0 <= k < |entries| && entries[k] == known;
      assert r[k] == p;
      forall q | q in entries && q.short != p.short ensures q in r {
        var i :| 0 <= i < |entries| && entries[i] == q;
        assert r[i] == q;
      }
    }
  }

  function Replace(entries: seq<Package>, p: Package): (r: seq<Package>)
    requires UniqueShorts(entries)
    ensures |r| == |entries|
    ensures forall i :: 0 <= i < |r| ==> r[i] == if entries[i].short == p.short then p else entries[i]
    ensures UniqueShorts(r) && Shorts(r) == Shorts(entries)
  {
    var r := seq(|entries|, i requires 0 <= i < |entries| => if entries[i].short == p.short then p else entries[i]);
    assert forall i :: 0 <= i < |r| ==> r[i].short == entries[i].short;
    SameShorts(r, entries);
    r
  }

  lemma ShortsSnoc(packages: seq<Package>, p: Package)
    ensures Shorts(packages + [p]) == Shorts(packages) + {p.short}
  {
    assert forall q :: q in packages + [p] <==> q in packages || q == p;
  }

  lemma SameShorts(a: seq<Package>, b: seq<Package>)
    requires |a| == |b| && forall i :: 0 <= i < |a| ==> a[i].short == b[i].short
    ensures Shorts(a) == Shorts(b)
  {
    forall p | p in a ensures p.short in Shorts(b) {
      var i :| 0 <= i < |a| && a[i] == p;
      assert b[i] in b;
    }
    forall p | p in b ensures p.short in Shorts(a) {
      var i :| 0 <= i < |b| && b[i] == p;
      assert a[i] in a;
    }
  }

  function Shorts(packages: seq<Package>): set<string> {
    set p | p in packages :: p.short
  }

  ghost predicate UniqueShorts(packages: seq<Package>) {
    forall i, j :: 0 <= i < j < |packages| ==> packages[i].short != packages[j].short
  }

  lemma {:induction false} UniqueEntries(packages: seq<Package>)
    requires UniqueShorts(packages)
    ensures Entries(packages) == packages
  {
    if packages != [] {
      UniqueEntries(packages[..|packages| - 1]);
      assert packages == packages[..|packages| - 1] + [packages[|packages| - 1]];
    }
  }

  // ----- dependency layers

  type Levels = map<string, nat>

  /** Some numbering puts every dependency strictly below its dependents. */
  ghost predicate Rankable(entries: seq<Package>) {
    exists rank: Levels :: Ranks(entries, rank)
  }

  ghost predicate Ranks(entries: seq<Package>, rank: Levels) {
    && Shorts(entries) <= rank.Keys
    && forall p, d :: p in entries && d in p.deps ==> d in Shorts(entries) && rank[d] < rank[p.short]
  }

  /** The package has exactly the level of its highest dependency plus one. */
  ghost predicate AtLevel(p: Package, level: Levels) {
    && p.short in level
    && (forall d :: d in p.deps ==> d in level && level[d] < level[p.short])
    && (level[p.short] > 0 ==> exists d :: d in p.deps && d in level && level[d] == level[p.short] - 1)
  }

  ghost predicate IsLevel(entries: seq<Package>, level: Levels) {
    level.Keys == Shorts(entries) && forall p :: p in entries ==> AtLevel(p, level)
  }

  /** A dependency chain downwards from its first element. */
  ghost predicate IsChain(entries: seq<Package>, c: seq<Package>) {
    && (forall i :: 0 <= i < |c| ==> c[i] in entries)
    && forall i :: 0 <= i < |c| - 1 ==> c[i + 1].short in c[i].deps
  }

  lemma {:induction false} ChainFits(entries: seq<Package>, level: Levels, c: seq<Package>)
    requires IsLevel(entries, level) && IsChain(entries, c) && c != []
    ensures |c| - 1 <= level[c[0].short]
  {
    if |c| > 1 {
      assert c[0 + 1].short in c[0].deps && AtLevel(c[0], level);
      var rest := c[1..];
      forall i | 0 <= i < |rest| - 1 ensures rest[i + 1].short in rest[i].deps {
        assert rest[i] == c[i + 1] && rest[i + 1] == c[i + 1 + 1];
      }
      ChainFits(entries, level, rest);
    }
  }

  lemma {:induction false} LongestChain(entries: seq<Package>, level: Levels, p: Package) returns (c: seq<Package>)
    requires IsLevel(entries, level) && p in entries
    ensures IsChain(entries, c) && |c| == level[p.short] + 1 && c[0] == p
    decreases level[p.short]
  {
    assert AtLevel(p, level);
    if level[p.short] == 0 { return [p]; }
    var d :| d in p.deps && level[d] == level[p.short] - 1;
    var q :| q in entries && q.short == d;
    hide IsLevel, AtLevel;
    var rest := LongestChain(entries, level, q);
    ChainCons(entries, p, rest);
    c := [p] + rest;
  }

  lemma ChainCons(entries: seq<Package>, p: Package, rest: seq<Package>)
    requires p in entries && IsChain(entries, rest) && rest != [] && rest[0].short in p.deps
    ensures IsChain(entries, [p] + rest)
  {
    var c := [p] + rest;
    forall i | 0 <= i < |c| - 1 ensures c[i + 1].short in c[i].deps {
      if i > 0 { assert c[i] == rest[i - 1] && c[i + 1] == rest[i - 1 + 1]; }
    }
  }

  /** The level of a package is the number of steps in its longest dependency chain. */
  lemma LevelIsLongestChain(entries: seq<Package>, level: Levels, p: Package, n: nat)
    requires IsLevel(entries, level) && p in entries
    ensures level[p.short] == n <==>
      && (exists c :: IsChain(entries, c) && |c| == n + 1 && c[0] == p)
      && (forall c :: IsChain(entries, c) && c != [] && c[0] == p ==> |c| <= n + 1)
  {
    var longest := LongestChain(entries, level, p);
    forall c | IsChain(entries, c) && c != [] && c[0] == p ensures |c| <= level[p.short] + 1 {
      ChainFits(entries, level, c);
    }
  }

  lemma {:induction false} LevelsAgreeAt(entries: seq<Package>, a: Levels, b: Levels, p: Package)
    requires IsLevel(entries, a) && IsLevel(entries, b) && p in entries
    ensures a[p.short] == b[p.short]
  {
    var n := a[p.short];
    LevelIsLongestChain(entries, a, p, n);
    LevelIsLongestChain(entries, b, p, n);
  }

  // ----- the canonical order

  /** Lower layer first, then the caller's order of groups, group names and package names. */
  ghost predicate Before(a: Package, b: Package, level: Levels, groupOrder: seq<string>, collate: Collation)
    requires a.short in level && b.short in level
  {
    level[a.short] < level[b.short] || (level[a.short] == level[b.short] && Compare(a, b, groupOrder, collate) < 0)
  }

  /** `out` lists exactly the entries, in strictly increasing canonical order. */
  ghost predicate Canonical(entries: seq<Package>, out: seq<Package>, level: Levels, groupOrder: seq<string>,
                            collate: Collation) {
    && IsLevel(entries, level)
    && (forall p :: p in out <==> p in entries)
    && Increasing(out, level, groupOrder, collate)
  }

  ghost predicate Increasing(out: seq<Package>, level: Levels, groupOrder: seq<string>, collate: Collation) {
    && (forall p :: p in out ==> p.short in level)
    && forall i, j :: 0 <= i < j < |out| ==> Before(out[i], out[j], level, groupOrder, collate)
  }

  /** Layer by layer, and within each layer as the caller orders the groups. */
  ghost predicate LayersInGroupOrder(out: seq<Package>, level: Levels, groupOrder: seq<string>, collate: Collation) {
    && (forall p :: p in out ==> p.short in level)
    && forall i, j :: 0 <= i < j < |out| ==>
         level[out[i].short] < level[out[j].short]
         || (level[out[i].short] == level[out[j].short] && PrintedBefore(out[i], out[j], groupOrder, collate))
  }

  lemma {:induction false} CanonicalPrints(entries: seq<Package>, out: seq<Package>, level: Levels,
                                           groupOrder: seq<string>, collate: Collation)
    requires IsCollation(collate) && |groupOrder| <= MAX_SAFE_INTEGER
    requires Canonical(entries, out, level, groupOrder, collate)
    ensures LayersInGroupOrder(out, level, groupOrder, collate)
  {
    hide IsCollation, Compare, PrintedBefore, IsLevel;
    forall i, j | 0 <= i < j < |out|
      ensures level[out[i].short] < level[out[j].short]
        || (level[out[i].short] == level[out[j].short] && PrintedBefore(out[i], out[j], groupOrder, collate))
    {
      assert Before(out[i], out[j], level, groupOrder, collate);
      CompareMeans(out[i], out[j], groupOrder, collate);
    }
  }

  /** There is only one canonical listing, so the order of the manifests does not matter. */
  lemma CanonicalUnique(a: seq<Package>, b: seq<Package>, outA: seq<Package>, outB: seq<Package>,
                        levelA: Levels, levelB: Levels, groupOrder: seq<string>, collate: Collation)
    requires IsCollation(collate) && forall p :: p in a <==> p in b
    requires Canonical(a, outA, levelA, groupOrder, collate) && Canonical(b, outB, levelB, groupOrder, collate)
    ensures outA == outB
  {
    hide IsCollation, Increasing;
    assert Shorts(a) == Shorts(b) && IsLevel(a, levelB);
    LevelsAgree(a, levelA, levelB);
    hide IsLevel;
    IncreasingUnique(outA, outB, levelA, groupOrder, collate);
  }

  lemma LevelsAgree(entries: seq<Package>, a: Levels, b: Levels)
    requires IsLevel(entries, a) && IsLevel(entries, b)
    ensures a == b
  {
    forall x | x in a ensures a[x] == b[x] {
      var p :| p in entries && p.short == x;
      LevelsAgreeAt(entries, a, b, p);
    }
  }

  lemma {:induction false} IncreasingUnique(a: seq<Package>, b: seq<Package>, level: Levels, groupOrder: seq<string>,
                                            collate: Collation)
    requires IsCollation(collate) && Increasing(a, level, groupOrder, collate)
      && Increasing(b, level, groupOrder, collate)
    requires forall p :: p in a <==> p in b
    ensures a == b
  {
    CompareIsOrder(groupOrder, collate);
    if a == [] {
      if b != [] { HeadsAgree(b, a, level, groupOrder, collate); }
    } else {
      HeadsAgree(a, b, level, groupOrder, collate);
      TailsAgree(a, b, level, groupOrder, collate);
      IncreasingUnique(a[1..], b[1..], level, groupOrder, collate);
    }
  }

  lemma HeadsAgree(a: seq<Package>, b: seq<Package>, level: Levels, groupOrder: seq<string>, collate: Collation)
    requires IsCollation(collate) && Increasing(a, level, groupOrder, collate)
      && Increasing(b, level, groupOrder, collate)
    requires a != [] && forall p :: p in a <==> p in b
    ensures b != [] && a[0] == b[0]
  {
    CompareIsOrder(groupOrder, collate);
    assert a[0] in b;
    var i :| 0 <= i < |b| && b[i] == a[0];
    assert b[0] in a;
    var j :| 0 <= j < |a| && a[j] == b[0];
  }

  lemma TailsAgree(a: seq<Package>, b: seq<Package>, level: Levels, groupOrder: seq<string>, collate: Collation)
    requires IsCollation(collate) && Increasing(a, level, groupOrder, collate)
      && Increasing(b, level, groupOrder, collate)
    requires a != [] && b != [] && a[0] == b[0] && forall p :: p in a <==> p in b
    ensures Increasing(a[1..], level, groupOrder, collate) && Increasing(b[1..], level, groupOrder, collate)
    ensures forall p :: p in a[1..] <==> p in b[1..]
  {
    CompareIsOrder(groupOrder, collate);
    WithoutHead(a, level, groupOrder, collate);
    WithoutHead(b, level, groupOrder, collate);
  }

  lemma WithoutHead(a: seq<Package>, level: Levels, groupOrder: seq<string>, collate: Collation)
    requires IsCollation(collate) && Increasing(a, level, groupOrder, collate) && a != []
    ensures forall p :: p in a[1..] <==> p in a && p != a[0]
  {
    CompareIsOrder(groupOrder, collate);
    assert a == [a[0]] + a[1..];
    forall i | 0 < i < |a| ensures a[i] != a[0] {
      assert Before(a[0], a[i], level, groupOrder, collate);
    }
  }

  /** Every dependency is listed before the package that needs it. */
  lemma DependenciesFirst(entries: seq<Package>, out: seq<Package>, level: Levels, groupOrder: seq<string>,
                          collate: Collation, j: nat, d: string)
    requires Canonical(entries, out, level, groupOrder, collate) && IsCollation(collate) && j < |out|
      && d in out[j].deps
    ensures exists i :: 0 <= i < j && out[i].short == d
  {
    CompareIsOrder(groupOrder, collate);
    assert out[j] in entries && AtLevel(out[j], level);
    var q :| q in entries && q.short == d;
    assert q in out;
    var i :| 0 <= i < |out| && out[i] == q;
    assert !Before(out[j], out[i], level, groupOrder, collate) && i != j;
  }

  // ----- the sort

  function Ready(remaining: seq<Package>, placed: set<string>): (r: seq<Package>)
    ensures forall p :: p in r <==> p in remaining && forall d :: d in p.deps ==> d in placed
  {
    if remaining == [] then []
    else
      (if forall d | d in remaining[0].deps :: d in placed then [remaining[0]] else []) + Ready(remaining[1..], placed)
  }

  /** `remaining.delete(pkg.short)` */
  function Delete(remaining: seq<Package>, short: string): (r: seq<Package>)
    ensures forall p :: p in r <==> p in remaining && p.short != short
    ensures |r| <= |remaining| && (short in Shorts(remaining) ==> |r| < |remaining|)
  {
    if remaining == [] then []
    else
      assert remaining == [remaining[0]] + remaining[1..];
      (if remaining[0].short == short then [] else [remaining[0]]) + Delete(remaining[1..], short)
  }

  /** Layer by layer: what is placed has its level, what remains belongs at least one layer higher. */
  ghost predicate Layered(entries: seq<Package>, out: seq<Package>, remaining: seq<Package>, level: Levels, round: nat,
                          groupOrder: seq<string>, collate: Collation)
  {
    && (forall p :: p in entries <==> p in out || p in remaining)
    && level.Keys == Shorts(out)
    && (forall p :: p in remaining ==> p.short !in level)
    && (forall p :: p in out ==> AtLevel(p, level) && level[p.short] < round)
    && (forall p :: p in remaining ==> NotBelow(p, level, round))
    && Increasing(out, level, groupOrder, collate)
  }

  /** Some dependency of `p` is unplaced or was placed in the previous round. */
  ghost predicate NotBelow(p: Package, level: Levels, round: nat) {
    round > 0 ==> exists d :: d in p.deps && (d !in level || level[d] == round - 1)
  }

  ghost function AddLayer(level: Levels, ready: seq<Package>, round: nat): Levels {
    level + map x | x in Shorts(ready) :: round
  }

  lemma IncreasingConcat(a: seq<Package>, b: seq<Package>, level: Levels, groupOrder: seq<string>, collate: Collation)
    requires Increasing(a, level, groupOrder, collate) && Increasing(b, level, groupOrder, collate)
    requires forall p, q :: p in a && q in b ==> p.short in level && q.short in level && level[p.short] < level[q.short]
    ensures Increasing(a + b, level, groupOrder, collate)
  {
    var all := a + b;
    forall i, j | 0 <= i < j < |all| ensures Before(all[i], all[j], level, groupOrder, collate) {
      if i < |a| <= j {
        assert all[i] in a && all[j] in b;
      }
    }
  }

  lemma IncreasingReadsLevels(a: seq<Package>, level: Levels, level': Levels, groupOrder: seq<string>,
                              collate: Collation)
    requires Increasing(a, level, groupOrder, collate)
    requires forall p :: p in a ==> p.short in level' && level'[p.short] == level[p.short]
    ensures Increasing(a, level', groupOrder, collate)
  {
    forall i, j | 0 <= i < j < |a| ensures Before(a[i], a[j], level', groupOrder, collate) {
      assert a[i] in a && a[j] in a && Before(a[i], a[j], level, groupOrder, collate);
    }
  }

  lemma LayerIncreases(out: seq<Package>, level: Levels, round: nat, ready: seq<Package>, groupOrder: seq<string>,
                       collate: Collation)
    requires IsCollation(collate) && UniqueShorts(ready) && Sorted(ready, Comparing(groupOrder, collate))
    requires Increasing(out, level, groupOrder, collate)
    requires forall p :: p in out ==> p.short in level && level[p.short] < round
    requires forall p :: p in ready ==> p.short !in level
    ensures Increasing(out + ready, AddLayer(level, ready, round), groupOrder, collate)
  {
    var level' := AddLayer(level, ready, round);
    forall p | p in ready ensures p.short in level' && level'[p.short] == round {}
    forall p | p in out ensures p.short in level' && level'[p.short] == level[p.short] {}
    hide IsCollation, Sorted, UniqueShorts, AddLayer;
    IncreasingReadsLevels(out, level, level', groupOrder, collate);
    forall i, j | 0 <= i < j < |ready|
      ensures ready[i].short in level' && ready[j].short in level'
        && Before(ready[i], ready[j], level', groupOrder, collate)
    {
      assert ready[i] in ready && ready[j] in ready;
      ReadyBefore(ready, i, j, level', round, groupOrder, collate);
    }
    IncreasingConcat(out, ready, level', groupOrder, collate);
  }

  lemma ReadyBefore(ready: seq<Package>, i: nat, j: nat, level: Levels, round: nat, groupOrder: seq<string>,
                    collate: Collation)
    requires IsCollation(collate) && UniqueShorts(ready) && Sorted(ready, Comparing(groupOrder, collate))
      && i < j < |ready|
    requires forall p :: p in ready ==> p.short in level && level[p.short] == round
    ensures Before(ready[i], ready[j], level, groupOrder, collate)
  {
    CompareIsOrder(groupOrder, collate);
    assert ready[i] in ready && ready[j] in ready;
    assert Comparing(groupOrder, collate)(ready[i], ready[j]) <= 0;
    assert Compare(ready[i], ready[j], groupOrder, collate) != 0;
  }

  /** Adding a layer does not change the levels below it. */
  lemma PlacedKeeps(p: Package, level: Levels, ready: seq<Package>, round: nat)
    requires forall q :: q in ready ==> q.short !in level
    requires AtLevel(p, level)
    ensures AtLevel(p, AddLayer(level, ready, round))
    ensures AddLayer(level, ready, round)[p.short] == level[p.short]
  {
    var level' := AddLayer(level, ready, round);
    assert forall x :: x in level ==> x in level' && level'[x] == level[x];
  }

  lemma ReadyAtLevel(p: Package, level: Levels, ready: seq<Package>, round: nat)
    requires forall q :: q in ready ==> q.short !in level
    requires forall x :: x in level ==> level[x] < round
    requires p in ready && NotBelow(p, level, round) && forall d :: d in p.deps ==> d in level
    ensures AtLevel(p, AddLayer(level, ready, round)) && AddLayer(level, ready, round)[p.short] == round
  {
    var level' := AddLayer(level, ready, round);
    assert forall x :: x in level ==> x in level' && level'[x] == level[x];
  }

  lemma LeftNotBelow(p: Package, level: Levels, ready: seq<Package>, round: nat, d: string)
    requires d in p.deps && d !in level
    ensures NotBelow(p, AddLayer(level, ready, round), round + 1)
  {
    var level' := AddLayer(level, ready, round);
    assert d !in level' || level'[d] == round;
  }

  lemma LevelsBelowRound(out: seq<Package>, level: Levels, round: nat)
    requires level.Keys == Shorts(out) && forall p :: p in out ==> p.short in level && level[p.short] < round
    ensures forall x :: x in level ==> level[x] < round
  {
    forall x | x in level ensures level[x] < round {
      var p :| p in out && p.short == x;
    }
  }

  lemma LayerKeeps(entries: seq<Package>, out: seq<Package>, remaining: seq<Package>, level: Levels, round: nat,
                   ready: seq<Package>, left: seq<Package>, groupOrder: seq<string>, collate: Collation)
    requires IsCollation(collate) && Layered(entries, out, remaining, level, round, groupOrder, collate)
    requires Sorted(ready, Comparing(groupOrder, collate)) && UniqueShorts(ready)
    requires forall p :: p in ready <==> p in remaining && forall d :: d in p.deps ==> d in level
    requires forall p :: p in left <==> p in remaining && p !in ready
    requires forall p :: p in left ==> p.short !in Shorts(ready)
    ensures Layered(entries, out + ready, left, AddLayer(level, ready, round), round + 1, groupOrder, collate)
  {
    hide IsCollation, Sorted, UniqueShorts, Increasing, AtLevel, NotBelow;
    var level' := AddLayer(level, ready, round);
    LayerIncreases(out, level, round, ready, groupOrder, collate);
    LevelsBelowRound(out, level, round);
    forall p | p in out ensures AtLevel(p, level') && p.short in level' && level'[p.short] < round + 1 {
      PlacedKeeps(p, level, ready, round);
    }
    forall p | p in ready ensures AtLevel(p, level') && p.short in level' && level'[p.short] < round + 1 {
      ReadyAtLevel(p, level, ready, round);
    }
    forall p | p in left ensures NotBelow(p, level', round + 1) {
      var d :| d in p.deps && d !in level;
      LeftNotBelow(p, level, ready, round, d);
    }
    ShortsAppend(out, ready);
  }

  lemma ShortsAppend(a: seq<Package>, b: seq<Package>)
    ensures Shorts(a + b) == Shorts(a) + Shorts(b)
  {
    assert forall q :: q in a + b <==> q in a || q in b;
  }

  lemma {:induction false} StuckUnranked(entries: seq<Package>, out: seq<Package>, remaining: seq<Package>,
                                         level: Levels, round: nat,
                                         groupOrder: seq<string>, collate: Collation, rank: Levels, p: Package)
    requires Layered(entries, out, remaining, level, round, groupOrder, collate)
    requires forall q :: q in remaining ==> exists d :: d in q.deps && d !in level
    requires Ranks(entries, rank) && p in remaining
    ensures false
    decreases rank[p.short]
  {
    var d :| d in p.deps && d !in level;
    assert d in Shorts(entries);
    var q :| q in entries && q.short == d;
    StuckUnranked(entries, out, remaining, level, round, groupOrder, collate, rank, q);
  }

  /** When nothing is ready, no numbering can exist. */
  lemma StuckNotRankable(entries: seq<Package>, out: seq<Package>, remaining: seq<Package>, level: Levels, round: nat,
                         groupOrder: seq<string>, collate: Collation)
    requires Layered(entries, out, remaining, level, round, groupOrder, collate) && remaining != []
    requires forall q :: q in remaining ==> exists d :: d in q.deps && d !in level
    ensures !Rankable(entries)
  {
    if rank: Levels :| Ranks(entries, rank) {
      StuckUnranked(entries, out, remaining, level, round, groupOrder, collate, rank, remaining[0]);
    }
  }

  /** Package `x` needs one that is stuck too, or one that does not exist. */
  ghost predicate WaitsFor(entries: seq<Package>, stuck: seq<string>, x: string) {
    exists p, d :: p in entries && p.short == x && d in p.deps && (d in stuck || d !in Shorts(entries))
  }

  ghost predicate Waiting(entries: seq<Package>, stuck: seq<string>) {
    stuck != [] && forall x :: x in stuck ==> WaitsFor(entries, stuck, x)
  }

  /** The report names the waiting packages and leaves out every package that could be placed. */
  ghost predicate Stuck(entries: seq<Package>, stuck: seq<string>, level: Levels) {
    && Waiting(entries, stuck)
    && UniqueShorts(entries)
    && (forall x :: x in level <==> x in Shorts(entries) && x !in stuck)
    && (forall p :: p in entries && p.short in level ==> AtLevel(p, level))
  }

  /** Only one set of names fits, so the report does not depend on the order of the manifests either. */
  lemma StuckUnique(entries: seq<Package>, a: seq<string>, b: seq<string>, levelA: Levels, levelB: Levels)
    requires Stuck(entries, a, levelA) && Stuck(entries, b, levelB)
    ensures forall x :: x in a <==> x in b
  {
    hide Waiting, UniqueShorts, AtLevel;
    forall x ensures x in a <==> x in b {
      WaitingIsEntry(entries, a, x);
      WaitingIsEntry(entries, b, x);
      if x in a && x in levelB { WaitsForever(entries, a, levelA, b, levelB, x); }
      if x in b && x in levelA { WaitsForever(entries, b, levelB, a, levelA, x); }
    }
  }

  lemma WaitingIsEntry(entries: seq<Package>, stuck: seq<string>, x: string)
    requires Waiting(entries, stuck)
    ensures x in stuck ==> x in Shorts(entries)
  {}

  /** Whatever waits under one report is not placed under the other. */
  lemma {:induction false} WaitsForever(entries: seq<Package>, a: seq<string>, levelA: Levels, b: seq<string>,
                                        levelB: Levels, x: string)
    requires Stuck(entries, a, levelA) && Stuck(entries, b, levelB) && x in a && x in levelB
    ensures false
    decreases levelB[x]
  {
    assert WaitsFor(entries, a, x);
    var p, d :| p in entries && p.short == x && d in p.deps && (d in a || d !in Shorts(entries));
    assert AtLevel(p, levelB);
    WaitsForever(entries, a, levelA, b, levelB, d);
  }

  function ShortNames(packages: seq<Package>): (r: seq<string>)
    ensures |r| == |packages| && forall x :: x in r <==> x in Shorts(packages)
  {
    if packages == [] then []
    else
      assert packages == [packages[0]] + packages[1..];
      [packages[0].short] + ShortNames(packages[1..])
  }

  lemma StuckIsWaiting(entries: seq<Package>, out: seq<Package>, remaining: seq<Package>, level: Levels, round: nat,
                       groupOrder: seq<string>, collate: Collation)
    requires Layered(entries, out, remaining, level, round, groupOrder, collate) && remaining != []
    requires forall q :: q in remaining ==> exists d :: d in q.deps && d !in level
    requires UniqueShorts(entries)
    ensures !Rankable(entries) && Stuck(entries, ShortNames(remaining), level)
  {
    StuckLevels(entries, out, remaining, level, round, groupOrder, collate);
    StuckNotRankable(entries, out, remaining, level, round, groupOrder, collate);
    var stuck := ShortNames(remaining);
    forall x | x in stuck ensures WaitsFor(entries, stuck, x) {
      var p :| p in remaining && p.short == x;
      StuckWaits(entries, out, remaining, level, round, groupOrder, collate, p);
    }
  }

  lemma StuckLevels(entries: seq<Package>, out: seq<Package>, remaining: seq<Package>, level: Levels, round: nat,
                    groupOrder: seq<string>, collate: Collation)
    requires Layered(entries, out, remaining, level, round, groupOrder, collate)
    ensures forall x :: x in level <==> x in Shorts(entries) && x !in Shorts(remaining)
    ensures forall p :: p in entries && p.short in level ==> AtLevel(p, level)
  {
    hide AtLevel, NotBelow, Increasing;
  }

  lemma StuckWaits(entries: seq<Package>, out: seq<Package>, remaining: seq<Package>, level: Levels, round: nat,
                   groupOrder: seq<string>, collate: Collation, p: Package)
    requires Layered(entries, out, remaining, level, round, groupOrder, collate)
    requires p in remaining && exists d :: d in p.deps && d !in level
    ensures WaitsFor(entries, ShortNames(remaining), p.short)
  {
    var d :| d in p.deps && d !in level;
    if d in Shorts(entries) {
      var q :| q in entries && q.short == d;
      assert q !in out;
    }
    assert p in entries && d in p.deps && (d in ShortNames(remaining) || d !in Shorts(entries));
  }

  lemma {:induction false} ReadyUnique(remaining: seq<Package>, placed: set<string>)
    requires UniqueShorts(remaining)
    ensures UniqueShorts(Ready(remaining, placed))
  {
    if remaining != [] {
      ReadyUnique(remaining[1..], placed);
      var rest := Ready(remaining[1..], placed);
      forall i | 0 <= i < |rest| ensures rest[i].short != remaining[0].short {
        assert rest[i] in rest;
      }
    }
  }

  lemma ReadySorted(remaining: seq<Package>, placed: set<string>, groupOrder: seq<string>, collate: Collation)
    requires IsCollation(collate) && UniqueShorts(remaining)
    ensures var ready := Sort(Ready(remaining, placed), Comparing(groupOrder, collate));
            && Sorted(ready, Comparing(groupOrder, collate)) && UniqueShorts(ready)
            && forall p :: p in ready <==> p in remaining && forall d :: d in p.deps ==> d in placed
  {
    var cmp := Comparing(groupOrder, collate);
    CompareIsOrder(groupOrder, collate);
    SortSorts(Ready(remaining, placed), cmp);
    SortMembers(Ready(remaining, placed), cmp);
    ReadyUnique(remaining, placed);
    var differ := (a: Package, b: Package) => a.short != b.short;
    assert Pairwise(Ready(remaining, placed), differ);
    SortPairwise(Ready(remaining, placed), cmp, differ);
  }

  lemma {:induction false} DeleteUnique(remaining: seq<Package>, short: string)
    requires UniqueShorts(remaining)
    ensures UniqueShorts(Delete(remaining, short))
  {
    if remaining != [] {
      DeleteUnique(remaining[1..], short);
      var rest := Delete(remaining[1..], short);
      forall i | 0 <= i < |rest| ensures rest[i].short != remaining[0].short {
        assert rest[i] in rest;
      }
    }
  }

  lemma {:induction false} DeleteKeepsOrder(remaining: seq<Package>, short: string, packages: seq<Package>)
    requires InOrderOf(remaining, packages)
    ensures InOrderOf(Delete(remaining, short), packages)
  {
    hide NamedFirst;
    if remaining != [] {
      DeleteKeepsOrder(remaining[1..], short, packages);
      var rest := Delete(remaining[1..], short);
      forall j | 0 <= j < |rest| ensures NamedFirst(packages, remaining[0].short, rest[j].short) {
        assert rest[j] in rest;
        var k :| 0 <= k < |remaining[1..]| && remaining[1..][k] == rest[j];
        assert remaining[k + 1] == rest[j];
      }
    }
  }

  lemma NamesInOrder(remaining: seq<Package>, packages: seq<Package>)
    requires InOrderOf(remaining, packages)
    ensures ReportInOrder(ShortNames(remaining), packages)
  {
    hide NamedFirst;
    forall i | 0 <= i < |remaining| ensures ShortNames(remaining)[i] == remaining[i].short {
      ShortNamesAt(remaining, i);
    }
  }

  lemma {:induction false} ShortNamesAt(packages: seq<Package>, i: nat)
    requires i < |packages|
    ensures ShortNames(packages)[i] == packages[i].short
  {
    if i > 0 { ShortNamesAt(packages[1..], i - 1); }
  }

  /** The report keeps the order of the manifests, and so names nothing twice. */
  ghost predicate ReportInOrder(report: seq<string>, packages: seq<Package>) {
    forall i, j :: 0 <= i < j < |report| ==> NamedFirst(packages, report[i], report[j])
  }

  /** The inner loop: move a whole layer from `remaining` to `out`. */
  method PlaceAll(out: seq<Package>, placed: set<string>, remaining: seq<Package>, ready: seq<Package>,
                  ghost packages: seq<Package>)
    returns (out': seq<Package>, placed': set<string>, remaining': seq<Package>)
    requires UniqueShorts(remaining) && ready != [] && forall p :: p in ready ==> p in remaining
    requires InOrderOf(remaining, packages)
    ensures out' == out + ready && placed' == placed + Shorts(ready)
    ensures UniqueShorts(remaining') && InOrderOf(remaining', packages) && |remaining'| < |remaining|
    ensures forall p :: p in remaining' <==> p in remaining && p.short !in Shorts(ready)
  {
    hide InOrderOf;
    out', placed', remaining' := out, placed, remaining;
    for k := 0 to |ready|
      invariant out' == out + ready[..k] && placed' == placed + Shorts(ready[..k])
      invariant InOrderOf(remaining', packages)
      invariant UniqueShorts(remaining') && |remaining'| <= |remaining| && (k > 0 ==> |remaining'| < |remaining|)
      invariant forall p :: p in remaining' <==> p in remaining && p.short !in Shorts(ready[..k])
    {
      var p := ready[k];
      assert ready[..k + 1] == ready[..k] + [p];
      ShortsSnoc(ready[..k], p);
      DeleteUnique(remaining', p.short);
      DeleteKeepsOrder(remaining', p.short, packages);
      assert k == 0 ==> p.short in Shorts(remaining');
      out' := out' + [p];
      placed' := placed' + {p.short};
      remaining' := Delete(remaining', p.short);
    }
    assert ready[..|ready|] == ready;
  }

  lemma LeftAreNotReady(before: seq<Package>, ready: seq<Package>, left: seq<Package>)
    requires UniqueShorts(before) && forall p :: p in ready ==> p in before
    requires forall p :: p in left <==> p in before && p.short !in Shorts(ready)
    ensures forall p :: p in left <==> p in before && p !in ready
  {
    forall p | p in before && p.short in Shorts(ready) ensures p in ready {
      var q :| q in ready && q.short == p.short;
    }
  }

  lemma InitialLayer(entries: seq<Package>, groupOrder: seq<string>, collate: Collation)
    ensures Layered(entries, [], entries, map[], 0, groupOrder, collate)
  {}

  lemma EverythingPlaced(entries: seq<Package>, out: seq<Package>, level: Levels, round: nat, groupOrder: seq<string>,
                         collate: Collation)
    requires Layered(entries, out, [], level, round, groupOrder, collate)
    ensures Canonical(entries, out, level, groupOrder, collate) && Rankable(entries)
  {
    assert forall p :: p in out <==> p in entries;
    assert Shorts(out) == Shorts(entries);
    assert IsLevel(entries, level);
    assert Ranks(entries, level) by {
      forall p, d | p in entries && d in p.deps ensures d in Shorts(entries) && level[d] < level[p.short] {
        assert AtLevel(p, level);
      }
    }
  }

  /**
   * `topoSort`: succeeds exactly on closed, well-founded dependencies, with the one
   * canonical listing; otherwise it reports exactly the packages that can never be placed.
   */
  method TopoSort(packages: seq<Package>, groupOrder: seq<string>, collate: Collation)
    returns (r: Result<seq<Package>, seq<string>>, ghost level: Levels)
    requires IsCollation(collate)
    ensures r.Ok? <==> Rankable(Entries(packages))
    ensures r.Ok? ==> Canonical(Entries(packages), r.value, level, groupOrder, collate)
    ensures r.Ok? && |groupOrder| <= MAX_SAFE_INTEGER ==> LayersInGroupOrder(r.value, level, groupOrder, collate)
    ensures r.Err? ==> Stuck(Entries(packages), r.error, level) && ReportInOrder(r.error, packages)
  {
    hide IsCollation, Layered, UniqueShorts, InOrderOf, Canonical, Sorted;
    var remaining := Entries(packages);
    ghost var entries := remaining;
    InitialLayer(entries, groupOrder, collate);
    var placed: set<string> := {};
    var out: seq<Package> := [];
    level := map[];
    ghost var round: nat := 0;
    while remaining != []
      invariant UniqueShorts(remaining) && InOrderOf(remaining, packages) && placed == level.Keys
      invariant Layered(entries, out, remaining, level, round, groupOrder, collate)
      decreases |remaining|
    {
      var ready := Sort(Ready(remaining, placed), Comparing(groupOrder, collate));
      ReadySorted(remaining, placed, groupOrder, collate);
      if ready == [] {
        StuckIsWaiting(entries, out, remaining, level, round, groupOrder, collate);
        NamesInOrder(remaining, packages);
        return Err(ShortNames(remaining)), level;
      }
      ghost var before, outBefore := remaining, out;
      out, placed, remaining := PlaceAll(out, placed, remaining, ready, packages);
      LeftAreNotReady(before, ready, remaining);
      LayerKeeps(entries, outBefore, before, level, round, ready, remaining, groupOrder, collate);
      level, round := AddLayer(level, ready, round), round + 1;
    }
    EverythingPlaced(entries, out, level, round, groupOrder, collate);
    if |groupOrder| <= MAX_SAFE_INTEGER { CanonicalPrints(entries, out, level, groupOrder, collate); }
    return Ok(out), level;
  }
}
