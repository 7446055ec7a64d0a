/**
 * Merging lists of named items: through a map by name, with a combination of the two items of a common name, and
 * sorted by name at the end.  The result is a function of the two maps, so its laws are laws of maps.
 */
module NamedMerge {
  import opened Names

  // ---------------------------------------------------------------- lists sorted by name

  ghost predicate StrictlySorted<T>(xs: seq<T>, name: T -> string) {
    forall i, j :: 0 <= i < j < |xs| ==> Less(name(xs[i]), name(xs[j]))
  }

  // ---------------------------------------------------------------- lists as maps

  /** The items by name: the last item of a name counts. */
  function ByName<T>(xs: seq<T>, name: T -> string): map<string, T> {
    if xs == [] then map[] else ByName(xs[..|xs| - 1], name)[name(xs[|xs| - 1]) := xs[|xs| - 1]]
  }

  function MergedMap<T>(a: map<string, T>, b: map<string, T>, combine: (T, T) -> T): map<string, T> {
    map k | k in a.Keys + b.Keys ::
      if k in a && k in b then combine(a[k], b[k]) else if k in b then b[k] else a[k]
  }

  /** A merge of two lists: strictly sorted by name, with the merged maps as contents. */
  ghost predicate IsMerge<T>(r: seq<T>, original: seq<T>, override: seq<T>, name: T -> string, combine: (T, T) -> T) {
    StrictlySorted(r, name) && ByName(r, name) == MergedMap(ByName(original, name), ByName(override, name), combine)
  }

  /** Combining two items of one name gives an item of that name. */
  ghost predicate KeepsName<T(!new)>(name: T -> string, combine: (T, T) -> T) {
    forall x, y :: name(x) == name(y) ==> name(combine(x, y)) == name(x)
  }

  lemma {:induction false} ByNameIsNamed<T>(xs: seq<T>, name: T -> string, k: string)
    ensures k in ByName(xs, name) ==> name(ByName(xs, name)[k]) == k && ByName(xs, name)[k] in xs
    ensures k in ByName(xs, name) <==> exists i :: 0 <= i < |xs| && name(xs[i]) == k
  {
    if xs != [] {
      var front := xs[..|xs| - 1];
      ByNameIsNamed(front, name, k);
      assert forall i :: 0 <= i < |front| ==> front[i] == xs[i];
      assert xs[|xs| - 1] in xs;
    }
  }

  /** In a strictly sorted list every item counts. */
  lemma {:induction false} SortedByName<T>(xs: seq<T>, name: T -> string, i: nat)
    requires StrictlySorted(xs, name) && i < |xs|
    ensures name(xs[i]) in ByName(xs, name) && ByName(xs, name)[name(xs[i])] == xs[i]
  {
    if i < |xs| - 1 {
      SortedByName(xs[..|xs| - 1], name, i);
      LessIsStrictOrder(name(xs[i]), name(xs[i]), "");
      assert Less(name(xs[i]), name(xs[|xs| - 1]));
    }
  }

  /** Strictly sorted lists with the same contents are equal. */
  lemma {:induction false} SortedIsUnique<T>(xs: seq<T>, ys: seq<T>, name: T -> string)
    requires StrictlySorted(xs, name) && StrictlySorted(ys, name) && ByName(xs, name) == ByName(ys, name)
    ensures xs == ys
  {
    if xs == [] || ys == [] {
      if xs != [] {
        SortedByName(xs, name, 0);
      }
      if ys != [] {
        SortedByName(ys, name, 0);
      }
    } else {
      LastIsGreatest(xs, ys, name);
      LastIsGreatest(ys, xs, name);
      var n := name(xs[|xs| - 1]);
      LessIsStrictOrder(n, name(ys[|ys| - 1]), n);
      SortedByName(xs, name, |xs| - 1);
      SortedByName(ys, name, |ys| - 1);
      WithoutLast(xs, name);
      WithoutLast(ys, name);
      SortedIsUnique(xs[..|xs| - 1], ys[..|ys| - 1], name);
      assert xs == xs[..|xs| - 1] + [xs[|xs| - 1]];
      assert ys == ys[..|ys| - 1] + [ys[|ys| - 1]];
    }
  }

  /** No name of the one list is beyond the last name of the other. */
  lemma LastIsGreatest<T>(xs: seq<T>, ys: seq<T>, name: T -> string)
    requires StrictlySorted(xs, name) && StrictlySorted(ys, name) && ByName(xs, name) == ByName(ys, name)
    requires xs != [] && ys != []
    ensures !Less(name(xs[|xs| - 1]), name(ys[|ys| - 1]))
  {
    var n, m := name(ys[|ys| - 1]), name(xs[|xs| - 1]);
    SortedByName(ys, name, |ys| - 1);
    ByNameIsNamed(xs, name, n);
    var i :| 0 <= i < |xs| && name(xs[i]) == n;
    LessIsStrictOrder(n, m, n);
    assert i < |xs| - 1 ==> Less(name(xs[i]), m);
  }

  lemma LastIsNew<T>(xs: seq<T>, name: T -> string)
    requires StrictlySorted(xs, name) && xs != []
    ensures name(xs[|xs| - 1]) !in ByName(xs[..|xs| - 1], name)
  {
    var n, front := name(xs[|xs| - 1]), xs[..|xs| - 1];
    ByNameIsNamed(front, name, n);
    LessIsStrictOrder(n, n, n);
    forall i | 0 <= i < |front|
      ensures name(front[i]) != n
    {
      assert Less(name(xs[i]), n);
    }
  }

  lemma RemoveAdded<T>(m: map<string, T>, k: string, x: T)
    requires k !in m
    ensures m[k := x] - {k} == m
  {
  }

  /** Taking the last item off a strictly sorted list takes its name off the map. */
  lemma WithoutLast<T>(xs: seq<T>, name: T -> string)
    requires StrictlySorted(xs, name) && xs != []
    ensures ByName(xs[..|xs| - 1], name) == ByName(xs, name) - {name(xs[|xs| - 1])}
  {
    LastIsNew(xs, name);
    RemoveAdded(ByName(xs[..|xs| - 1], name), name(xs[|xs| - 1]), xs[|xs| - 1]);
  }

  // ---------------------------------------------------------------- laws

  /** The names of a merge are the names of both lists together. */
  lemma NamesAreUnion<T>(r: seq<T>, original: seq<T>, override: seq<T>, name: T -> string, combine: (T, T) -> T,
                         n: string)
    requires IsMerge(r, original, override, name, combine)
    ensures (exists i :: 0 <= i < |r| && name(r[i]) == n)
       <==> (exists i :: 0 <= i < |original| && name(original[i]) == n)
            || (exists i :: 0 <= i < |override| && name(override[i]) == n)
  {
    ByNameIsNamed(r, name, n);
    ByNameIsNamed(original, name, n);
    ByNameIsNamed(override, name, n);
  }

  predicate AssociativeOn<T(==)>(combine: (T, T) -> T, x: T, y: T, z: T) {
    combine(combine(x, y), z) == combine(x, combine(y, z))
  }

  ghost predicate Associative<T(!new)>(combine: (T, T) -> T) {
    forall x, y, z :: AssociativeOn(combine, x, y, z)
  }

  lemma MapsAreAssociativeAt<T>(a: map<string, T>, b: map<string, T>, c: map<string, T>, combine: (T, T) -> T,
                                k: string)
    requires k in a && k in b && k in c ==> AssociativeOn(combine, a[k], b[k], c[k])
    ensures var left, right := MergedMap(MergedMap(a, b, combine), c, combine), MergedMap(a, MergedMap(b, c, combine), combine);
            (k in left <==> k in right) && (k in left ==> left[k] == right[k])
  {
  }

  lemma MapsAreAssociative<T(!new)>(a: map<string, T>, b: map<string, T>, c: map<string, T>, combine: (T, T) -> T)
    requires Associative(combine)
    ensures MergedMap(MergedMap(a, b, combine), c, combine) == MergedMap(a, MergedMap(b, c, combine), combine)
  {
    var left, right := MergedMap(MergedMap(a, b, combine), c, combine), MergedMap(a, MergedMap(b, c, combine), combine);
    forall k: string
      ensures (k in left <==> k in right) && (k in left ==> left[k] == right[k])
    {
      MapsAreAssociativeAt(a, b, c, combine, k);
    }
  }

  /** Merging is associative when combining two items is, whatever names the lists share or repeat. */
  lemma MergeIsAssociative<T(!new)>(a: seq<T>, b: seq<T>, c: seq<T>, ab: seq<T>, bc: seq<T>, left: seq<T>,
                                    right: seq<T>, name: T -> string, combine: (T, T) -> T)
    requires Associative(combine)
    requires IsMerge(ab, a, b, name, combine) && IsMerge(left, ab, c, name, combine)
    requires IsMerge(bc, b, c, name, combine) && IsMerge(right, a, bc, name, combine)
    ensures left == right
  {
    MapsAreAssociative(ByName(a, name), ByName(b, name), ByName(c, name), combine);
    SortedIsUnique(left, right, name);
  }

  predicate AbsorbsOn<T(==)>(combine: (T, T) -> T, x: T, y: T) {
    combine(combine(x, y), y) == combine(x, y)
  }

  ghost predicate AbsorbsRepetition<T(!new)>(combine: (T, T) -> T) {
    forall x, y :: AbsorbsOn(combine, x, y)
  }

  /** Of a map of overrides, every item that the originals do not have is unchanged when combined with itself. */
  predicate NewOnesAreStable<T(==)>(a: map<string, T>, b: map<string, T>, combine: (T, T) -> T) {
    forall k :: k in b && k !in a ==> combine(b[k], b[k]) == b[k]
  }

  lemma MapsAreIdempotentExactly<T(!new)>(a: map<string, T>, b: map<string, T>, combine: (T, T) -> T)
    requires AbsorbsRepetition(combine)
    ensures MergedMap(MergedMap(a, b, combine), b, combine) == MergedMap(a, b, combine) <==> NewOnesAreStable(a, b, combine)
  {
    var once := MergedMap(a, b, combine);
    var twice := MergedMap(once, b, combine);
    assert twice.Keys == once.Keys;
    forall k | k in once
      ensures twice[k] == if k in b && k !in a then combine(b[k], b[k]) else once[k]
    {
      if k in a && k in b {
        assert AbsorbsOn(combine, a[k], b[k]);
      }
    }
    if twice == once {
      forall k | k in b && k !in a
        ensures combine(b[k], b[k]) == b[k]
      {
        assert k in once && twice[k] == once[k] == b[k];
      }
    }
  }

  /** Merging the same override again changes nothing exactly when no item that only the override has changes itself. */
  lemma MergeIsIdempotentExactly<T(!new)>(original: seq<T>, override: seq<T>, once: seq<T>, twice: seq<T>,
                                          name: T -> string, combine: (T, T) -> T)
    requires AbsorbsRepetition(combine)
    requires IsMerge(once, original, override, name, combine) && IsMerge(twice, once, override, name, combine)
    ensures twice == once <==> NewOnesAreStable(ByName(original, name), ByName(override, name), combine)
  {
    MapsAreIdempotentExactly(ByName(original, name), ByName(override, name), combine);
    if ByName(twice, name) == ByName(once, name) {
      SortedIsUnique(twice, once, name);
    }
  }

  // ---------------------------------------------------------------- the imperative merge

  /** The items of a map, each under its own name, in any order. */
  ghost predicate HoldsItems<T>(xs: seq<T>, m: map<string, T>, name: T -> string) {
    && (forall x :: x in xs ==> name(x) in m && m[name(x)] == x)
    && (forall k :: k in m ==> m[k] in xs && name(m[k]) == k)
  }

  /** No name occurs twice. */
  ghost predicate DistinctNames<T>(xs: seq<T>, name: T -> string) {
    forall i, j :: 0 <= i < j < |xs| ==> name(xs[i]) != name(xs[j])
  }

  lemma ItemsByName<T>(xs: seq<T>, m: map<string, T>, name: T -> string)
    requires HoldsItems(xs, m, name)
    ensures ByName(xs, name) == m
  {
    forall k: string
      ensures k in ByName(xs, name) <==> k in m
      ensures k in m ==> k in ByName(xs, name) && ByName(xs, name)[k] == m[k]
    {
      ByNameIsNamed(xs, name, k);
    }
  }

  lemma AppendItem<T>(xs: seq<T>, m: map<string, T>, x: T, name: T -> string)
    requires HoldsItems(xs, m, name) && DistinctNames(xs, name) && name(x) !in m
    ensures HoldsItems(xs + [x], m[name(x) := x], name) && DistinctNames(xs + [x], name)
  {
    var r := xs + [x];
    assert r[|xs|] == x;
    forall y
      ensures y in r <==> y in xs || y == x
    {
    }
  }

  method CreateMap<T>(xs: seq<T>, name: T -> string) returns (m: map<string, T>)
    ensures m == ByName(xs, name)
  {
    m := map[];
    for i := 0 to |xs|
      invariant m == ByName(xs[..i], name)
    {
      m := m[name(xs[i]) := xs[i]];
      assert xs[..i + 1][..i] == xs[..i];
    }
    assert xs[..|xs|] == xs;
  }

  /** The items in the order in which Go happens to visit the map. */
  method Items<T>(m: map<string, T>, name: T -> string) returns (xs: seq<T>)
    requires forall k :: k in m ==> name(m[k]) == k
    ensures HoldsItems(xs, m, name) && DistinctNames(xs, name)
  {
    xs := [];
    var unvisited := m.Keys;
    while unvisited != {}
      invariant unvisited <= m.Keys
      invariant HoldsItems(xs, m - unvisited, name) && DistinctNames(xs, name)
    {
      var k :| k in unvisited;
      AppendItem(xs, m - unvisited, m[k], name);
      assert m - (unvisited - {k}) == (m - unvisited)[k := m[k]];
      xs := xs + [m[k]];
      unvisited := unvisited - {k};
    }
    assert m - {} == m;
  }

  lemma PlacedIsSorted<T>(xs: seq<T>, x: T, k: nat, name: T -> string)
    requires StrictlySorted(xs, name) && k <= |xs|
    requires forall j :: k <= j < |xs| ==> Less(name(x), name(xs[j]))
    requires k > 0 ==> Less(name(xs[k - 1]), name(x))
    ensures StrictlySorted(xs[..k] + [x] + xs[k..], name)
  {
    forall j | 0 <= j < k
      ensures Less(name(xs[j]), name(x))
    {
      LessIsStrictOrder(name(xs[j]), name(xs[k - 1]), name(x));
    }
  }

  /** Puts an item of a new name in its place. */
  method Place<T>(xs: seq<T>, x: T, name: T -> string) returns (r: seq<T>)
    requires StrictlySorted(xs, name) && forall y :: y in xs ==> name(y) != name(x)
    ensures StrictlySorted(r, name)
    ensures forall y :: y in r <==> y in xs || y == x
  {
    var k := |xs|;
    while k > 0 && Less(name(x), name(xs[k - 1]))
      invariant 0 <= k <= |xs|
      invariant forall j :: k <= j < |xs| ==> Less(name(x), name(xs[j]))
    {
      k := k - 1;
    }
    r := xs[..k] + [x] + xs[k..];
    assert xs == xs[..k] + xs[k..];
    if k > 0 {
      LessIsStrictOrder(name(xs[k - 1]), name(x), "");
    }
    PlacedIsSorted(xs, x, k, name);
  }

  /** Sorts items of distinct names. */
  method SortByName<T>(xs: seq<T>, name: T -> string) returns (r: seq<T>)
    requires DistinctNames(xs, name)
    ensures StrictlySorted(r, name) && forall y :: y in r <==> y in xs
  {
    r := [];
    for i := 0 to |xs|
      invariant StrictlySorted(r, name) && forall y :: y in r <==> y in xs[..i]
    {
      assert xs[..i + 1] == xs[..i] + [xs[i]];
      r := Place(r, xs[i], name);
    }
    assert xs[..|xs|] == xs;
  }

  method MergeMaps<T>(originalMap: map<string, T>, overrideMap: map<string, T>, combine: (T, T) -> T)
    returns (merged: map<string, T>)
    ensures merged == MergedMap(originalMap, overrideMap, combine)
  {
    merged := originalMap;
    var unvisited := overrideMap.Keys;
    while unvisited != {}
      invariant unvisited <= overrideMap.Keys
      invariant merged == MergedMap(originalMap, overrideMap - unvisited, combine)
    {
      var k :| k in unvisited;
      if k in originalMap {
        merged := merged[k := combine(originalMap[k], overrideMap[k])];
      } else {
        merged := merged[k := overrideMap[k]];
      }
      unvisited := unvisited - {k};
    }
    assert overrideMap - {} == overrideMap;
  }

  /** The merge through a map that collects the result by name. */
  method MergeThroughMap<T(!new)>(original: seq<T>, override: seq<T>, name: T -> string, combine: (T, T) -> T)
    returns (r: seq<T>)
    requires KeepsName(name, combine)
    ensures IsMerge(r, original, override, name, combine)
  {
    var originalMap := CreateMap(original, name);
    var overrideMap := CreateMap(override, name);
    var merged := MergeMaps(originalMap, overrideMap, combine);
    MergedIsNamed(original, override, name, combine);
    var items := Items(merged, name);
    r := SortByName(items, name);
    ItemsByName(r, merged, name);
  }

  lemma MergedIsNamed<T(!new)>(original: seq<T>, override: seq<T>, name: T -> string, combine: (T, T) -> T)
    requires KeepsName(name, combine)
    ensures var m := MergedMap(ByName(original, name), ByName(override, name), combine);
            forall k :: k in m ==> name(m[k]) == k
  {
    forall k: string
      ensures k in ByName(original, name) ==> name(ByName(original, name)[k]) == k
      ensures k in ByName(override, name) ==> name(ByName(override, name)[k]) == k
    {
      ByNameIsNamed(original, name, k);
      ByNameIsNamed(override, name, k);
    }
  }

  ghost function Restricted<T>(m: map<string, T>, keys: set<string>): map<string, T> {
    map k | k in m && k in keys :: m[k]
  }

  /** Appending the next item while the list holds those of the keys seen so far. */
  lemma AppendNext<T>(xs: seq<T>, m: map<string, T>, keys: set<string>, k: string, name: T -> string)
    requires k in m && k !in keys && name(m[k]) == k
    requires HoldsItems(xs, Restricted(m, keys), name) && DistinctNames(xs, name)
    ensures HoldsItems(xs + [m[k]], Restricted(m, keys + {k}), name) && DistinctNames(xs + [m[k]], name)
  {
    AppendItem(xs, Restricted(m, keys), m[k], name);
    assert Restricted(m, keys + {k}) == Restricted(m, keys)[k := m[k]];
  }

  /** The first loop: every original item, combined with its override if there is one. */
  method MergeOriginals<T>(originalMap: map<string, T>, overrideMap: map<string, T>, name: T -> string,
                           combine: (T, T) -> T)
    returns (merged: seq<T>)
    requires forall k :: k in MergedMap(originalMap, overrideMap, combine) ==>
               name(MergedMap(originalMap, overrideMap, combine)[k]) == k
    ensures HoldsItems(merged, Restricted(MergedMap(originalMap, overrideMap, combine), originalMap.Keys), name)
    ensures DistinctNames(merged, name)
  {
    ghost var all := MergedMap(originalMap, overrideMap, combine);
    merged := [];
    var unvisited := originalMap.Keys;
    while unvisited != {}
      invariant unvisited <= originalMap.Keys
      invariant HoldsItems(merged, Restricted(all, originalMap.Keys - unvisited), name) && DistinctNames(merged, name)
    {
      var k :| k in unvisited;
      AppendNext(merged, all, originalMap.Keys - unvisited, k, name);
      if k in overrideMap {
        merged := merged + [combine(originalMap[k], overrideMap[k])];
      } else {
        merged := merged + [originalMap[k]];
      }
      assert originalMap.Keys - (unvisited - {k}) == originalMap.Keys - unvisited + {k};
      unvisited := unvisited - {k};
    }
    assert originalMap.Keys - {} == originalMap.Keys;
  }

  /** The second loop: the items that only the override has. */
  method AppendOverrides<T>(items: seq<T>, originalKeys: set<string>, overrideMap: map<string, T>, name: T -> string,
                            ghost all: map<string, T>)
    returns (merged: seq<T>)
    requires all.Keys == originalKeys + overrideMap.Keys && forall k :: k in all ==> name(all[k]) == k
    requires forall k :: k in overrideMap && k !in originalKeys ==> all[k] == overrideMap[k]
    requires HoldsItems(items, Restricted(all, originalKeys), name) && DistinctNames(items, name)
    ensures HoldsItems(merged, all, name) && DistinctNames(merged, name)
  {
    merged := items;
    var unvisited := overrideMap.Keys;
    ghost var seen := originalKeys;
    while unvisited != {}
      invariant unvisited <= overrideMap.Keys && seen == all.Keys - (unvisited - originalKeys)
      invariant HoldsItems(merged, Restricted(all, seen), name) && DistinctNames(merged, name)
    {
      var k :| k in unvisited;
      if k !in originalKeys {
        AppendNext(merged, all, seen, k, name);
        merged := merged + [overrideMap[k]];
        seen := seen + {k};
      }
      unvisited := unvisited - {k};
    }
    assert Restricted(all, seen) == all;
  }

  /** The merge that appends to a list while it visits both maps. */
  method MergeByLookup<T(!new)>(original: seq<T>, override: seq<T>, name: T -> string, combine: (T, T) -> T)
    returns (r: seq<T>)
    requires KeepsName(name, combine)
    ensures IsMerge(r, original, override, name, combine)
  {
    var originalMap := CreateMap(original, name);
    var overrideMap := CreateMap(override, name);
    MergedIsNamed(original, override, name, combine);
    ghost var all := MergedMap(originalMap, overrideMap, combine);
    var merged := MergeOriginals(originalMap, overrideMap, name, combine);
    merged := AppendOverrides(merged, originalMap.Keys, overrideMap, name, all);
    r := SortByName(merged, name);
    ItemsByName(r, all, name);
  }

  // ---------------------------------------------------------------- the items of a merge

  /** The last item of a name. */
  predicate LastNamed<T>(xs: seq<T>, k: nat, name: T -> string, n: string) {
    k < |xs| && name(xs[k]) == n && forall j :: k < j < |xs| ==> name(xs[j]) != n
  }

  predicate NobodyNamed<T>(xs: seq<T>, name: T -> string, n: string) {
    forall j :: 0 <= j < |xs| ==> name(xs[j]) != n
  }

  lemma {:induction false} LastCounts<T>(xs: seq<T>, k: nat, name: T -> string, n: string)
    requires LastNamed(xs, k, name, n)
    ensures n in ByName(xs, name) && ByName(xs, name)[n] == xs[k]
  {
    if k < |xs| - 1 {
      LastCounts(xs[..|xs| - 1], k, name, n);
    }
  }

  /** A name that both lists have has the combination of the last item of each, another one the last item it has. */
  lemma MergedItemExactly<T>(r: seq<T>, original: seq<T>, override: seq<T>, name: T -> string, combine: (T, T) -> T,
                             i: nat)
    requires IsMerge(r, original, override, name, combine) && i < |r|
    ensures var n := name(r[i]);
            && (forall a: nat, b: nat :: LastNamed(original, a, name, n) && LastNamed(override, b, name, n) ==>
                                           r[i] == combine(original[a], override[b]))
            && (forall a: nat :: LastNamed(original, a, name, n) && NobodyNamed(override, name, n) ==> r[i] == original[a])
            && (forall b: nat :: LastNamed(override, b, name, n) && NobodyNamed(original, name, n) ==> r[i] == override[b])
  {
    var n := name(r[i]);
    SortedByName(r, name, i);
    ByNameIsNamed(original, name, n);
    ByNameIsNamed(override, name, n);
    forall a: nat | LastNamed(original, a, name, n)
      ensures n in ByName(original, name) && ByName(original, name)[n] == original[a]
    {
      LastCounts(original, a, name, n);
    }
    forall b: nat | LastNamed(override, b, name, n)
      ensures n in ByName(override, name) && ByName(override, name)[n] == override[b]
    {
      LastCounts(override, b, name, n);
    }
  }
}
