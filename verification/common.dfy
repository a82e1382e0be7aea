/**
 * The general-purpose array, object, string and number helpers of the
 * dashboard. Objects whose key order does not matter are maps; `groupBy`'s
 * result is a list of (key, group) pairs in the order the keys first appear.
 */
module Common {
  import opened JsText
  import Seqs

  /** Position of the first occurrence of `x` in `xs`. */
  function FirstIndex<T(==)>(xs: seq<T>, x: T): (i: nat)
    requires x in xs
    ensures i < |xs| && xs[i] == x && x !in xs[..i]
  {
    if xs[0] == x then 0 else
      var j := FirstIndex(xs[1..], x);
      assert xs[..j + 1] == [xs[0]] + xs[1..][..j];
      j + 1
  }

  lemma FirstIndexOfPrefix<T>(xs: seq<T>, y: T, x: T)
    requires x in xs
    ensures FirstIndex(xs + [y], x) == FirstIndex(xs, x)
  {
    var i := FirstIndex(xs, x);
    assert (xs + [y])[i] == x;
    assert (xs + [y])[..i] == xs[..i];
  }

  /** `[...new Set(array)]`: the distinct elements in the order they first appear. */
  function Unique<T(==)>(xs: seq<T>): (r: seq<T>)
    ensures forall i, j :: 0 <= i < j < |r| ==> r[i] != r[j]
    ensures forall i :: 0 <= i < |r| ==> r[i] in xs
    ensures forall i :: 0 <= i < |xs| ==> xs[i] in r
    ensures forall i, j :: 0 <= i < j < |r| ==> FirstIndex(xs, r[i]) < FirstIndex(xs, r[j])
  {
    if xs == [] then []
    else
      var init := xs[..|xs| - 1];
      var last := xs[|xs| - 1];
      assert xs == init + [last];
      UniqueStep(init, last, Unique(init));
      if last in Unique(init) then Unique(init) else Unique(init) + [last]
  }

  /** `r` lists the distinct elements of `xs`, each once, in order of first appearance. */
  predicate IsUniqueOf<T(==)>(xs: seq<T>, r: seq<T>)
  {
    (forall i, j :: 0 <= i < j < |r| ==> r[i] != r[j]) &&
    (forall i :: 0 <= i < |r| ==> r[i] in xs) &&
    (forall i :: 0 <= i < |xs| ==> xs[i] in r) &&
    (forall i, j :: 0 <= i < j < |r| ==> FirstIndex(xs, r[i]) < FirstIndex(xs, r[j]))
  }

  lemma UniqueStep<T>(init: seq<T>, last: T, u: seq<T>)
    requires IsUniqueOf(init, u)
    ensures IsUniqueOf(init + [last], if last in u then u else u + [last])
  {
    if last in u {
      UniqueSeen(init, last, u);
    } else {
      UniqueNew(init, last, u);
    }
  }

  lemma UniqueSeen<T>(init: seq<T>, last: T, u: seq<T>)
    requires IsUniqueOf(init, u) && last in u
    ensures IsUniqueOf(init + [last], u)
  {
    var xs := init + [last];
    forall i | 0 <= i < |u|
      ensures u[i] in xs && FirstIndex(xs, u[i]) == FirstIndex(init, u[i])
    {
      FirstIndexOfPrefix(init, last, u[i]);
    }
    forall i | 0 <= i < |xs|
      ensures xs[i] in u
    {
      if i < |init| {
        assert xs[i] == init[i];
      }
    }
  }

  lemma UniqueNew<T>(init: seq<T>, last: T, u: seq<T>)
    requires IsUniqueOf(init, u) && last !in u
    ensures IsUniqueOf(init + [last], u + [last])
  {
    var xs := init + [last];
    var r := u + [last];
    assert last !in init;
    assert FirstIndex(xs, last) == |init|;
    forall i | 0 <= i < |u|
      ensures r[i] == u[i] && u[i] in xs && FirstIndex(xs, u[i]) == FirstIndex(init, u[i]) < |init|
    {
      FirstIndexOfPrefix(init, last, u[i]);
    }
    forall i | 0 <= i < |xs|
      ensures xs[i] in r
    {
      if i < |init| {
        assert xs[i] == init[i];
      }
    }
    forall i, j | 0 <= i < j < |r|
      ensures r[i] != r[j] && FirstIndex(xs, r[i]) < FirstIndex(xs, r[j])
    {
      if j == |u| {
        assert r[j] == last;
      }
    }
  }

  function KeyIs<T, K(==)>(keyFn: T -> K, k: K): T -> bool
  {
    (x: T) => keyFn(x) == k
  }

  function Keys<K, V>(groups: seq<(K, V)>): seq<K>
  {
    seq(|groups|, i requires 0 <= i < |groups| => groups[i].0)
  }

  function MapKeys<T, K>(xs: seq<T>, keyFn: T -> K): seq<K>
  {
    seq(|xs|, i requires 0 <= i < |xs| => keyFn(xs[i]))
  }

  predicate DistinctKeys<K(==), V>(groups: seq<(K, V)>)
  {
    forall i, j :: 0 <= i < j < |groups| ==> groups[i].0 != groups[j].0
  }

  /** Position of the group with key `k`. */
  function KeyIndex<K(==), V>(groups: seq<(K, V)>, k: K): (i: nat)
    requires k in Keys(groups)
    ensures i < |groups| && groups[i].0 == k
  {
    if groups[0].0 == k then 0
    else
      assert Keys(groups) == [groups[0].0] + Keys(groups[1..]);
      KeyIndex(groups[1..], k) + 1
  }

  /** One step of `groupBy`'s reduce: push `x` onto the group of `k`, creating it at the end if new. */
  function GroupInto<T, K(==)>(acc: seq<(K, seq<T>)>, k: K, x: T): (r: seq<(K, seq<T>)>)
    requires DistinctKeys(acc)
    ensures DistinctKeys(r)
  {
    if k in Keys(acc) then
      var i := KeyIndex(acc, k);
      acc[i := (k, acc[i].1 + [x])]
    else
      assert forall i :: 0 <= i < |acc| ==> acc[i].0 == Keys(acc)[i];
      acc + [(k, [x])]
  }

  /** Total number of items over all groups. */
  function GroupSizes<K, T>(groups: seq<(K, seq<T>)>): nat
  {
    if groups == [] then 0 else |groups[0].1| + GroupSizes(groups[1..])
  }

  lemma {:induction false} GroupSizesUpdate<K, T>(groups: seq<(K, seq<T>)>, i: nat, k: K, g: seq<T>)
    requires i < |groups|
    ensures GroupSizes(groups[i := (k, g)]) == GroupSizes(groups) - |groups[i].1| + |g|
  {
    if i > 0 {
      GroupSizesUpdate(groups[1..], i - 1, k, g);
      assert groups[i := (k, g)][1..] == groups[1..][i - 1 := (k, g)];
    }
  }

  lemma {:induction false} GroupSizesAppend<K, T>(groups: seq<(K, seq<T>)>, last: (K, seq<T>))
    ensures GroupSizes(groups + [last]) == GroupSizes(groups) + |last.1|
  {
    if groups != [] {
      GroupSizesAppend(groups[1..], last);
      assert (groups + [last])[1..] == groups[1..] + [last];
    }
  }

  /**
   * `groupBy(array, keyFn)`: the reduce over the array, one `GroupInto` step
   * per item.
   */
  function GroupBy<T, K(==)>(xs: seq<T>, keyFn: T -> K): (r: seq<(K, seq<T>)>)
    ensures DistinctKeys(r)
  {
    if xs == [] then [] else GroupInto(GroupBy(xs[..|xs| - 1], keyFn), keyFn(xs[|xs| - 1]), xs[|xs| - 1])
  }

  /** The group sizes add up to the number of items. */
  lemma {:induction false} GroupBySize<T, K>(xs: seq<T>, keyFn: T -> K)
    ensures GroupSizes(GroupBy(xs, keyFn)) == |xs|
  {
    if xs != [] {
      var g := GroupBy(xs[..|xs| - 1], keyFn);
      var k := keyFn(xs[|xs| - 1]);
      GroupBySize(xs[..|xs| - 1], keyFn);
      if k in Keys(g) {
        var i := KeyIndex(g, k);
        GroupSizesUpdate(g, i, k, g[i].1 + [xs[|xs| - 1]]);
      } else {
        GroupSizesAppend(g, (k, [xs[|xs| - 1]]));
      }
    }
  }

  lemma UniqueSnoc<T>(ys: seq<T>, y: T)
    ensures Unique(ys + [y]) == if y in Unique(ys) then Unique(ys) else Unique(ys) + [y]
  {
    assert (ys + [y])[..|ys|] == ys;
  }

  lemma GroupIntoKeys<T, K>(g: seq<(K, seq<T>)>, k: K, x: T)
    requires DistinctKeys(g)
    ensures Keys(GroupInto(g, k, x)) == if k in Keys(g) then Keys(g) else Keys(g) + [k]
  {
    if k in Keys(g) {
      var i := KeyIndex(g, k);
      assert Keys(g[i := (k, g[i].1 + [x])]) == Keys(g);
    } else {
      assert Keys(g + [(k, [x])]) == Keys(g) + [k];
    }
  }

  /** The group keys are the distinct keys of the items, in order of first appearance. */
  lemma {:induction false} GroupByKeys<T, K>(xs: seq<T>, keyFn: T -> K)
    ensures Keys(GroupBy(xs, keyFn)) == Unique(MapKeys(xs, keyFn))
  {
    if xs != [] {
      var init, last := xs[..|xs| - 1], xs[|xs| - 1];
      var k := keyFn(last);
      var g := GroupBy(init, keyFn);
      assert GroupBy(xs, keyFn) == GroupInto(g, k, last);
      GroupByKeys(init, keyFn);
      assert init + [last] == xs;
      MapKeysSnoc(init, last, keyFn);
      UniqueSnoc(MapKeys(init, keyFn), k);
      GroupIntoKeys(g, k, last);
    }
  }

  lemma MapKeysSnoc<T, K>(init: seq<T>, last: T, keyFn: T -> K)
    ensures MapKeys(init + [last], keyFn) == MapKeys(init, keyFn) + [keyFn(last)]
  {
  }

  /** Groups that hold exactly the items of `xs` with their key. */
  ghost predicate GroupsMatch<T, K>(groups: seq<(K, seq<T>)>, xs: seq<T>, keyFn: T -> K)
  {
    forall i :: 0 <= i < |groups| ==> groups[i].1 == Seqs.Filter(xs, KeyIs(keyFn, groups[i].0))
  }

  lemma NoItemWithNewKey<T, K>(xs: seq<T>, keyFn: T -> K, k: K)
    requires k !in Unique(MapKeys(xs, keyFn))
    ensures Seqs.Filter(xs, KeyIs(keyFn, k)) == []
  {
    forall j | 0 <= j < |xs| ensures keyFn(xs[j]) != k {
      assert MapKeys(xs, keyFn)[j] == keyFn(xs[j]);
    }
    Seqs.CountZero(xs, KeyIs(keyFn, k));
    Seqs.FilterLength(xs, KeyIs(keyFn, k));
  }

  lemma FilterOne<T>(x: T, p: T -> bool)
    ensures Seqs.Filter([x], p) == if p(x) then [x] else []
  {
    assert [x][1..] == [];
  }

  lemma GroupIntoMatches<T, K>(g: seq<(K, seq<T>)>, init: seq<T>, last: T, keyFn: T -> K)
    requires DistinctKeys(g) && GroupsMatch(g, init, keyFn)
    requires Keys(g) == Unique(MapKeys(init, keyFn))
    ensures GroupsMatch(GroupInto(g, keyFn(last), last), init + [last], keyFn)
  {
    if keyFn(last) in Keys(g) {
      GroupIntoOldKey(g, init, last, keyFn);
    } else {
      GroupIntoNewKey(g, init, last, keyFn);
    }
  }

  /** An item whose key has a group joins the end of that group. */
  lemma GroupIntoOldKey<T, K>(g: seq<(K, seq<T>)>, init: seq<T>, last: T, keyFn: T -> K)
    requires DistinctKeys(g) && GroupsMatch(g, init, keyFn)
    requires keyFn(last) in Keys(g)
    ensures GroupsMatch(GroupInto(g, keyFn(last), last), init + [last], keyFn)
  {
    var k := keyFn(last);
    var r := GroupInto(g, k, last);
    var idx := KeyIndex(g, k);
    assert r == g[idx := (k, g[idx].1 + [last])];
    forall i | 0 <= i < |r|
      ensures r[i].1 == Seqs.Filter(init + [last], KeyIs(keyFn, r[i].0))
    {
      Seqs.FilterConcat(init, [last], KeyIs(keyFn, r[i].0));
      FilterOne(last, KeyIs(keyFn, r[i].0));
      if i != idx {
        assert r[i] == g[i] && g[i].0 != k;
      }
    }
  }

  /** An item with a new key opens a group of its own at the end. */
  lemma GroupIntoNewKey<T, K>(g: seq<(K, seq<T>)>, init: seq<T>, last: T, keyFn: T -> K)
    requires DistinctKeys(g) && GroupsMatch(g, init, keyFn)
    requires Keys(g) == Unique(MapKeys(init, keyFn))
    requires keyFn(last) !in Keys(g)
    ensures GroupsMatch(GroupInto(g, keyFn(last), last), init + [last], keyFn)
  {
    var k := keyFn(last);
    var r := GroupInto(g, k, last);
    assert r == g + [(k, [last])];
    forall i | 0 <= i < |r|
      ensures r[i].1 == Seqs.Filter(init + [last], KeyIs(keyFn, r[i].0))
    {
      if i == |g| {
        NoItemWithNewKey(init, keyFn, k);
        ExtendGroup([], init, last, keyFn, k);
      } else {
        assert r[i] == g[i];
        assert Keys(g)[i] == g[i].0;
        ExtendGroup(g[i].1, init, last, keyFn, g[i].0);
      }
    }
  }

  /** The group of `key` after one more item: the item joins it exactly when it carries `key`. */
  lemma ExtendGroup<T, K>(group: seq<T>, init: seq<T>, last: T, keyFn: T -> K, key: K)
    requires group == Seqs.Filter(init, KeyIs(keyFn, key))
    ensures Seqs.Filter(init + [last], KeyIs(keyFn, key)) == if keyFn(last) == key then group + [last] else group
  {
    Seqs.FilterConcat(init, [last], KeyIs(keyFn, key));
    FilterOne(last, KeyIs(keyFn, key));
  }

  lemma GroupIntoMatchesLast<T, K>(g: seq<(K, seq<T>)>, xs: seq<T>, keyFn: T -> K)
    requires xs != []
    requires DistinctKeys(g) && GroupsMatch(g, xs[..|xs| - 1], keyFn)
    requires Keys(g) == Unique(MapKeys(xs[..|xs| - 1], keyFn))
    ensures GroupsMatch(GroupInto(g, keyFn(xs[|xs| - 1]), xs[|xs| - 1]), xs, keyFn)
  {
    var init, last := xs[..|xs| - 1], xs[|xs| - 1];
    GroupIntoMatches(g, init, last, keyFn);
    Seqs.SnocSplit(xs);
  }

  /** Every group holds exactly the items carrying its key, in input order. */
  lemma {:induction false} GroupByContents<T, K>(xs: seq<T>, keyFn: T -> K)
    ensures GroupsMatch(GroupBy(xs, keyFn), xs, keyFn)
  {
    if xs != [] {
      var init, last := xs[..|xs| - 1], xs[|xs| - 1];
      GroupByContents(init, keyFn);
      GroupByKeys(init, keyFn);
      GroupIntoMatchesLast(GroupBy(init, keyFn), xs, keyFn);
      GroupByLast(xs, keyFn);
    }
  }

  /** The last item of `xs` is pushed after grouping all the others. */
  lemma GroupByLast<T, K>(xs: seq<T>, keyFn: T -> K)
    requires xs != []
    ensures GroupBy(xs, keyFn) == GroupInto(GroupBy(xs[..|xs| - 1], keyFn), keyFn(xs[|xs| - 1]), xs[|xs| - 1])
  {
  }

  /** Concatenation of a list of lists. */
  function Flatten<T>(chunks: seq<seq<T>>): seq<T>
  {
    if chunks == [] then [] else Flatten(chunks[..|chunks| - 1]) + chunks[|chunks| - 1]
  }

  /** `chunk(array, size)`: consecutive slices of `size` elements, the last one possibly shorter. */
  method Chunk<T>(xs: seq<T>, size: nat) returns (chunks: seq<seq<T>>)
    requires 1 <= size
    ensures Flatten(chunks) == xs
    ensures forall k :: 0 <= k < |chunks| ==> 1 <= |chunks[k]| <= size
    ensures forall k :: 0 <= k < |chunks| - 1 ==> |chunks[k]| == size
  {
    chunks := [];
    var i := 0;
    while i < |xs|
      invariant i <= |xs|
      invariant Flatten(chunks) == xs[..i]
      invariant forall k :: 0 <= k < |chunks| ==> 1 <= |chunks[k]| <= size
      invariant forall k :: 0 <= k < |chunks| - 1 ==> |chunks[k]| == size
      invariant i < |xs| ==> forall k :: 0 <= k < |chunks| ==> |chunks[k]| == size
      decreases |xs| - i
    {
      var end := if i + size <= |xs| then i + size else |xs|;
      var piece := xs[i..end];
      FlattenSnoc(chunks, piece);
      assert xs[..end] == xs[..i] + piece;
      chunks := chunks + [piece];
      i := end;
    }
    assert xs[..i] == xs;
  }

  lemma FlattenSnoc<T>(chunks: seq<seq<T>>, piece: seq<T>)
    ensures Flatten(chunks + [piece]) == Flatten(chunks) + piece
  {
    assert (chunks + [piece])[..|chunks|] == chunks;
  }

  /** `pick(obj, keys)`: exactly the requested keys that `obj` has, with their values. */
  function Pick<V>(obj: map<string, V>, keys: seq<string>): (r: map<string, V>)
    ensures forall k :: k in r <==> k in obj && k in keys
    ensures forall k :: k in r ==> r[k] == obj[k]
  {
    if keys == [] then map[]
    else
      var k := keys[|keys| - 1];
      var r := Pick(obj, keys[..|keys| - 1]);
      assert keys == keys[..|keys| - 1] + [k];
      if k in obj then r[k := obj[k]] else r
  }

  /** `omit(obj, keys)`: a copy of `obj` without the listed keys. */
  function Omit<V>(obj: map<string, V>, keys: seq<string>): (r: map<string, V>)
    ensures forall k :: k in r <==> k in obj && k !in keys
    ensures forall k :: k in r ==> r[k] == obj[k]
  {
    if keys == [] then obj
    else
      var k := keys[|keys| - 1];
      var r := Omit(obj, keys[..|keys| - 1]);
      assert keys == keys[..|keys| - 1] + [k];
      r - {k}
  }

  /** The end index `str.slice(0, e)` actually uses: negative ends count from the back. */
  function SliceEnd(n: nat, e: int): (r: nat)
    ensures r <= n
  {
    if e < 0 then (if n + e < 0 then 0 else n + e) else if e < n then e else n
  }

  /** `truncate(str, length, suffix)`; callers that omit `suffix` get the default `"..."`. */
  function Truncate(str: string, length: int, suffix: string): (r: string)
    ensures |str| <= length ==> r == str
    ensures length < |str| ==> EndsWithSuffix(r, suffix)
    ensures length < |str| && |suffix| <= length ==> |r| == length && r == str[..length - |suffix|] + suffix
    ensures length < |str| && length < |suffix| ==> |r| == SliceEnd(|str|, length - |suffix|) + |suffix|
    ensures length < |str| ==> |suffix| <= |r| && |r| - |suffix| <= |str| && r[..|r| - |suffix|] == str[..|r| - |suffix|]
  {
    if |str| <= length then str else str[..SliceEnd(|str|, length - |suffix|)] + suffix
  }

  predicate EndsWithSuffix(s: string, suffix: string)
  {
    |suffix| <= |s| && s[|s| - |suffix|..] == suffix
  }

  /** `clamp(value, min, max)` = `Math.min(Math.max(value, min), max)`. */
  function Clamp(value: real, min: real, max: real): (r: real)
    ensures r <= max
    ensures min <= max ==> min <= r
    ensures min <= value <= max ==> r == value
    ensures max < min ==> r == max
    ensures r == value || r == min || r == max
  {
    var lifted := if value < min then min else value;
    if max < lifted then max else lifted
  }

  lemma ClampIdempotent(value: real, min: real, max: real)
    ensures Clamp(Clamp(value, min, max), min, max) == Clamp(value, min, max)
  {
  }

  /** `capitalize(str)`: first character upper-cased, the rest lower-cased (ASCII letters). */
  function Capitalize(s: string): (r: string)
    ensures |r| == |s|
    ensures 0 < |s| ==> r[0] == UpperChar(s[0])
    ensures forall i :: 1 <= i < |s| ==> r[i] == LowerChar(s[i])
  {
    if s == [] then "" else [UpperChar(s[0])] + Lower(s[1..])
  }
}
