/**
 * `utils/common.js`: lookups over the mock post list. `getPostById` finds
 * by `parseInt(id)`; `getCategories` spreads a `Set` of the posts'
 * categories; `getTags` flattens the posts' tags and keeps each id's first
 * occurrence. The mock list itself is a parameter.
 */
module CommonUtils {
  import opened Wrappers
  import opened Seqs
  import opened Text
  import opened Js

  datatype MockTag = MockTag(id: int, name: string)

  /** A mock post as `getCategories` and `getTags` see it; `category` is a plain string there. */
  datatype MockPost = MockPost(id: int, title: string, category: Option<string>, tags: Option<seq<MockTag>>)

  /** `mockPosts.find(post => post.id === parseInt(id))`. */
  function GetPostById(posts: seq<MockPost>, id: string): (r: Option<MockPost>)
    ensures r.None? <==> forall i | 0 <= i < |posts| :: ParseInt(id) != Some(posts[i].id)
    ensures r.Some? ==> exists i :: 0 <= i < |posts| && posts[i] == r.value && ParseInt(id) == Some(r.value.id)
                          && forall j :: 0 <= j < i ==> ParseInt(id) != Some(posts[j].id)
  {
    FindFirst(posts, (p: MockPost) => ParseInt(id) == Some(p.id))
  }

  /** Looking a post up by the decimal rendering of its id finds the first post with that id. */
  lemma GetPostByRenderedId(posts: seq<MockPost>, n: int)
    ensures GetPostById(posts, IntToString(n)).Some? <==> exists i :: 0 <= i < |posts| && posts[i].id == n
    ensures GetPostById(posts, IntToString(n)).Some? ==> GetPostById(posts, IntToString(n)).value.id == n
  {
    ParseIntToString(n);
  }

  // ---------------------------------------------------------------------
  // First occurrences

  /** `s.findIndex(y => key(y) === k)`. */
  function FindIndexBy<T, K(==)>(s: seq<T>, key: T -> K, k: K): (i: int)
    ensures -1 <= i < |s|
    ensures i >= 0 ==> key(s[i]) == k && forall j | 0 <= j < i :: key(s[j]) != k
    ensures i == -1 ==> forall j | 0 <= j < |s| :: key(s[j]) != k
  {
    if s == [] then -1
    else if key(s[0]) == k then 0
    else
      var i := FindIndexBy(s[1..], key, k);
      if i == -1 then -1 else i + 1
  }

  /**
   * `s.filter((x, index, self) => index === self.findIndex(y => key(y) === key(x)))`:
   * the elements at positions `from..` that are the first of their key in all of `s`.
   */
  function KeepFirstFrom<T, K(==)>(s: seq<T>, key: T -> K, from: nat): seq<T>
    decreases |s| - from
  {
    if from >= |s| then []
    else (if FindIndexBy(s, key, key(s[from])) == from then [s[from]] else []) + KeepFirstFrom(s, key, from + 1)
  }

  function KeepFirstBy<T, K(==)>(s: seq<T>, key: T -> K): seq<T> {
    KeepFirstFrom(s, key, 0)
  }

  /**
   * What `KeepFirstFrom` keeps: each element is the first of its key in
   * `s`, found at or after `from`; every such first occurrence is kept; and
   * no two kept elements share a key.
   */
  lemma KeepFirstFromSpec<T, K>(s: seq<T>, key: T -> K, from: nat)
    requires from <= |s|
    ensures forall i | 0 <= i < |KeepFirstFrom(s, key, from)| ::
      && from <= FindIndexBy(s, key, key(KeepFirstFrom(s, key, from)[i]))
      && s[FindIndexBy(s, key, key(KeepFirstFrom(s, key, from)[i]))] == KeepFirstFrom(s, key, from)[i]
    ensures forall j | from <= j < |s| && FindIndexBy(s, key, key(s[j])) == j :: s[j] in KeepFirstFrom(s, key, from)
    ensures forall a, b | 0 <= a < b < |KeepFirstFrom(s, key, from)| ::
      key(KeepFirstFrom(s, key, from)[a]) != key(KeepFirstFrom(s, key, from)[b])
  {
    KeepFirstFromFirsts(s, key, from);
    KeepFirstFromComplete(s, key, from);
    KeepFirstFromDistinct(s, key, from);
  }

  /** Each kept element is the first of its key, at or after `from`. */
  lemma {:induction false} KeepFirstFromFirsts<T, K>(s: seq<T>, key: T -> K, from: nat)
    requires from <= |s|
    ensures forall i | 0 <= i < |KeepFirstFrom(s, key, from)| ::
      && from <= FindIndexBy(s, key, key(KeepFirstFrom(s, key, from)[i]))
      && s[FindIndexBy(s, key, key(KeepFirstFrom(s, key, from)[i]))] == KeepFirstFrom(s, key, from)[i]
    decreases |s| - from
  {
    if from < |s| {
      KeepFirstFromFirsts(s, key, from + 1);
      var rest := KeepFirstFrom(s, key, from + 1);
      if FindIndexBy(s, key, key(s[from])) == from {
        var r := [s[from]] + rest;
        assert KeepFirstFrom(s, key, from) == r;
        forall i | 0 <= i < |r|
          ensures from <= FindIndexBy(s, key, key(r[i])) && s[FindIndexBy(s, key, key(r[i]))] == r[i]
        {
          if i > 0 {
            assert r[i] == rest[i - 1];
          }
        }
      } else {
        assert KeepFirstFrom(s, key, from) == rest by {
          assert [] + rest == rest;
        }
      }
    }
  }

  /** Every first occurrence at or after `from` is kept. */
  lemma {:induction false} KeepFirstFromComplete<T, K>(s: seq<T>, key: T -> K, from: nat)
    requires from <= |s|
    ensures forall j | from <= j < |s| && FindIndexBy(s, key, key(s[j])) == j :: s[j] in KeepFirstFrom(s, key, from)
    decreases |s| - from
  {
    if from < |s| {
      KeepFirstFromComplete(s, key, from + 1);
      KeepFirstFromStep(s, key, from);
      var head := if FindIndexBy(s, key, key(s[from])) == from then [s[from]] else [];
      var rest := KeepFirstFrom(s, key, from + 1);
      forall j | from <= j < |s| && FindIndexBy(s, key, key(s[j])) == j ensures s[j] in head + rest {
        if j == from {
          assert s[j] in head;
        } else {
          assert s[j] in rest;
        }
      }
    }
  }

  /** No two kept elements share a key. */
  lemma {:induction false} KeepFirstFromDistinct<T, K>(s: seq<T>, key: T -> K, from: nat)
    requires from <= |s|
    ensures forall a, b | 0 <= a < b < |KeepFirstFrom(s, key, from)| ::
      key(KeepFirstFrom(s, key, from)[a]) != key(KeepFirstFrom(s, key, from)[b])
    decreases |s| - from
  {
    if from < |s| {
      KeepFirstFromDistinct(s, key, from + 1);
      var rest := KeepFirstFrom(s, key, from + 1);
      if FindIndexBy(s, key, key(s[from])) == from {
        KeepFirstFromFirsts(s, key, from + 1);
        var r := [s[from]] + rest;
        assert KeepFirstFrom(s, key, from) == r;
        forall a, b | 0 <= a < b < |r| ensures key(r[a]) != key(r[b]) {
          assert r[b] == rest[b - 1];
          if a > 0 {
            assert r[a] == rest[a - 1];
          }
        }
      } else {
        assert KeepFirstFrom(s, key, from) == rest by {
          assert [] + rest == rest;
        }
      }
    }
  }

  /** The keys `KeepFirstBy` keeps are distinct, each key of `s` is kept once as its first occurrence, and nothing else. */
  lemma KeepFirstBySpec<T, K>(s: seq<T>, key: T -> K)
    ensures forall a, b | 0 <= a < b < |KeepFirstBy(s, key)| :: key(KeepFirstBy(s, key)[a]) != key(KeepFirstBy(s, key)[b])
    ensures forall j | 0 <= j < |s| :: s[FindIndexBy(s, key, key(s[j]))] in KeepFirstBy(s, key)
    ensures forall i | 0 <= i < |KeepFirstBy(s, key)| ::
      && 0 <= FindIndexBy(s, key, key(KeepFirstBy(s, key)[i]))
      && s[FindIndexBy(s, key, key(KeepFirstBy(s, key)[i]))] == KeepFirstBy(s, key)[i]
  {
    KeepFirstFromSpec(s, key, 0);
    forall j | 0 <= j < |s| ensures s[FindIndexBy(s, key, key(s[j]))] in KeepFirstBy(s, key) {
      var f := FindIndexBy(s, key, key(s[j]));
      assert FindIndexBy(s, key, key(s[f])) == f;
    }
  }

  /** Filtering out the elements already seen, left to right: what spreading a `Set` built from `s` yields. */
  function SetOrder<T(==)>(s: seq<T>): (r: seq<T>)
    ensures forall i | 0 <= i < |s| :: s[i] in r
    ensures forall i | 0 <= i < |r| :: r[i] in s
    ensures forall a, b | 0 <= a < b < |r| :: r[a] != r[b]
  {
    if s == [] then []
    else
      var init := SetOrder(s[..|s| - 1]);
      var x := s[|s| - 1];
      assert forall i | 0 <= i < |s| - 1 :: s[i] == s[..|s| - 1][i];
      assert forall y | y in s[..|s| - 1] :: y in s;
      if x in init then init else init + [x]
  }

  // ---------------------------------------------------------------------
  // getCategories and getTags

  /** `[...new Set(mockPosts.map(post => post.category))]`; a missing category is `undefined`, kept once too. */
  function GetCategories(posts: seq<MockPost>): (r: seq<Option<string>>)
    ensures forall i | 0 <= i < |posts| :: posts[i].category in r
    ensures forall c | c in r :: exists i :: 0 <= i < |posts| && posts[i].category == c
    ensures forall a, b | 0 <= a < b < |r| :: r[a] != r[b]
  {
    SetOrder(PostCategories(posts))
  }

  /** `mockPosts.map(post => post.category)`. */
  function PostCategories(posts: seq<MockPost>): (r: seq<Option<string>>)
    ensures |r| == |posts| && forall i | 0 <= i < |posts| :: r[i] == posts[i].category
  {
    seq(|posts|, i requires 0 <= i < |posts| => posts[i].category)
  }

  /** `mockPosts.flatMap(post => post.tags || [])`. */
  function AllTags(posts: seq<MockPost>): seq<MockTag> {
    if posts == [] then []
    else (if posts[0].tags.Some? then posts[0].tags.value else []) + AllTags(posts[1..])
  }

  /** Every tag of every post is in the flattened list. */
  lemma {:induction false} AllTagsContains(posts: seq<MockPost>, i: int, t: MockTag)
    requires 0 <= i < |posts| && posts[i].tags.Some? && t in posts[i].tags.value
    ensures t in AllTags(posts)
  {
    if i > 0 {
      AllTagsContains(posts[1..], i - 1, t);
    }
  }

  /** Posts without tags contribute nothing. */
  lemma {:induction false} AllTagsSkipsUntagged(posts: seq<MockPost>, i: int, p: MockPost)
    requires 0 <= i <= |posts| && (p.tags.None? || p.tags == Some([]))
    ensures AllTags(posts[..i] + [p] + posts[i..]) == AllTags(posts)
  {
    if i == 0 {
      assert (posts[..0] + [p] + posts[0..])[1..] == posts;
    } else {
      var q := posts[..i] + [p] + posts[i..];
      assert q[0] == posts[0];
      assert q[1..] == posts[1..][..i - 1] + [p] + posts[1..][i - 1..];
      AllTagsSkipsUntagged(posts[1..], i - 1, p);
    }
  }

  function TagId(t: MockTag): int {
    t.id
  }

  /** `getTags`: the flattened tags, each id kept at its first occurrence. */
  function GetTags(posts: seq<MockPost>): seq<MockTag> {
    KeepFirstBy(AllTags(posts), TagId)
  }

  /**
   * No two tags of `getTags` share an id; for every tag of every post, the
   * first tag in the flattened list with its id is in `getTags`; and
   * `getTags` holds nothing else.
   */
  lemma GetTagsSpec(posts: seq<MockPost>)
    ensures forall a, b | 0 <= a < b < |GetTags(posts)| :: GetTags(posts)[a].id != GetTags(posts)[b].id
    ensures forall i, t | 0 <= i < |posts| && posts[i].tags.Some? && t in posts[i].tags.value ::
      && 0 <= FindIndexBy(AllTags(posts), TagId, t.id)
      && AllTags(posts)[FindIndexBy(AllTags(posts), TagId, t.id)] in GetTags(posts)
    ensures forall k | 0 <= k < |GetTags(posts)| ::
      && 0 <= FindIndexBy(AllTags(posts), TagId, GetTags(posts)[k].id)
      && AllTags(posts)[FindIndexBy(AllTags(posts), TagId, GetTags(posts)[k].id)] == GetTags(posts)[k]
  {
    var all := AllTags(posts);
    KeepFirstBySpec(all, TagId);
    forall i, t | 0 <= i < |posts| && posts[i].tags.Some? && t in posts[i].tags.value
      ensures 0 <= FindIndexBy(all, TagId, t.id) && all[FindIndexBy(all, TagId, t.id)] in GetTags(posts)
    {
      AllTagsContains(posts, i, t);
      var j :| 0 <= j < |all| && all[j] == t;
      assert TagId(all[j]) == t.id;
    }
  }

  // ---------------------------------------------------------------------
  // A Set keeps first occurrences

  function Itself<T>(x: T): T {
    x
  }

  /** `findIndex` on a longer list agrees with the shorter one wherever that finds something. */
  lemma {:induction false} FindIndexByAppend<T, K>(s: seq<T>, x: T, key: T -> K, k: K)
    ensures FindIndexBy(s + [x], key, k) ==
      if FindIndexBy(s, key, k) >= 0 then FindIndexBy(s, key, k) else if key(x) == k then |s| else -1
  {
    if s != [] {
      assert (s + [x])[1..] == s[1..] + [x];
      FindIndexByAppend(s[1..], x, key, k);
    }
  }

  /** Appending `x` appends it to the first occurrences exactly when its key is new. */
  lemma {:induction false} KeepFirstFromAppend<T, K>(s: seq<T>, x: T, key: T -> K, from: nat)
    requires from <= |s|
    ensures KeepFirstFrom(s + [x], key, from) ==
      KeepFirstFrom(s, key, from) + (if FindIndexBy(s, key, key(x)) == -1 then [x] else [])
    decreases |s| - from
  {
    if from == |s| {
      KeepFirstFromAppendEnd(s, x, key);
    } else {
      KeepFirstFromAppend(s, x, key, from + 1);
      KeepFirstFromAppendStep(s, x, key, from);
      KeepFirstFromStep(s, key, from);
      ConcatAssoc(if FindIndexBy(s, key, key(s[from])) == from then [s[from]] else [],
                  KeepFirstFrom(s, key, from + 1),
                  if FindIndexBy(s, key, key(x)) == -1 then [x] else []);
    }
  }

  lemma ConcatAssoc<T>(a: seq<T>, b: seq<T>, c: seq<T>)
    ensures a + (b + c) == (a + b) + c
  {
  }

  /** Below the appended element, a step of `KeepFirstFrom` decides as it did without it. */
  lemma KeepFirstFromAppendStep<T, K>(s: seq<T>, x: T, key: T -> K, from: nat)
    requires from < |s|
    ensures KeepFirstFrom(s + [x], key, from) ==
      (if FindIndexBy(s, key, key(s[from])) == from then [s[from]] else []) + KeepFirstFrom(s + [x], key, from + 1)
  {
    FirstIndexAppendSame(s, x, key, from);
    KeepFirstFromStep(s + [x], key, from);
    assert (s + [x])[from] == s[from];
  }

  lemma KeepFirstFromAppendEnd<T, K>(s: seq<T>, x: T, key: T -> K)
    ensures KeepFirstFrom(s + [x], key, |s|) == if FindIndexBy(s, key, key(x)) == -1 then [x] else []
  {
    var t := s + [x];
    FindIndexByAppend(s, x, key, key(x));
    assert t[|s|] == x;
    assert KeepFirstFrom(t, key, |s| + 1) == [];
  }

  /** Appending leaves the first index of an earlier element's key where it was. */
  lemma FirstIndexAppendSame<T, K>(s: seq<T>, x: T, key: T -> K, j: nat)
    requires j < |s|
    ensures FindIndexBy(s + [x], key, key((s + [x])[j])) == FindIndexBy(s, key, key(s[j]))
  {
    FindIndexByAt(s, key, j);
    FindIndexByAppend(s, x, key, key(s[j]));
    assert (s + [x])[j] == s[j];
  }

  /** One step of `KeepFirstFrom`. */
  lemma KeepFirstFromStep<T, K>(s: seq<T>, key: T -> K, from: nat)
    requires from < |s|
    ensures KeepFirstFrom(s, key, from) ==
      (if FindIndexBy(s, key, key(s[from])) == from then [s[from]] else []) + KeepFirstFrom(s, key, from + 1)
  {
  }

  /** The first index of an element's key is at or before it. */
  lemma FindIndexByAt<T, K>(s: seq<T>, key: T -> K, j: nat)
    requires j < |s|
    ensures 0 <= FindIndexBy(s, key, key(s[j])) <= j
  {
  }

  /** The first index of `x` under the identity key exists exactly when `x` occurs. */
  lemma FindItself<T>(s: seq<T>, x: T)
    ensures FindIndexBy(s, Itself, x) >= 0 <==> x in s
  {
    if x in s {
      var j :| 0 <= j < |s| && s[j] == x;
      assert Itself(s[j]) == x;
    }
  }

  /** The `Set` spread and the first-occurrence filter agree: a `Set` iterates in first-insertion order. */
  lemma {:induction false} SetOrderIsFirstOccurrences<T>(s: seq<T>)
    ensures SetOrder(s) == KeepFirstBy(s, Itself)
  {
    if s != [] {
      var init := s[..|s| - 1];
      var x := s[|s| - 1];
      assert s == init + [x];
      SetOrderIsFirstOccurrences(init);
      KeepFirstFromAppend(init, x, Itself, 0);
      FindItself(init, x);
      assert x in SetOrder(init) <==> x in init;
    }
  }

  /** `getCategories` lists each category at the place of its first occurrence. */
  lemma GetCategoriesOrder(posts: seq<MockPost>)
    ensures GetCategories(posts) == KeepFirstBy(PostCategories(posts), Itself)
  {
    SetOrderIsFirstOccurrences(PostCategories(posts));
  }
}
