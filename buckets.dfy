/** The three label maps of site.rb, `categories`, `audioformats` and `tags`, each a
    `Hash.new { |hash, key| hash[key] = [] }` from a label to the posts filed under
    it. Writing `hash[label] << post` inserts the label with an empty list when it
    is missing and appends the post to its list. */
module Buckets {
  import opened Posts

  /** The three classification axes; they are filled independently. */
  datatype Axis = CategoryAxis | AudioformatAxis | TagAxis

  /** The labels a post declares on one axis. */
  function Labels(p: Post, axis: Axis): seq<string> {
    match axis
    case CategoryAxis => p.categories
    case AudioformatAxis => p.audioformats
    case TagAxis => p.tags
  }

  /** A hash of lists. `keys` holds the labels in insertion order (the order in
      which Ruby's `hash.keys` enumerates them); `lists` holds each label's posts. */
  datatype LabelMap = LabelMap(keys: seq<string>, lists: map<string, seq<Post>>)

  /** The empty hash `reset` creates. */
  const Empty: LabelMap := LabelMap([], map[])

  /** Keys are listed once each, and exactly the labels that have a list. */
  ghost predicate WellFormed(b: LabelMap) {
    && (forall i, j :: 0 <= i < j < |b.keys| ==> b.keys[i] != b.keys[j])
    && (forall k :: k in b.lists <==> k in b.keys)
  }

  /** The posts filed under `k`; a missing key reads as the empty list. */
  function Get(b: LabelMap, k: string): seq<Post> {
    if k in b.lists then b.lists[k] else []
  }

  /** `hash[k] << p`: insert-or-append. */
  function Insert(b: LabelMap, k: string, p: Post): (r: LabelMap)
    ensures Get(r, k) == Get(b, k) + [p]
    ensures forall k' :: k' != k ==> Get(r, k') == Get(b, k')
    ensures WellFormed(b) ==> WellFormed(r)
    ensures WellFormed(b) ==> forall k' :: k' in r.keys <==> k' in b.keys || k' == k
    ensures b.keys <= r.keys
  {
    if k in b.lists then LabelMap(b.keys, b.lists[k := b.lists[k] + [p]])
    else LabelMap(b.keys + [k], b.lists[k := [p]])
  }

  /** `labels.each { |k| hash[k] << p }`. */
  function InsertAll(b: LabelMap, labels: seq<string>, p: Post): LabelMap
    decreases |labels|
  {
    if labels == [] then b
    else Insert(InsertAll(b, labels[..|labels| - 1], p), labels[|labels| - 1], p)
  }

  /** How many times `k` occurs in `labels`. */
  function Count(labels: seq<string>, k: string): nat
    decreases |labels|
  {
    if labels == [] then 0
    else Count(labels[..|labels| - 1], k) + (if labels[|labels| - 1] == k then 1 else 0)
  }

  lemma {:induction false} CountPositive(labels: seq<string>, k: string)
    ensures Count(labels, k) > 0 <==> k in labels
    decreases |labels|
  {
    if labels != [] {
      var front := labels[..|labels| - 1];
      CountPositive(front, k);
      assert labels == front + [labels[|labels| - 1]];
    }
  }

  /** `n` copies of `p`. */
  function Repeat(p: Post, n: nat): (r: seq<Post>)
    ensures |r| == n
    ensures forall i :: 0 <= i < n ==> r[i] == p
  {
    if n == 0 then [] else [p] + Repeat(p, n - 1)
  }

  /** Filing `p` under each of `labels` appends it to a label's list once for every
      time the label is listed (a repeated label files the post twice), and the
      keys grow by exactly the labels not yet present. */
  lemma {:induction false} InsertAllGet(b: LabelMap, labels: seq<string>, p: Post, k: string)
    ensures Get(InsertAll(b, labels, p), k) == Get(b, k) + Repeat(p, Count(labels, k))
    decreases |labels|
  {
    if labels == [] {
      assert Get(b, k) + [] == Get(b, k);
    } else {
      var front := labels[..|labels| - 1];
      var last := labels[|labels| - 1];
      var mid := InsertAll(b, front, p);
      var n := Count(front, k);
      InsertAllGet(b, front, p, k);
      if k == last {
        assert Get(InsertAll(b, labels, p), k) == Get(mid, k) + [p] by {
          assert InsertAll(b, labels, p) == Insert(mid, last, p);
        }
        assert Count(labels, k) == n + 1;
        RepeatSnoc(p, n);
        assert (Get(b, k) + Repeat(p, n)) + [p] == Get(b, k) + (Repeat(p, n) + [p]);
      } else {
        assert Get(InsertAll(b, labels, p), k) == Get(mid, k) by {
          assert InsertAll(b, labels, p) == Insert(mid, last, p);
        }
        assert Count(labels, k) == n;
      }
    }
  }

  /** One more copy goes at the end. */
  lemma RepeatSnoc(p: Post, n: nat)
    ensures Repeat(p, n + 1) == Repeat(p, n) + [p]
  {
  }

  /** Filing keeps the hash well formed and adds as keys exactly the labels not
      yet present, after the old keys. */
  lemma {:induction false} InsertAllKeys(b: LabelMap, labels: seq<string>, p: Post)
    requires WellFormed(b)
    ensures WellFormed(InsertAll(b, labels, p))
    ensures b.keys <= InsertAll(b, labels, p).keys
    ensures forall k :: k in InsertAll(b, labels, p).keys <==> k in b.keys || k in labels
    decreases |labels|
  {
    if labels != [] {
      var front := labels[..|labels| - 1];
      InsertAllKeys(b, front, p);
      assert labels == front + [labels[|labels| - 1]];
    }
  }

  /** The hash after filing every post of `posts`, in order, under its labels on
      `axis`. */
  function Classify(b: LabelMap, posts: seq<Post>, axis: Axis): LabelMap
    decreases |posts|
  {
    if posts == [] then b
    else
      var p := posts[|posts| - 1];
      InsertAll(Classify(b, posts[..|posts| - 1], axis), Labels(p, axis), p)
  }

  /** Classifying one more post files it under its labels. */
  lemma ClassifyStep(b: LabelMap, posts: seq<Post>, x: Post, axis: Axis)
    ensures Classify(b, posts + [x], axis) == InsertAll(Classify(b, posts, axis), Labels(x, axis), x)
  {
    assert (posts + [x])[..|posts|] == posts;
  }

  /** Classifying two lists one after the other is classifying their
      concatenation. */
  lemma {:induction false} ClassifyAppend(b: LabelMap, posts: seq<Post>, more: seq<Post>, axis: Axis)
    ensures Classify(Classify(b, posts, axis), more, axis) == Classify(b, posts + more, axis)
    decreases |more|
  {
    if more == [] {
      assert posts + more == posts;
    } else {
      var n := |more| - 1;
      ClassifyAppend(b, posts, more[..n], axis);
      assert (posts + more)[..|posts + more| - 1] == posts + more[..n];
    }
  }

  /** Reference for one label: the posts of `posts` that carry label `k` on
      `axis`, in order, each as many times as it lists `k`. */
  function Filed(posts: seq<Post>, axis: Axis, k: string): seq<Post>
  {
    if posts == [] then []
    else Repeat(posts[0], Count(Labels(posts[0], axis), k)) + Filed(posts[1..], axis, k)
  }

  lemma {:induction false} FiledSnoc(posts: seq<Post>, x: Post, axis: Axis, k: string)
    ensures Filed(posts + [x], axis, k) == Filed(posts, axis, k) + Repeat(x, Count(Labels(x, axis), k))
    decreases |posts|
  {
    if posts == [] {
      assert [] + [x] == [x];
      assert [x][1..] == [];
    } else {
      var head := Repeat(posts[0], Count(Labels(posts[0], axis), k));
      var tail := Repeat(x, Count(Labels(x, axis), k));
      FiledSnoc(posts[1..], x, axis, k);
      assert (posts + [x])[0] == posts[0];
      assert (posts + [x])[1..] == posts[1..] + [x];
      assert Filed(posts + [x], axis, k) == head + (Filed(posts[1..], axis, k) + tail);
      AppendAssoc(head, Filed(posts[1..], axis, k), tail);
    }
  }

  /** A post is filed under `k` iff it is one of `posts` and lists `k`. */
  lemma {:induction false} FiledMembers(posts: seq<Post>, axis: Axis, k: string)
    ensures forall x :: x in Filed(posts, axis, k) <==> x in posts && k in Labels(x, axis)
    decreases |posts|
  {
    if posts != [] {
      FiledMembers(posts[1..], axis, k);
      var n := Count(Labels(posts[0], axis), k);
      CountPositive(Labels(posts[0], axis), k);
      assert n > 0 <==> k in Labels(posts[0], axis);
      assert n > 0 ==> Repeat(posts[0], n)[0] == posts[0];
      assert posts == [posts[0]] + posts[1..];
    }
  }

  /** Classifying appends to each label's list exactly the posts filed under it. */
  lemma {:induction false} ClassifyGet(b: LabelMap, posts: seq<Post>, axis: Axis, k: string)
    ensures Get(Classify(b, posts, axis), k) == Get(b, k) + Filed(posts, axis, k)
    decreases |posts|
  {
    if posts == [] {
      assert Get(b, k) + [] == Get(b, k);
    } else {
      var n := |posts| - 1;
      var front := posts[..n];
      var x := posts[n];
      var mid := Classify(b, front, axis);
      var extra := Repeat(x, Count(Labels(x, axis), k));
      assert posts == front + [x];
      assert Classify(b, posts, axis) == InsertAll(mid, Labels(x, axis), x);
      ClassifyGet(b, front, axis, k);
      InsertAllGet(mid, Labels(x, axis), x, k);
      FiledSnoc(front, x, axis, k);
      AppendAssoc(Get(b, k), Filed(front, axis, k), extra);
    }
  }

  /** Classifying keeps the hash well formed and keeps the old keys first. */
  lemma {:induction false} ClassifyWellFormed(b: LabelMap, posts: seq<Post>, axis: Axis)
    requires WellFormed(b)
    ensures WellFormed(Classify(b, posts, axis))
    ensures b.keys <= Classify(b, posts, axis).keys
    decreases |posts|
  {
    if posts != [] {
      var n := |posts| - 1;
      var mid := Classify(b, posts[..n], axis);
      ClassifyWellFormed(b, posts[..n], axis);
      InsertAllKeys(mid, Labels(posts[n], axis), posts[n]);
    }
  }

  /** All the labels `posts` declare on `axis`, post by post, in order. */
  function Declared(posts: seq<Post>, axis: Axis): seq<string>
    decreases |posts|
  {
    if posts == [] then []
    else Declared(posts[..|posts| - 1], axis) + Labels(posts[|posts| - 1], axis)
  }

  /** A label is declared iff some post lists it. */
  lemma {:induction false} DeclaredMembers(posts: seq<Post>, axis: Axis, k: string)
    ensures k in Declared(posts, axis) <==> exists p :: p in posts && k in Labels(p, axis)
    decreases |posts|
  {
    if posts != [] {
      var n := |posts| - 1;
      var front := posts[..n];
      var x := posts[n];
      DeclaredMembers(front, axis, k);
      assert posts == front + [x];
      assert k in Labels(x, axis) ==> x in posts;
    }
  }

  /** After classifying, `k` is a key iff it was one or some post declares it on
      that axis. */
  lemma {:induction false} ClassifyKeys(b: LabelMap, posts: seq<Post>, axis: Axis, k: string)
    requires WellFormed(b)
    ensures k in Classify(b, posts, axis).keys <==> k in b.keys || k in Declared(posts, axis)
    decreases |posts|
  {
    if posts != [] {
      var n := |posts| - 1;
      var front := posts[..n];
      var x := posts[n];
      var mid := Classify(b, front, axis);
      ClassifyKeys(b, front, axis, k);
      ClassifyWellFormed(b, front, axis);
      InsertAllKeys(mid, Labels(x, axis), x);
      assert Classify(b, posts, axis) == InsertAll(mid, Labels(x, axis), x);
      assert Declared(posts, axis) == Declared(front, axis) + Labels(x, axis);
    }
  }

  /** For `posts` filed into a fresh hash: a post is in the list of label `k`
      iff it is one of `posts` and declares `k`, and `k` is a key iff some post
      declares it. */
  lemma ClassifyMembers(posts: seq<Post>, axis: Axis, k: string)
    ensures forall x :: x in Get(Classify(Empty, posts, axis), k) <==> x in posts && k in Labels(x, axis)
    ensures k in Classify(Empty, posts, axis).keys <==> exists p :: p in posts && k in Labels(p, axis)
  {
    ClassifyKeys(Empty, posts, axis, k);
    DeclaredMembers(posts, axis, k);
    ClassifyGet(Empty, posts, axis, k);
    FiledMembers(posts, axis, k);
  }

  /** `labels.each { |k| hash[k] << p }` as the loop site.rb runs. */
  method FileUnder(b: LabelMap, labels: seq<string>, p: Post) returns (r: LabelMap)
    ensures r == InsertAll(b, labels, p)
  {
    r := b;
    for i := 0 to |labels|
      invariant r == InsertAll(b, labels[..i], p)
    {
      assert labels[..i + 1][..i] == labels[..i];
      r := Insert(r, labels[i], p);
    }
    assert labels[..|labels|] == labels;
  }
}
