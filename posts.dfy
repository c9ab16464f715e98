/** Posts as read_posts in site.rb sees them: the preview override, the visibility
    test that admits a post, the ascending sort by date and the `limit_posts` cut. */
module Posts {
  import opened Wrappers

  /** A post as Jekyll's Post.new leaves it. `name` is the entry's path under
      `_posts`, `date` the post time in seconds, `published` the flag Jekyll
      derived, and `publishedKey` the raw `published` value of the front matter
      (None when the key is absent). The three label lists keep the order and the
      repetitions of the front matter. */
  datatype Post = Post(
    name: string,
    date: int,
    published: bool,
    publishedKey: Option<bool>,
    categories: seq<string>,
    audioformats: seq<string>,
    tags: seq<string>)

  /** In preview mode (OCTOPRESS_ENV set to "preview") a post whose front matter
      says `published: false` is force-published. */
  predicate ForcedByPreview(previewMode: bool, p: Post) {
    previewMode && p.publishedKey == Some(false)
  }

  /** The post after the preview override: only `published` can change, and it
      becomes true exactly for the posts the override applies to. */
  function Preview(previewMode: bool, p: Post): (q: Post)
    ensures ForcedByPreview(previewMode, p) ==> q.published
    ensures !ForcedByPreview(previewMode, p) ==> q == p
    ensures q.(published := p.published) == p
  {
    if ForcedByPreview(previewMode, p) then p.(published := true) else p
  }

  /** The admission test: published, and either future posts are allowed or the
      post is not dated after the site time. */
  predicate Visible(p: Post, future: bool, time: int) {
    p.published && (future || p.date <= time)
  }

  /** The posts read_posts appends to `posts`, in read order: each entry after the
      preview override, kept when visible. */
  function Admitted(entries: seq<Post>, previewMode: bool, future: bool, time: int): seq<Post>
    decreases |entries|
  {
    if entries == [] then []
    else
      var q := Preview(previewMode, entries[|entries| - 1]);
      Admitted(entries[..|entries| - 1], previewMode, future, time)
        + (if Visible(q, future, time) then [q] else [])
  }

  /** Every admitted post is visible and is some entry after the override; there
      are no more of them than entries. */
  lemma {:induction false} AdmittedSound(entries: seq<Post>, previewMode: bool, future: bool, time: int)
    ensures |Admitted(entries, previewMode, future, time)| <= |entries|
    ensures forall q :: q in Admitted(entries, previewMode, future, time) ==>
      Visible(q, future, time) && exists i :: 0 <= i < |entries| && q == Preview(previewMode, entries[i])
    decreases |entries|
  {
    if entries != [] {
      var n := |entries| - 1;
      var front := entries[..n];
      var last := Preview(previewMode, entries[n]);
      var before := Admitted(front, previewMode, future, time);
      AdmittedSound(front, previewMode, future, time);
      forall q | q in Admitted(entries, previewMode, future, time)
        ensures Visible(q, future, time)
        ensures exists i :: 0 <= i < |entries| && q == Preview(previewMode, entries[i])
      {
        if q in before {
          var i :| 0 <= i < n && q == Preview(previewMode, front[i]);
          assert front[i] == entries[i];
        } else {
          assert q == last;
        }
      }
    }
  }

  /** Every entry that is visible after the override is admitted. */
  lemma {:induction false} AdmittedComplete(entries: seq<Post>, previewMode: bool, future: bool, time: int)
    ensures forall i :: 0 <= i < |entries| && Visible(Preview(previewMode, entries[i]), future, time) ==>
      Preview(previewMode, entries[i]) in Admitted(entries, previewMode, future, time)
    decreases |entries|
  {
    if entries != [] {
      var n := |entries| - 1;
      var front := entries[..n];
      var before := Admitted(front, previewMode, future, time);
      AdmittedComplete(front, previewMode, future, time);
      forall i | 0 <= i < n && Visible(Preview(previewMode, entries[i]), future, time)
        ensures Preview(previewMode, entries[i]) in Admitted(entries, previewMode, future, time)
      {
        assert front[i] == entries[i];
        assert Preview(previewMode, entries[i]) in before;
      }
    }
  }

  /** A post is admitted iff it is some entry after the override and it is visible. */
  lemma {:induction false} AdmittedMembers(entries: seq<Post>, previewMode: bool, future: bool, time: int)
    ensures |Admitted(entries, previewMode, future, time)| <= |entries|
    ensures forall q :: q in Admitted(entries, previewMode, future, time) <==>
      Visible(q, future, time) &&
      exists i :: 0 <= i < |entries| && q == Preview(previewMode, entries[i])
  {
    AdmittedSound(entries, previewMode, future, time);
    AdmittedComplete(entries, previewMode, future, time);
  }

  /** Reading one more entry appends it, after the override, when it is visible. */
  lemma AdmittedStep(entries: seq<Post>, i: int, previewMode: bool, future: bool, time: int)
    requires 0 <= i < |entries|
    ensures Admitted(entries[..i + 1], previewMode, future, time) ==
      Admitted(entries[..i], previewMode, future, time)
        + (if Visible(Preview(previewMode, entries[i]), future, time) then [Preview(previewMode, entries[i])] else [])
  {
    assert entries[..i + 1][..i] == entries[..i];
  }

  /** With entry names distinct, entry i (after the override) is admitted iff it is
      visible, and a rejected entry leaves no post of its name in `posts`. */
  lemma AdmittedIff(entries: seq<Post>, previewMode: bool, future: bool, time: int, i: int)
    requires 0 <= i < |entries|
    requires forall j, k :: 0 <= j < k < |entries| ==> entries[j].name != entries[k].name
    ensures Preview(previewMode, entries[i]) in Admitted(entries, previewMode, future, time)
      <==> Visible(Preview(previewMode, entries[i]), future, time)
    ensures !Visible(Preview(previewMode, entries[i]), future, time) ==>
      forall q :: q in Admitted(entries, previewMode, future, time) ==> q.name != entries[i].name
  {
    AdmittedMembers(entries, previewMode, future, time);
  }

  /** A visible-dated post whose front matter says `published: false` is admitted,
      force-published, in preview mode, and is not admitted otherwise. */
  lemma PreviewScenario(p: Post, future: bool, time: int)
    requires p.publishedKey == Some(false) && !p.published
    requires future || p.date <= time
    ensures Admitted([p], true, future, time) == [p.(published := true)]
    ensures Admitted([p], false, future, time) == []
  {
    assert [p][..0] == [];
  }

  /** Concatenation of post lists is associative. */
  lemma AppendAssoc(a: seq<Post>, b: seq<Post>, c: seq<Post>)
    ensures (a + b) + c == a + (b + c)
  {
  }

  /** Ascending by date, as `posts.sort!` leaves the list. */
  predicate SortedByDate(s: seq<Post>) {
    forall i, j :: 0 <= i < j < |s| ==> s[i].date <= s[j].date
  }

  /** Descending by date, as `posts.sort { |a, b| b <=> a }` returns it. */
  predicate NewestFirstOrder(s: seq<Post>) {
    forall i, j :: 0 <= i < j < |s| ==> s[i].date >= s[j].date
  }

  /** Puts `x` before the first post of `s` that is not older than it. */
  function InsertByDate(x: Post, s: seq<Post>): (r: seq<Post>)
    ensures multiset(r) == multiset(s) + multiset{x}
    ensures |r| == |s| + 1
  {
    if s == [] then [x]
    else if x.date <= s[0].date then [x] + s
    else
      assert s == [s[0]] + s[1..];
      [s[0]] + InsertByDate(x, s[1..])
  }

  /** The insertion puts first either `x` or the first post of `s`. */
  lemma InsertByDateHead(x: Post, s: seq<Post>)
    ensures InsertByDate(x, s)[0] == x || (s != [] && InsertByDate(x, s)[0] == s[0])
  {
  }

  /** Inserting into a list sorted by date keeps it sorted. */
  lemma {:induction false} InsertByDateSorted(x: Post, s: seq<Post>)
    requires SortedByDate(s)
    ensures SortedByDate(InsertByDate(x, s))
    decreases |s|
  {
    if s != [] && x.date > s[0].date {
      var t := InsertByDate(x, s[1..]);
      InsertByDateSorted(x, s[1..]);
      InsertByDateHead(x, s[1..]);
      assert s[0].date <= t[0].date;
      var r := InsertByDate(x, s);
      assert r == [s[0]] + t;
      forall i, j | 0 <= i < j < |r| ensures r[i].date <= r[j].date {
        if i == 0 {
          assert r[j] == t[j - 1];
        } else {
          assert r[i] == t[i - 1] && r[j] == t[j - 1];
        }
      }
    }
  }

  /** `sort!` by date: the same posts, ascending. Posts of equal date keep their
      relative order. */
  function SortByDate(s: seq<Post>): (r: seq<Post>)
    ensures multiset(r) == multiset(s)
    ensures |r| == |s|
    ensures SortedByDate(r)
  {
    if s == [] then []
    else
      assert s == [s[0]] + s[1..];
      var t := SortByDate(s[1..]);
      InsertByDateSorted(s[0], t);
      InsertByDate(s[0], t)
  }

  /** What `limit_posts` allows: unset, or at least 1 (reset rejects anything else). */
  predicate LimitOk(limit: Option<int>) {
    limit.None? || limit.value >= 1
  }

  /** The cut `posts[-limit, limit]` with `limit` the smaller of the list length and
      `limit_posts`: the last `limit_posts` posts, or all of them when there are
      fewer or no limit is set. */
  function Limit(s: seq<Post>, limit: Option<int>): (r: seq<Post>)
    requires limit.None? || limit.value >= 0
    ensures limit.None? ==> r == s
    ensures limit.Some? ==> |r| <= limit.value && |r| <= |s| && (|r| == limit.value || |r| == |s|)
    ensures r == s[|s| - |r|..]
  {
    match limit
    case None => s
    case Some(n) =>
      var k := if |s| < n then |s| else n;
      s[|s| - k..]
  }

  /** A suffix of a list sorted by date is sorted. */
  lemma SortedSuffix(s: seq<Post>, k: int)
    requires 0 <= k <= |s|
    requires SortedByDate(s)
    ensures SortedByDate(s[k..])
  {
    var t := s[k..];
    forall i, j | 0 <= i < j < |t| ensures t[i].date <= t[j].date {
      assert t[i] == s[k + i] && t[j] == s[k + j];
    }
  }

  /** On a sorted list the cut keeps the newest posts: it is sorted, and every
      post before it (every post it drops) is no newer than any post it keeps. */
  lemma LimitKeepsNewest(s: seq<Post>, limit: Option<int>)
    requires limit.None? || limit.value >= 0
    requires SortedByDate(s)
    ensures SortedByDate(Limit(s, limit))
    ensures forall i, j :: 0 <= i < |s| - |Limit(s, limit)| <= j < |s| ==> s[i].date <= s[j].date
  {
    SortedSuffix(s, |s| - |Limit(s, limit)|);
  }

  /** The cut only removes posts. */
  lemma LimitSubset(s: seq<Post>, limit: Option<int>)
    requires limit.None? || limit.value >= 0
    ensures forall q :: q in Limit(s, limit) ==> q in s
  {
    var r := Limit(s, limit);
    var k := |s| - |r|;
    forall q | q in r ensures q in s {
      var j :| 0 <= j < |r| && r[j] == q;
      assert s[k..][j] == s[k + j];
    }
  }

  /** The list reversed. */
  function Reverse(s: seq<Post>): (r: seq<Post>)
    ensures |r| == |s|
    ensures forall i :: 0 <= i < |s| ==> r[i] == s[|s| - 1 - i]
  {
    if s == [] then [] else Reverse(s[1..]) + [s[0]]
  }

  lemma {:induction false} ReverseMultiset(s: seq<Post>)
    ensures multiset(Reverse(s)) == multiset(s)
  {
    if s != [] {
      ReverseMultiset(s[1..]);
      assert s == [s[0]] + s[1..];
    }
  }

  /** The payload's `posts`: the same posts, newest first. */
  function NewestFirst(s: seq<Post>): (r: seq<Post>)
    ensures NewestFirstOrder(r)
    ensures multiset(r) == multiset(s)
  {
    var up := SortByDate(s);
    ReverseMultiset(up);
    Reverse(up)
  }
}
