/** Jekyll's `Site` as the plugin in plugins/jekyll_extensions/site.rb reopens it:
    `reset`, `read_posts`, `site_payload`, and the generation of category index
    pages, category feeds and audio-format feeds. Rendering and writing a page are
    Jekyll's; here a generated page is recorded by appending it to `pages`. */
module SiteModel {
  import opened Wrappers
  import opened Posts
  import opened Buckets
  import opened Slug
  import opened Pages

  /** The configuration values the plugin reads: `config['time']` (already
      parsed), `future`, `limit_posts`, `config['category_dir']` and
      `config['audioformat_feed_dir']`. */
  datatype Config = Config(
    time: Option<int>,
    future: bool,
    limitPosts: Option<int>,
    categoryDir: Option<string>,
    audioformatFeedDir: Option<string>)

  /** The part of the render payload `site_payload` builds here. */
  datatype Payload = Payload(time: int, posts: seq<Post>, pages: seq<Page>, htmlPages: seq<Page>)

  const LimitError: string := "Limit posts must be nil or >= 1"
  const MissingLayoutError: string := "No 'category_index' layout found."

  /** What read_posts fills: the post list and the three label maps. */
  datatype Contents = Contents(posts: seq<Post>, categories: LabelMap, audioformats: LabelMap, tags: LabelMap)

  /** The contents after the admitted posts are appended and filed. */
  function Filled(c: Contents, admitted: seq<Post>): Contents {
    Contents(c.posts + admitted, Classify(c.categories, admitted, CategoryAxis),
      Classify(c.audioformats, admitted, AudioformatAxis), Classify(c.tags, admitted, TagAxis))
  }

  /** Filling in two rounds is filling with both lists at once. */
  lemma FilledAppend(c: Contents, admitted: seq<Post>, more: seq<Post>)
    ensures Filled(Filled(c, admitted), more) == Filled(c, admitted + more)
  {
    AppendAssoc(c.posts, admitted, more);
    ClassifyAppend(c.categories, admitted, more, CategoryAxis);
    ClassifyAppend(c.audioformats, admitted, more, AudioformatAxis);
    ClassifyAppend(c.tags, admitted, more, TagAxis);
  }

  /** Filling with one post appends it and files it under its labels. */
  lemma FilledOne(c: Contents, x: Post)
    ensures Filled(c, [x]) == Contents(c.posts + [x],
      InsertAll(c.categories, Labels(x, CategoryAxis), x),
      InsertAll(c.audioformats, Labels(x, AudioformatAxis), x),
      InsertAll(c.tags, Labels(x, TagAxis), x))
  {
    assert [x][..0] == [];
    assert Classify(c.categories, [x], CategoryAxis) == InsertAll(c.categories, Labels(x, CategoryAxis), x);
    assert Classify(c.audioformats, [x], AudioformatAxis) == InsertAll(c.audioformats, Labels(x, AudioformatAxis), x);
    assert Classify(c.tags, [x], TagAxis) == InsertAll(c.tags, Labels(x, TagAxis), x);
  }

  /** The contents after the first i entries have been read into c, one entry at
      a time: each entry, after the override, is appended and filed when visible. */
  ghost function ReadUpTo(c: Contents, entries: seq<Post>, i: nat, previewMode: bool, future: bool, time: int): Contents
    requires i <= |entries|
  {
    if i == 0 then c
    else
      var q := Preview(previewMode, entries[i - 1]);
      Filled(ReadUpTo(c, entries, i - 1, previewMode, future, time), if Visible(q, future, time) then [q] else [])
  }

  /** Reading entries one at a time fills in exactly the admitted posts. */
  lemma {:induction false} ReadUpToAdmitted(c: Contents, entries: seq<Post>, i: nat, previewMode: bool, future: bool, time: int)
    requires i <= |entries|
    ensures ReadUpTo(c, entries, i, previewMode, future, time) == Filled(c, Admitted(entries[..i], previewMode, future, time))
  {
    if i == 0 {
      assert entries[..0] == [];
      assert c.posts + [] == c.posts;
    } else {
      var q := Preview(previewMode, entries[i - 1]);
      var more := if Visible(q, future, time) then [q] else [];
      var admitted := Admitted(entries[..i - 1], previewMode, future, time);
      var prev := ReadUpTo(c, entries, i - 1, previewMode, future, time);
      assert prev == Filled(c, admitted) by {
        ReadUpToAdmitted(c, entries, i - 1, previewMode, future, time);
      }
      assert Admitted(entries[..i], previewMode, future, time) == admitted + more by {
        AdmittedStep(entries, i - 1, previewMode, future, time);
      }
      assert Filled(prev, more) == Filled(c, admitted + more) by {
        FilledAppend(c, admitted, more);
      }
    }
  }

  /** One round of the reading loop on the marker flag: it says whether any entry
      read so far was force-published. */
  lemma MarkerStep(entries: seq<Post>, i: int, previewMode: bool, marker: bool)
    requires 0 <= i < |entries|
    requires marker <==> exists j :: 0 <= j < i && ForcedByPreview(previewMode, entries[j])
    ensures (marker || ForcedByPreview(previewMode, entries[i]))
      <==> exists j :: 0 <= j < i + 1 && ForcedByPreview(previewMode, entries[j])
  {
    if exists j :: 0 <= j < i + 1 && ForcedByPreview(previewMode, entries[j]) {
      var j :| 0 <= j < i + 1 && ForcedByPreview(previewMode, entries[j]);
      if j < i {
        assert exists j :: 0 <= j < i && ForcedByPreview(previewMode, entries[j]);
      }
    }
  }

  class Site {
    const config: Config
    /** Ruby's \p{Word} class and per-character `downcase`, used by the slugs. */
    const chars: Chars
    var time: int
    /** The names of the registered layouts. */
    var layouts: set<string>
    var posts: seq<Post>
    var pages: seq<Page>
    var staticFiles: seq<string>
    var categories: LabelMap
    var audioformats: LabelMap
    var tags: LabelMap

    ghost predicate Valid()
      reads this
    {
      WellFormed(categories) && WellFormed(audioformats) && WellFormed(tags)
    }

    /** A site before its first `reset`. */
    constructor (config: Config, chars: Chars)
      ensures this.config == config && this.chars == chars && Valid()
      ensures layouts == {} && posts == [] && pages == [] && staticFiles == []
      ensures categories == Empty && audioformats == Empty && tags == Empty
    {
      this.config := config;
      this.chars := chars;
      time := 0;
      layouts := {};
      posts := [];
      pages := [];
      staticFiles := [];
      categories := Empty;
      audioformats := Empty;
      tags := Empty;
    }

    /** `reset`: the site time is `config['time']` or else the clock's `now`;
        every collection is emptied; then an invalid `limit_posts` is rejected.
        The collections are emptied on the failing path too. */
    method Reset(now: int) returns (r: Outcome<string>)
      modifies this
      ensures Valid()
      ensures time == config.time.GetOr(now)
      ensures layouts == {} && posts == [] && pages == [] && staticFiles == []
      ensures categories == Empty && audioformats == Empty && tags == Empty
      ensures r.Pass? <==> LimitOk(config.limitPosts)
      ensures r.Fail? ==> r.error == LimitError
    {
      time := if config.time.Some? then config.time.value else now;
      layouts := {};
      posts := [];
      pages := [];
      staticFiles := [];
      categories := Empty;
      audioformats := Empty;
      tags := Empty;
      if config.limitPosts.Some? && config.limitPosts.value < 1 {
        return Fail(LimitError);
      }
      return Pass;
    }

    /** `reset` and then `read_posts`, as a site build runs them. When `reset`
        fails, nothing is read; when `_posts` is missing, the site stays empty;
        otherwise the site holds what ReadFromEmpty describes. */
    method ResetAndRead(now: int, dirExists: bool, entries: seq<Post>, previewMode: bool)
      returns (r: Outcome<string>, previewMarker: bool)
      modifies this
      ensures Valid() && time == config.time.GetOr(now)
      ensures r.Pass? <==> LimitOk(config.limitPosts)
      ensures r.Fail? || !dirExists ==>
        posts == [] && categories == Empty && audioformats == Empty && tags == Empty && !previewMarker
      ensures r.Pass? && dirExists ==>
        ReadFromEmpty(State(), entries, previewMode, config.future, time, config.limitPosts)
      ensures r.Pass? && dirExists ==>
        (previewMarker <==> exists i :: 0 <= i < |entries| && ForcedByPreview(previewMode, entries[i]))
    {
      previewMarker := false;
      r := Reset(now);
      if r.Fail? {
        return;
      }
      previewMarker := ReadPosts(dirExists, entries, previewMode);
      if dirExists {
        ghost var admitted := Admitted(entries, previewMode, config.future, time);
        assert State() == Contents(Limit(SortByDate(admitted), config.limitPosts),
          Classify(Empty, admitted, CategoryAxis), Classify(Empty, admitted, AudioformatAxis),
          Classify(Empty, admitted, TagAxis)) by {
          assert [] + admitted == admitted;
        }
        ReadAfterReset(entries, previewMode, config.future, time, config.limitPosts);
      }
    }

    /** `read_posts`: when the `_posts` directory exists, each entry (already
        parsed) gets the preview override, and a visible post is appended to
        `posts` and filed under each of its categories, audio formats and tags.
        Then `posts` is sorted by date and cut to the last `limit_posts`. The
        label maps are filled before the cut and are not trimmed. The result says
        whether the `.preview-mode` marker file was written. */
    method ReadPosts(dirExists: bool, entries: seq<Post>, previewMode: bool) returns (previewMarker: bool)
      requires Valid() && LimitOk(config.limitPosts)
      modifies this`posts, this`categories, this`audioformats, this`tags
      ensures Valid()
      ensures !dirExists ==>
        && posts == old(posts) && categories == old(categories)
        && audioformats == old(audioformats) && tags == old(tags)
      ensures dirExists ==>
        var admitted := Admitted(entries, previewMode, config.future, time);
        && posts == Limit(SortByDate(old(posts) + admitted), config.limitPosts)
        && categories == Classify(old(categories), admitted, CategoryAxis)
        && audioformats == Classify(old(audioformats), admitted, AudioformatAxis)
        && tags == Classify(old(tags), admitted, TagAxis)
      ensures previewMarker <==>
        dirExists && exists i :: 0 <= i < |entries| && ForcedByPreview(previewMode, entries[i])
    {
      previewMarker := false;
      if !dirExists {
        return;
      }
      previewMarker := ReadEntries(entries, previewMode);
      SortAndLimit();
    }

    /** The loop over the entries of `_posts`, before the sort. */
    method ReadEntries(entries: seq<Post>, previewMode: bool) returns (previewMarker: bool)
      requires Valid()
      modifies this`posts, this`categories, this`audioformats, this`tags
      ensures Valid()
      ensures State() == Filled(old(State()), Admitted(entries, previewMode, config.future, time))
      ensures previewMarker <==> exists i :: 0 <= i < |entries| && ForcedByPreview(previewMode, entries[i])
    {
      previewMarker := false;
      var i := 0;
      while i < |entries|
        invariant 0 <= i <= |entries|
        invariant Valid()
        invariant State() == ReadUpTo(old(State()), entries, i, previewMode, config.future, time)
        invariant previewMarker <==> exists j :: 0 <= j < i && ForcedByPreview(previewMode, entries[j])
      {
        MarkerStep(entries, i, previewMode, previewMarker);
        var forced := ReadEntry(entries[i], previewMode);
        previewMarker := previewMarker || forced;
        i := i + 1;
      }
      ReadUpToAdmitted(old(State()), entries, |entries|, previewMode, config.future, time);
      assert entries[..|entries|] == entries;
    }

    /** One entry of the loop: the preview override, then, when the post is
        visible, `AddPost`. The result says whether the override applied. */
    method ReadEntry(entry: Post, previewMode: bool) returns (forced: bool)
      requires Valid()
      modifies this`posts, this`categories, this`audioformats, this`tags
      ensures Valid()
      ensures forced == ForcedByPreview(previewMode, entry)
      ensures var q := Preview(previewMode, entry);
        State() == Filled(old(State()), if Visible(q, config.future, time) then [q] else [])
    {
      var post := entry;
      forced := false;
      if previewMode && post.publishedKey == Some(false) {
        post := post.(published := true);
        forced := true;
      }
      if post.published && (config.future || post.date <= time) {
        FilledOne(State(), post);
        AddPost(post);
      } else {
        assert State() == Filled(State(), []);
      }
    }

    /** The fields read_posts changes, as one value. */
    ghost function State(): Contents
      reads this
    {
      Contents(posts, categories, audioformats, tags)
    }

    /** The body of the `if` that admits a post: append it to `posts` and file it
        under each of its labels in the three maps. */
    method AddPost(post: Post)
      requires Valid()
      modifies this`posts, this`categories, this`audioformats, this`tags
      ensures Valid()
      ensures posts == old(posts) + [post]
      ensures categories == InsertAll(old(categories), post.categories, post)
      ensures audioformats == InsertAll(old(audioformats), post.audioformats, post)
      ensures tags == InsertAll(old(tags), post.tags, post)
    {
      InsertAllKeys(categories, post.categories, post);
      InsertAllKeys(audioformats, post.audioformats, post);
      InsertAllKeys(tags, post.tags, post);
      posts := posts + [post];
      categories := FileUnder(categories, post.categories, post);
      audioformats := FileUnder(audioformats, post.audioformats, post);
      tags := FileUnder(tags, post.tags, post);
    }

    /** `posts.sort!` followed by the `limit_posts` cut `posts[-limit, limit]`. */
    method SortAndLimit()
      requires LimitOk(config.limitPosts)
      modifies this`posts
      ensures posts == Limit(SortByDate(old(posts)), config.limitPosts)
    {
      var sorted := SortByDate(posts);
      var kept := sorted;
      if config.limitPosts.Some? {
        var n := config.limitPosts.value;
        var limit := if |sorted| < n then |sorted| else n;
        kept := sorted[|sorted| - limit..];
        assert kept == Limit(sorted, Some(n));
      } else {
        assert kept == Limit(sorted, None);
      }
      posts := kept;
    }

    /** The directory category pages go under. */
    function CategoryBase(): (dir: string)
      ensures config.categoryDir.Some? ==> dir == config.categoryDir.value
      ensures config.categoryDir.None? ==> dir == "categories"
    {
      config.categoryDir.GetOr(DefaultCategoryDir)
    }

    /** The directory audio-format feeds go under. */
    function AudioformatBase(): (dir: string)
      ensures config.audioformatFeedDir.Some? ==> dir == config.audioformatFeedDir.value
      ensures config.audioformatFeedDir.None? ==> dir == "audioformat_feeds"
    {
      config.audioformatFeedDir.GetOr(DefaultAudioformatFeedDir)
    }

    /** `write_category_index`: the index page, then the feed, of one category. */
    method WriteCategoryIndex(categoryDir: string, category: string)
      modifies this`pages
      ensures pages == old(pages) + [CategoryIndex(categoryDir, category), CategoryFeed(categoryDir, category)]
    {
      pages := pages + [CategoryIndex(categoryDir, category)];
      pages := pages + [CategoryFeed(categoryDir, category)];
    }

    /** `write_category_indexes`: fails, adding nothing, without a
        `category_index` layout; otherwise adds an index and a feed for every
        category key, in key order, under the category's slug directory. */
    method WriteCategoryIndexes() returns (r: Outcome<string>)
      modifies this`pages
      ensures "category_index" in layouts ==>
        r == Pass && pages == old(pages) + CategoryPages(CategoryBase(), categories.keys, chars)
      ensures "category_index" in layouts ==> |pages| == |old(pages)| + 2 * |categories.keys|
      ensures "category_index" !in layouts ==> r == Fail(MissingLayoutError) && pages == old(pages)
    {
      if "category_index" !in layouts {
        return Fail(MissingLayoutError);
      }
      var dir := CategoryBase();
      var keys := categories.keys;
      for i := 0 to |keys|
        invariant pages == old(pages) + CategoryPages(dir, keys[..i], chars)
      {
        var pair := [CategoryIndex(LabelDir(dir, keys[i], chars), keys[i]), CategoryFeed(LabelDir(dir, keys[i], chars), keys[i])];
        assert CategoryPages(dir, keys[..i + 1], chars) == CategoryPages(dir, keys[..i], chars) + pair by {
          assert keys[..i + 1][..i] == keys[..i];
        }
        WriteCategoryIndex(LabelDir(dir, keys[i], chars), keys[i]);
        assert pages == old(pages) + (CategoryPages(dir, keys[..i], chars) + pair);
      }
      assert keys[..|keys|] == keys;
      IndexPagesLength(keys, LabelDirs(dir, chars));
      return Pass;
    }

    /** `write_audioformat_feed`: the feed of one audio format. */
    method WriteAudioformatFeed(feedDir: string, audioformat: string)
      modifies this`pages
      ensures pages == old(pages) + [AudioFormatFeed(feedDir, audioformat)]
    {
      pages := pages + [AudioFormatFeed(feedDir, audioformat)];
    }

    /** `write_audioformat_feeds`: one feed for every audio-format key, in key
        order, under the format's slug directory. There is no layout check. */
    method WriteAudioformatFeeds()
      modifies this`pages
      ensures pages == old(pages) + AudioformatPages(AudioformatBase(), audioformats.keys, chars)
      ensures |pages| == |old(pages)| + |audioformats.keys|
    {
      var dir := AudioformatBase();
      var keys := audioformats.keys;
      for i := 0 to |keys|
        invariant pages == old(pages) + AudioformatPages(dir, keys[..i], chars)
        invariant |pages| == |old(pages)| + i
      {
        assert keys[..i + 1][..i] == keys[..i];
        WriteAudioformatFeed(LabelDir(dir, keys[i], chars), keys[i]);
      }
      assert keys[..|keys|] == keys;
    }

    /** `site_payload`: the site time, the posts newest first (a sorted copy;
        `posts` itself is not reordered), the pages, and the pages with HTML
        output. */
    function SitePayload(isHtml: Page -> bool): (p: Payload)
      reads this
      ensures p.time == time && p.pages == pages
      ensures NewestFirstOrder(p.posts) && multiset(p.posts) == multiset(posts)
      ensures forall q :: q in p.htmlPages <==> q in pages && isHtml(q)
      ensures p.htmlPages == HtmlPages(pages, isHtml)
    {
      HtmlPagesMembers(pages, isHtml);
      Payload(time, NewestFirst(posts), pages, HtmlPages(pages, isHtml))
    }
  }

  /** The posts a fresh site holds after `reset` and `read_posts`: sorted by date,
      as many as `limit_posts` allows, and the admitted posts the cut drops are no
      newer than those it keeps. */
  lemma ReadAfterResetPosts(admitted: seq<Post>, limit: Option<int>)
    requires LimitOk(limit)
    ensures SortedByDate(Limit(SortByDate(admitted), limit))
    ensures limit.None? ==> |Limit(SortByDate(admitted), limit)| == |admitted|
    ensures limit.Some? ==>
      |Limit(SortByDate(admitted), limit)| == if |admitted| < limit.value then |admitted| else limit.value
    ensures forall i, j :: 0 <= i < |admitted| - |Limit(SortByDate(admitted), limit)| <= j < |admitted| ==>
      SortByDate(admitted)[i].date <= SortByDate(admitted)[j].date
  {
    LimitKeepsNewest(SortByDate(admitted), limit);
  }

  /** Every post a site holds after `reset` and `read_posts` is a visible entry
      after the preview override. */
  lemma ReadAfterResetVisible(entries: seq<Post>, previewMode: bool, future: bool, time: int, limit: Option<int>)
    requires LimitOk(limit)
    ensures forall q :: q in Limit(SortByDate(Admitted(entries, previewMode, future, time)), limit) ==>
      Visible(q, future, time) && exists i :: 0 <= i < |entries| && q == Preview(previewMode, entries[i])
  {
    var admitted := Admitted(entries, previewMode, future, time);
    var sorted := SortByDate(admitted);
    var posts := Limit(sorted, limit);
    assert forall q :: q in posts ==> q in admitted by {
      LimitSubset(sorted, limit);
      forall q | q in posts ensures q in admitted {
        assert q in multiset(sorted);
      }
    }
    AdmittedMembers(entries, previewMode, future, time);
  }

  /** On a fresh site the label maps after `read_posts` file a post under a
      label iff it is a visible entry after the preview override and lists that
      label, and a label is a key iff such a post lists it; this holds even for
      posts the `limit_posts` cut then removes from `posts`. */
  lemma ReadAfterResetLabels(entries: seq<Post>, previewMode: bool, future: bool, time: int, axis: Axis, k: string)
    ensures var b := Classify(Empty, Admitted(entries, previewMode, future, time), axis);
      && WellFormed(b)
      && (forall x :: x in Get(b, k) <==>
            Visible(x, future, time) && k in Labels(x, axis)
            && exists i :: 0 <= i < |entries| && x == Preview(previewMode, entries[i]))
      && (k in b.keys <==> exists x :: x in Get(b, k))
  {
    var admitted := Admitted(entries, previewMode, future, time);
    var b := Classify(Empty, admitted, axis);
    AdmittedMembers(entries, previewMode, future, time);
    ClassifyWellFormed(Empty, admitted, axis);
    ClassifyMembers(admitted, axis, k);
    if k in b.keys {
      var x :| x in admitted && k in Labels(x, axis);
      assert x in Get(b, k);
    }
  }

  /** A label map that files exactly the visible entries, after the preview
      override, under every label they list on `axis`, and has exactly those
      labels as keys. */
  ghost predicate FilesExactly(b: LabelMap, entries: seq<Post>, previewMode: bool, future: bool, time: int, axis: Axis) {
    && WellFormed(b)
    && (forall k, x :: x in Get(b, k) <==>
          Visible(x, future, time) && k in Labels(x, axis)
          && exists i :: 0 <= i < |entries| && x == Preview(previewMode, entries[i]))
    && (forall k :: k in b.keys <==> exists x :: x in Get(b, k))
  }

  /** Classifying the admitted posts into an empty map files exactly the visible
      entries under their labels. */
  lemma ReadAfterResetFiles(entries: seq<Post>, previewMode: bool, future: bool, time: int, axis: Axis)
    ensures FilesExactly(Classify(Empty, Admitted(entries, previewMode, future, time), axis),
      entries, previewMode, future, time, axis)
  {
    var b := Classify(Empty, Admitted(entries, previewMode, future, time), axis);
    ClassifyWellFormed(Empty, Admitted(entries, previewMode, future, time), axis);
    forall k ensures (forall x :: x in Get(b, k) <==>
          Visible(x, future, time) && k in Labels(x, axis)
          && exists i :: 0 <= i < |entries| && x == Preview(previewMode, entries[i]))
        && (k in b.keys <==> exists x :: x in Get(b, k))
    {
      ReadAfterResetLabels(entries, previewMode, future, time, axis, k);
    }
  }

  /** What a site holds after `reset` and `read_posts` of `entries`: `posts` is
      sorted by date, as long as `limit_posts` allows, and holds only visible
      entries after the preview override; each label map files exactly the
      visible entries under the labels they list, including the posts the cut
      removed from `posts`. */
  ghost predicate ReadFromEmpty(c: Contents, entries: seq<Post>, previewMode: bool, future: bool, time: int,
                                limit: Option<int>) {
    var admitted := Admitted(entries, previewMode, future, time);
    && SortedByDate(c.posts)
    && |c.posts| == (if limit.Some? && limit.value < |admitted| then limit.value else |admitted|)
    && (forall q :: q in c.posts ==>
          Visible(q, future, time) && exists i :: 0 <= i < |entries| && q == Preview(previewMode, entries[i]))
    && FilesExactly(c.categories, entries, previewMode, future, time, CategoryAxis)
    && FilesExactly(c.audioformats, entries, previewMode, future, time, AudioformatAxis)
    && FilesExactly(c.tags, entries, previewMode, future, time, TagAxis)
  }

  /** The contents `reset` and `read_posts` leave satisfy ReadFromEmpty. */
  lemma ReadAfterReset(entries: seq<Post>, previewMode: bool, future: bool, time: int, limit: Option<int>)
    requires LimitOk(limit)
    ensures var admitted := Admitted(entries, previewMode, future, time);
      ReadFromEmpty(Contents(Limit(SortByDate(admitted), limit), Classify(Empty, admitted, CategoryAxis),
        Classify(Empty, admitted, AudioformatAxis), Classify(Empty, admitted, TagAxis)),
        entries, previewMode, future, time, limit)
  {
    var admitted := Admitted(entries, previewMode, future, time);
    ReadAfterResetPosts(admitted, limit);
    ReadAfterResetVisible(entries, previewMode, future, time, limit);
    ReadAfterResetFiles(entries, previewMode, future, time, CategoryAxis);
    ReadAfterResetFiles(entries, previewMode, future, time, AudioformatAxis);
    ReadAfterResetFiles(entries, previewMode, future, time, TagAxis);
  }

  /** The label maps outlive the cut: with `limit_posts: 1`, two visible posts of
      category "c" leave one post in `posts` and both in the category's list. */
  lemma BucketsOutliveLimit(a: Post, b: Post)
    requires a.date < b.date && a.categories == ["c"] && b.categories == ["c"]
    ensures Limit(SortByDate([a, b]), Some(1)) == [b]
    ensures Get(Classify(Empty, [a, b], CategoryAxis), "c") == [a, b]
  {
    assert SortByDate([b]) == [b];
    assert [a, b][1..] == [b];
    assert SortByDate([a, b]) == [a, b];
    ClassifyGet(Empty, [a, b], CategoryAxis, "c");
    assert [a, b][1..][1..] == [];
    assert ["c"][..0] == [];
    assert Count(["c"], "c") == 1;
    assert Repeat(a, 1) == [a] && Repeat(b, 1) == [b];
    assert Labels(a, CategoryAxis) == ["c"] && Labels(b, CategoryAxis) == ["c"];
    assert Filed([b], CategoryAxis, "c") == [b] + Filed([], CategoryAxis, "c");
    assert Filed([a, b], CategoryAxis, "c") == [a] + Filed([b], CategoryAxis, "c");
  }
}
