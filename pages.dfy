/** The pages write_category_indexes and write_audioformat_feeds append to the
    site's page list, and the output directories they are written under. */
module Pages {
  import opened Slug

  /** A page of the site. Pages read from the source tree are opaque; the three
      generated kinds carry the directory they are written to and their label. */
  datatype Page =
    | SourcePage(path: string)
    | CategoryIndex(dir: string, category: string)
    | CategoryFeed(dir: string, category: string)
    | AudioFormatFeed(dir: string, audioformat: string)

  /** Used when `config['category_dir']` is unset. */
  const DefaultCategoryDir: string := "categories"

  /** Used when `config['audioformat_feed_dir']` is unset. */
  const DefaultAudioformatFeedDir: string := "audioformat_feeds"

  /** `File.join(base, name)`: one '/' between the two parts. */
  function JoinPath(base: string, name: string): (r: string)
    ensures base <= r
    ensures |r| == |base| + |name| + (if base != [] && base[|base| - 1] == '/' then 0 else 1)
    ensures name == r[|r| - |name|..]
    ensures (base == [] || base[|base| - 1] != '/') ==> r[|base|] == '/'
  {
    if base != [] && base[|base| - 1] == '/' then base + name else base + "/" + name
  }

  /** The directory of one label: the base joined with the label's slug. */
  function LabelDir(base: string, name: string, cs: Chars): (r: string)
    ensures base <= r
  {
    JoinPath(base, Slugify(name, cs))
  }

  /** The directory of a label is the base followed by a slug: every character
      after the base and its separator is a dash or a lower-case word character,
      and a slug used as a label lands in the same directory as its label. */
  lemma LabelDirShape(base: string, name: string, cs: Chars)
    requires ValidChars(cs)
    ensures base <= LabelDir(base, name, cs)
    ensures IsSlug(LabelDir(base, name, cs)[|LabelDir(base, name, cs)| - |Slugify(name, cs)|..], cs)
    ensures LabelDir(base, Slugify(name, cs), cs) == LabelDir(base, name, cs)
  {
    SlugifyShape(name, cs);
    SlugifyIdempotent(name, cs);
  }

  /** Labels that differ only in case, '_' and punctuation share a directory:
      "Rock & Roll" and "rock___roll" both go to `<base>/rock-roll`. */
  lemma LabelDirCollision(base: string, cs: Chars)
    requires AsciiExact(cs)
    ensures LabelDir(base, "Rock & Roll", cs) == LabelDir(base, "rock___roll", cs)
  {
    SlugifyRockAndRoll(cs);
    SlugifyUnderscores(cs);
  }

  /** Every label's directory under `base`, as one function. */
  function LabelDirs(base: string, cs: Chars): string -> string {
    name => LabelDir(base, name, cs)
  }

  /** For each category, in order, its index page and then its feed, each under
      the directory `dirOf` names for it. */
  function IndexPages(categories: seq<string>, dirOf: string -> string): seq<Page>
    decreases |categories|
  {
    if categories == [] then []
    else
      var c := categories[|categories| - 1];
      IndexPages(categories[..|categories| - 1], dirOf) + [CategoryIndex(dirOf(c), c), CategoryFeed(dirOf(c), c)]
  }

  /** Two pages per category. */
  lemma {:induction false} IndexPagesLength(categories: seq<string>, dirOf: string -> string)
    ensures |IndexPages(categories, dirOf)| == 2 * |categories|
    decreases |categories|
  {
    if categories != [] {
      IndexPagesLength(categories[..|categories| - 1], dirOf);
    }
  }

  /** At positions 2i and 2i+1: the index and then the feed of category i. */
  lemma {:induction false} IndexPagesAt(categories: seq<string>, dirOf: string -> string, i: int)
    requires 0 <= i < |categories|
    ensures |IndexPages(categories, dirOf)| == 2 * |categories|
    ensures IndexPages(categories, dirOf)[2 * i] == CategoryIndex(dirOf(categories[i]), categories[i])
    ensures IndexPages(categories, dirOf)[2 * i + 1] == CategoryFeed(dirOf(categories[i]), categories[i])
    decreases |categories|
  {
    var n := |categories| - 1;
    var front := categories[..n];
    var prev := IndexPages(front, dirOf);
    var c := categories[n];
    var pair := [CategoryIndex(dirOf(c), c), CategoryFeed(dirOf(c), c)];
    IndexPagesLength(front, dirOf);
    IndexPagesLength(categories, dirOf);
    assert IndexPages(categories, dirOf) == prev + pair;
    if i < n {
      IndexPagesAt(front, dirOf, i);
      assert front[i] == categories[i];
    }
  }

  /** The pages write_category_indexes appends for `categories`, in key order:
      for each category its index page, then its feed, under its slug directory. */
  function CategoryPages(base: string, categories: seq<string>, cs: Chars): (r: seq<Page>)
    ensures |r| == 2 * |categories|
  {
    IndexPagesLength(categories, LabelDirs(base, cs));
    IndexPages(categories, LabelDirs(base, cs))
  }

  /** Two pages per category; at positions 2i and 2i+1 the index and then the
      feed of category i, both under the category's slug directory. */
  lemma CategoryPagesAt(base: string, categories: seq<string>, cs: Chars, i: int)
    requires 0 <= i < |categories|
    ensures |CategoryPages(base, categories, cs)| == 2 * |categories|
    ensures CategoryPages(base, categories, cs)[2 * i] == CategoryIndex(LabelDir(base, categories[i], cs), categories[i])
    ensures CategoryPages(base, categories, cs)[2 * i + 1] == CategoryFeed(LabelDir(base, categories[i], cs), categories[i])
  {
    IndexPagesAt(categories, LabelDirs(base, cs), i);
    assert LabelDirs(base, cs)(categories[i]) == LabelDir(base, categories[i], cs);
  }

  /** One feed per audio format, in order, under the directory `dirOf` names for it. */
  function FeedPages(formats: seq<string>, dirOf: string -> string): seq<Page>
    decreases |formats|
  {
    if formats == [] then []
    else
      var f := formats[|formats| - 1];
      FeedPages(formats[..|formats| - 1], dirOf) + [AudioFormatFeed(dirOf(f), f)]
  }

  /** One feed per audio format. */
  lemma {:induction false} FeedPagesLength(formats: seq<string>, dirOf: string -> string)
    ensures |FeedPages(formats, dirOf)| == |formats|
    decreases |formats|
  {
    if formats != [] {
      FeedPagesLength(formats[..|formats| - 1], dirOf);
    }
  }

  /** At position i: the feed of audio format i. */
  lemma {:induction false} FeedPagesAt(formats: seq<string>, dirOf: string -> string, i: int)
    requires 0 <= i < |formats|
    ensures |FeedPages(formats, dirOf)| == |formats|
    ensures FeedPages(formats, dirOf)[i] == AudioFormatFeed(dirOf(formats[i]), formats[i])
    decreases |formats|
  {
    var n := |formats| - 1;
    var front := formats[..n];
    var prev := FeedPages(front, dirOf);
    var f := formats[n];
    FeedPagesLength(front, dirOf);
    FeedPagesLength(formats, dirOf);
    assert FeedPages(formats, dirOf) == prev + [AudioFormatFeed(dirOf(f), f)];
    if i < n {
      FeedPagesAt(front, dirOf, i);
      assert front[i] == formats[i];
    }
  }

  /** The pages write_audioformat_feeds appends for `formats`, in key order: one
      feed per audio format, under its slug directory. */
  function AudioformatPages(base: string, formats: seq<string>, cs: Chars): (r: seq<Page>)
    ensures |r| == |formats|
  {
    FeedPagesLength(formats, LabelDirs(base, cs));
    FeedPages(formats, LabelDirs(base, cs))
  }

  /** One feed per audio format; at position i the feed of audio format i, under
      the format's slug directory. */
  lemma AudioformatPagesAt(base: string, formats: seq<string>, cs: Chars, i: int)
    requires 0 <= i < |formats|
    ensures |AudioformatPages(base, formats, cs)| == |formats|
    ensures AudioformatPages(base, formats, cs)[i] == AudioFormatFeed(LabelDir(base, formats[i], cs), formats[i])
  {
    FeedPagesAt(formats, LabelDirs(base, cs), i);
    assert LabelDirs(base, cs)(formats[i]) == LabelDir(base, formats[i], cs);
  }

  /** `pages.reject { |page| !page.html? }`: the pages with HTML output, in order.
      Whether a page is HTML is decided by Jekyll and is a parameter here. */
  function HtmlPages(pages: seq<Page>, isHtml: Page -> bool): (r: seq<Page>)
    ensures |r| <= |pages|
  {
    if pages == [] then []
    else (if isHtml(pages[0]) then [pages[0]] else []) + HtmlPages(pages[1..], isHtml)
  }

  /** The filter keeps each HTML page as many times as it occurs in `pages`, and
      no other page. */
  lemma {:induction false} HtmlPagesCount(pages: seq<Page>, isHtml: Page -> bool, q: Page)
    ensures multiset(HtmlPages(pages, isHtml))[q] == if isHtml(q) then multiset(pages)[q] else 0
    decreases |pages|
  {
    if pages != [] {
      HtmlPagesCount(pages[1..], isHtml, q);
      assert pages == [pages[0]] + pages[1..];
    }
  }

  /** The filter keeps exactly the pages with HTML output. */
  lemma HtmlPagesMembers(pages: seq<Page>, isHtml: Page -> bool)
    ensures forall q :: q in HtmlPages(pages, isHtml) <==> q in pages && isHtml(q)
  {
    forall q ensures q in HtmlPages(pages, isHtml) <==> q in pages && isHtml(q) {
      HtmlPagesCount(pages, isHtml, q);
    }
  }

  /** The filter keeps the order: filtering a concatenation concatenates the
      filtered parts. */
  lemma {:induction false} HtmlPagesAppend(a: seq<Page>, b: seq<Page>, isHtml: Page -> bool)
    ensures HtmlPages(a + b, isHtml) == HtmlPages(a, isHtml) + HtmlPages(b, isHtml)
    decreases |a|
  {
    if a == [] {
      assert a + b == b;
    } else {
      var head := if isHtml(a[0]) then [a[0]] else [];
      var ra := HtmlPages(a[1..], isHtml);
      var rb := HtmlPages(b, isHtml);
      assert HtmlPages(a + b, isHtml) == head + HtmlPages(a[1..] + b, isHtml) by {
        assert (a + b)[0] == a[0];
        assert (a + b)[1..] == a[1..] + b;
      }
      HtmlPagesAppend(a[1..], b, isHtml);
      assert head + (ra + rb) == (head + ra) + rb;
    }
  }
}
