# Jekyll site extensions: posts, label maps, category pages and audio-format feeds

This project models the plugin file `plugins/jekyll_extensions/site.rb`. The file
reopens Jekyll's `Site` class, adds an `audioformats` accessor, and replaces or
adds seven methods:

- `reset` empties the site and checks `limit_posts`.
- `read_posts` reads the posts. It applies the preview override and the
  visibility test, then files each admitted post under its categories, audio
  formats and tags. Last, it sorts the posts and cuts them to `limit_posts`.
- `site_payload` builds the render payload.
- `write_category_index` adds one category's index page and feed, and
  `write_category_indexes` does so for every category, under a directory named
  by the category's slug. The slug directories sit under `config['category_dir']`,
  or under "categories" when that is not set.
- `write_audioformat_feed` adds one audio format's feed, and
  `write_audioformat_feeds` does so for every audio format, under the format's
  slug directory. These sit under `config['audioformat_feed_dir']`, or under
  "audioformat_feeds" when that is not set.

The Dafny modules:

- `Wrappers`: `Option` and the `Outcome` of an operation that can fail.
- `Slug`: the inline sanitiser `gsub(/_|\P{Word}/, '-').gsub(/-{2,}/, '-').downcase`,
  as three passes: Dashify, Collapse and Downcase. Unicode's word class and
  per-character `downcase` are a parameter (`Chars`). The slug properties hold
  for every class that meets `ValidChars`. The examples need only the ASCII
  behaviour (`AsciiExact`).
- `Posts`: the post record, the preview override, the admission test
  (`Admitted` is the reference list of the posts `read_posts` appends), the
  ascending sort by date, the `limit_posts` cut, and the newest-first order of
  the payload.
- `Buckets`: Ruby's `Hash.new { |hash, key| hash[key] = [] }` as a value with its
  keys in insertion order. It has insert-or-append (`Insert`), filing a post
  under all its labels (`InsertAll`, and the loop `FileUnder`), and filing a
  whole post list (`Classify`). `Filed` is an independent reference definition
  for the contents of one label's list.
- `Pages`: the generated pages and their directories (`JoinPath`, `LabelDir`),
  and the HTML page filter. The page lists are stated for any directory naming
  (`IndexPages`, `FeedPages`). `CategoryPages` and `AudioformatPages` use them
  with the slug directories.
- `SiteModel`: class `Site`, whose fields the methods reassign as `read_posts`,
  `reset` and the generators do in place, plus lemmas about a full
  `reset` + `read_posts` run (`Site.ResetAndRead`).

Behaviour of the code that a reader might not expect, modelled as the code has it:

- `read_posts` sorts `posts` ascending by date and keeps the *last*
  `limit_posts` posts. The kept posts are the newest. The list stays in
  ascending order; only the payload presents it newest first.
- The label maps are filled inside the reading loop, before the cut. A post that
  the cut removes from `posts` stays in its categories, audio formats and tags
  (`SiteModel.BucketsOutliveLimit`).
- A label listed twice in one post files that post twice under the label
  (`Buckets.InsertAllGet`).
- The `.preview-mode` marker is written whenever the override applies, even if
  the post is then rejected because it is dated in the future.
- `reset` empties every collection before it rejects an invalid `limit_posts`.
- Two labels with the same slug share one output directory
  (`Pages.LabelDirCollision`: "Rock & Roll" and "rock___roll").
- Tags are filed but no page or feed is generated for them.

## Model

| member | source | states |
|---|---|---|
| Slug.AsciiCharsValid | plugins/jekyll_extensions/site.rb:135 | the requirements on the character class can be met: the ASCII-only class meets `ValidChars` and `AsciiExact` |
| Slug.Slugify | plugins/jekyll_extensions/site.rb:135 | the three passes in order: Dashify, then Collapse, then Downcase; its shape and idempotence are stated by Slug.SlugifyShape and Slug.SlugifyIdempotent, and two examples by Slug.SlugifyRockAndRoll and Slug.SlugifyUnderscores |
| Slug.Dashify | plugins/jekyll_extensions/site.rb:135 | the first gsub, which turns every '_' and every non-word character into '-'; what it does at each position is stated by Slug.DashifyAt |
| Slug.Collapse | plugins/jekyll_extensions/site.rb:135 | `gsub(/-{2,}/, '-')`; stated by Slug.CollapseNoDoubleDash, Slug.CollapseKeepsNonDashes, Slug.CollapseSubset and Slug.CollapseFixesNoDoubleDash |
| Slug.Downcase | plugins/jekyll_extensions/site.rb:135 | `downcase`; what it does at each position is stated by Slug.DowncaseAt |
| Slug.DashifyAt | plugins/jekyll_extensions/site.rb:135 | the first gsub keeps the length and turns exactly the '_' and the non-word characters into '-' |
| Slug.CollapseHead | plugins/jekyll_extensions/site.rb:135 | collapsing dash runs keeps the first character |
| Slug.CollapseSubset | plugins/jekyll_extensions/site.rb:135 | collapsing only drops characters: it never grows the string, and every output character occurs in the input |
| Slug.CollapseNoDoubleDash | plugins/jekyll_extensions/site.rb:135 | after `gsub(/-{2,}/, '-')` no two dashes are adjacent |
| Slug.CollapseKeepsNonDashes | plugins/jekyll_extensions/site.rb:135 | collapsing keeps every non-dash character, in order |
| Slug.CollapseFixesNoDoubleDash | plugins/jekyll_extensions/site.rb:135 | a string without "--" is unchanged by the collapse |
| Slug.CollapsePrefix | plugins/jekyll_extensions/site.rb:135 | a prefix without "--" and without a dash-dash junction passes through the collapse unchanged |
| Slug.CollapseDropsDash | plugins/jekyll_extensions/site.rb:135 | a dash before a dash is dropped |
| Slug.CollapseDashRun | plugins/jekyll_extensions/site.rb:135 | a run of three dashes between two run-free strings shrinks to one dash |
| Slug.DowncaseAt | plugins/jekyll_extensions/site.rb:135 | `downcase` keeps the length and lower-cases character by character |
| Slug.SlugifyShape | plugins/jekyll_extensions/site.rb:135 | for any valid character class, every slug has only dashes and word characters other than '_', no "--", and no character that `downcase` would change |
| Slug.SlugifyFixesSlugs | plugins/jekyll_extensions/site.rb:135 | a string of slug shape is its own slug |
| Slug.SlugifyIdempotent | plugins/jekyll_extensions/site.rb:135 | for any valid character class, slugifying a slug again changes nothing |
| Slug.SlugifyRockAndRoll | plugins/jekyll_extensions/site.rb:135 | "Rock & Roll" becomes "rock-roll" under any character class that is exact on ASCII |
| Slug.SlugifyUnderscores | plugins/jekyll_extensions/site.rb:163 | "rock___roll" becomes "rock-roll" under any character class that is exact on ASCII |
| Posts.ForcedByPreview | plugins/jekyll_extensions/site.rb:85 | the override applies iff preview mode is on and the front matter has `published: false`; its effect is stated by Posts.Preview |
| Posts.Visible | plugins/jekyll_extensions/site.rb:92 | a post is kept iff it is published and the site allows future posts or its date is no later than the site time; used by Posts.AdmittedMembers and Posts.AdmittedIff |
| Posts.Admitted | plugins/jekyll_extensions/site.rb:79-97 | the reference list of the posts the loop appends; its members are stated by Posts.AdmittedMembers and Posts.AdmittedIff, one step by Posts.AdmittedStep |
| Posts.Preview | plugins/jekyll_extensions/site.rb:85-90 | in preview mode a post whose front matter says `published: false` becomes published; any other post is unchanged; only `published` can change |
| Posts.AdmittedSound | plugins/jekyll_extensions/site.rb:92-97 | every appended post is visible and is an entry after the override; no more posts than entries |
| Posts.AdmittedComplete | plugins/jekyll_extensions/site.rb:92-97 | every entry that is visible after the override is appended |
| Posts.AdmittedMembers | plugins/jekyll_extensions/site.rb:92-97 | a post is appended iff it is an entry after the override and is published and (future allowed or dated no later than the site time); no more posts than entries |
| Posts.AdmittedStep | plugins/jekyll_extensions/site.rb:79-97 | one more entry appends its overridden post exactly when that post is visible |
| Posts.AdmittedIff | plugins/jekyll_extensions/site.rb:92-97 | with distinct entry names, entry i is admitted iff it is visible after the override, and a rejected entry leaves no post of its name |
| Posts.PreviewScenario | plugins/jekyll_extensions/site.rb:85-97 | a `published: false` post dated no later than the site time is admitted, force-published, in preview mode and is not admitted otherwise |
| Posts.InsertByDate | plugins/jekyll_extensions/site.rb:101 | inserting adds exactly that post: the result is the old list plus the post, as a multiset |
| Posts.InsertByDateHead | plugins/jekyll_extensions/site.rb:101 | the insertion puts first either the new post or the old first post |
| Posts.InsertByDateSorted | plugins/jekyll_extensions/site.rb:101 | inserting into a date-sorted list keeps it sorted |
| Posts.SortByDate | plugins/jekyll_extensions/site.rb:101 | `sort!` yields a permutation of the posts, ascending by date |
| Posts.Limit | plugins/jekyll_extensions/site.rb:104-107 | without a limit the list is unchanged; with limit N the result is the suffix of length min(N, length) |
| Posts.SortedSuffix | plugins/jekyll_extensions/site.rb:101-107 | every suffix of a date-sorted list, such as the kept posts, is date-sorted |
| Posts.LimitKeepsNewest | plugins/jekyll_extensions/site.rb:101-107 | on a sorted list the cut is sorted, and every post before the kept suffix (every dropped post) is no newer than every kept post |
| Posts.LimitSubset | plugins/jekyll_extensions/site.rb:104-107 | the cut only removes posts: every kept post was in the list |
| Posts.Reverse | plugins/jekyll_extensions/site.rb:56 | reversal keeps the length and maps position i to position n-1-i |
| Posts.ReverseMultiset | plugins/jekyll_extensions/site.rb:56 | reversal is a permutation |
| Posts.NewestFirst | plugins/jekyll_extensions/site.rb:56 | the payload's posts are a permutation of `posts`, newest first |
| Buckets.Insert | plugins/jekyll_extensions/site.rb:94 | `hash[k] << p` appends p to k's list (an empty one when k is new), leaves other keys alone, keeps the hash well formed, and adds k as a key after the old ones |
| Buckets.InsertAll | plugins/jekyll_extensions/site.rb:94-96 | `hash[k] << p` for each label k of the post, in order; its lists are stated by Buckets.InsertAllGet and its keys by Buckets.InsertAllKeys |
| Buckets.CountPositive | plugins/jekyll_extensions/site.rb:94-96 | a label occurs in a post's label list iff its count there is positive |
| Buckets.InsertAllGet | plugins/jekyll_extensions/site.rb:94-96 | filing a post under its labels appends it to each label's list once per listing of that label |
| Buckets.InsertAllKeys | plugins/jekyll_extensions/site.rb:94-96 | filing keeps the hash well formed; the keys become the old keys plus exactly the post's labels, old keys first |
| Buckets.FileUnder | plugins/jekyll_extensions/site.rb:94 | the `each` loop over the labels computes the same hash as filing the post under all its labels |
| Buckets.Classify | plugins/jekyll_extensions/site.rb:92-97 | filing a whole list of posts on one axis; its lists are stated by Buckets.ClassifyGet and Buckets.ClassifyMembers, its keys by Buckets.ClassifyKeys and Buckets.ClassifyWellFormed |
| Buckets.ClassifyStep | plugins/jekyll_extensions/site.rb:92-97 | classifying one more post files it under its labels on that axis |
| Buckets.ClassifyAppend | plugins/jekyll_extensions/site.rb:92-97 | classifying one list and then another is classifying their concatenation |
| Buckets.FiledSnoc | plugins/jekyll_extensions/site.rb:92-97 | the reference list of a label grows by the new post once per listing |
| Buckets.FiledMembers | plugins/jekyll_extensions/site.rb:92-97 | a post is in the reference list of label k iff it is one of the posts and lists k |
| Buckets.ClassifyGet | plugins/jekyll_extensions/site.rb:92-97 | each label's list after classifying is its old list followed by the reference list for that label |
| Buckets.ClassifyWellFormed | plugins/jekyll_extensions/site.rb:92-97 | classifying keeps the hash well formed and keeps the old keys first, in order |
| Buckets.DeclaredMembers | plugins/jekyll_extensions/site.rb:92-97 | a label is among the labels the posts declare iff some post lists it |
| Buckets.ClassifyKeys | plugins/jekyll_extensions/site.rb:92-97 | after classifying, k is a key iff it was one or the posts declare it |
| Buckets.ClassifyMembers | plugins/jekyll_extensions/site.rb:92-97 | from an empty hash: x is under k iff x is one of the posts and lists k, and k is a key iff some post lists it |
| Pages.JoinPath | plugins/jekyll_extensions/site.rb:135 | the joined path starts with the base and ends with the name; unless the base already ends in '/', exactly one '/' is inserted between them |
| Pages.LabelDir | plugins/jekyll_extensions/site.rb:135 | `File.join(dir, <slug of the label>)`; the directory starts with the base; its shape is stated by Pages.LabelDirShape |
| Pages.LabelDirShape | plugins/jekyll_extensions/site.rb:135 | a label's directory is the base followed by a slug; a label and its slug share a directory |
| Pages.LabelDirCollision | plugins/jekyll_extensions/site.rb:163 | "Rock & Roll" and "rock___roll" get the same directory under any character class that is exact on ASCII |
| Pages.IndexPagesLength | plugins/jekyll_extensions/site.rb:131-136 | two pages per category |
| Pages.IndexPagesAt | plugins/jekyll_extensions/site.rb:131-136 | positions 2i and 2i+1 hold the index page and then the feed of category i, under the directory named for it |
| Pages.CategoryPages | plugins/jekyll_extensions/site.rb:131-136 | the pages `write_category_indexes` adds: two per category; their contents are stated by Pages.CategoryPagesAt |
| Pages.CategoryPagesAt | plugins/jekyll_extensions/site.rb:131-136 | two pages per category; positions 2i and 2i+1 hold the index page and then the feed of category i, under that category's slug directory |
| Pages.FeedPagesLength | plugins/jekyll_extensions/site.rb:159-164 | one feed per audio format |
| Pages.FeedPagesAt | plugins/jekyll_extensions/site.rb:159-164 | position i holds the feed of audio format i, under the directory named for it |
| Pages.AudioformatPages | plugins/jekyll_extensions/site.rb:159-164 | the feeds `write_audioformat_feeds` adds: one per audio format; their contents are stated by Pages.AudioformatPagesAt |
| Pages.AudioformatPagesAt | plugins/jekyll_extensions/site.rb:159-164 | one feed per audio format; position i holds the feed of audio format i, under that format's slug directory |
| Pages.HtmlPages | plugins/jekyll_extensions/site.rb:58 | `html_pages` is no longer than `pages` |
| Pages.HtmlPagesCount | plugins/jekyll_extensions/site.rb:58 | `reject` keeps each HTML page as many times as it occurs in `pages` and drops every other page |
| Pages.HtmlPagesMembers | plugins/jekyll_extensions/site.rb:58 | a page is in `html_pages` iff it is in `pages` and has HTML output |
| Pages.HtmlPagesAppend | plugins/jekyll_extensions/site.rb:58 | `reject` keeps the order: filtering a concatenation concatenates the filtered parts |
| SiteModel.Filled | plugins/jekyll_extensions/site.rb:92-97 | the contents after the admitted posts are appended to `posts` and filed in the three label maps; stated by SiteModel.FilledOne and SiteModel.FilledAppend |
| SiteModel.FilledAppend | plugins/jekyll_extensions/site.rb:92-97 | appending and filing two lists in turn is the same as doing it for their concatenation |
| SiteModel.FilledOne | plugins/jekyll_extensions/site.rb:92-97 | admitting one post appends it to `posts` and files it under each of its labels in all three label maps |
| SiteModel.ReadUpTo | plugins/jekyll_extensions/site.rb:79-97 | the contents after the loop has read the first i entries, one `Filled` per entry; tied to the reference list by SiteModel.ReadUpToAdmitted |
| SiteModel.ReadUpToAdmitted | plugins/jekyll_extensions/site.rb:79-97 | reading the entries one at a time appends and files exactly the admitted posts, in read order |
| SiteModel.MarkerStep | plugins/jekyll_extensions/site.rb:85-89 | one loop round on the marker flag: it says whether any entry read so far was force-published |
| SiteModel.Site.Reset | plugins/jekyll_extensions/site.rb:30-47 | the time is the configured time or now; every collection is emptied; it fails with "Limit posts must be nil or >= 1" iff `limit_posts` is set and below 1, and the collections are emptied on that path too |
| SiteModel.Site.ReadPosts | plugins/jekyll_extensions/site.rb:73-108 | without `_posts` nothing changes; otherwise `posts` becomes the old posts plus the admitted posts, sorted by date and then cut to `limit_posts`, and each label map classifies all admitted posts (before the cut); the marker is written iff some entry was force-published |
| SiteModel.Site.ReadEntries | plugins/jekyll_extensions/site.rb:79-99 | the loop appends exactly the admitted posts and files them in the three maps, keeps the maps well formed, and reports whether any entry was force-published |
| SiteModel.Site.ReadEntry | plugins/jekyll_extensions/site.rb:80-97 | one entry: reports whether the override applied; a visible post is appended and filed, an invisible one changes nothing |
| SiteModel.Site.AddPost | plugins/jekyll_extensions/site.rb:92-97 | appends the post to `posts` and files it under each of its categories, audio formats and tags |
| SiteModel.Site.SortAndLimit | plugins/jekyll_extensions/site.rb:101-107 | `posts` becomes the cut of the sorted posts |
| SiteModel.Site.CategoryBase | plugins/jekyll_extensions/site.rb:133 | the configured `category_dir`, else "categories" |
| SiteModel.Site.AudioformatBase | plugins/jekyll_extensions/site.rb:160 | the configured `audioformat_feed_dir`, else "audioformat_feeds" |
| SiteModel.Site.WriteCategoryIndex | plugins/jekyll_extensions/site.rb:115-128 | appends the category's index page and then its feed |
| SiteModel.Site.WriteCategoryIndexes | plugins/jekyll_extensions/site.rb:131-142 | without a `category_index` layout: fails with "No 'category_index' layout found." and adds nothing; otherwise adds an index and a feed per category key, in key order, under the slug directories (2 pages per key) |
| SiteModel.Site.WriteAudioformatFeed | plugins/jekyll_extensions/site.rb:149-157 | appends the audio format's feed |
| SiteModel.Site.WriteAudioformatFeeds | plugins/jekyll_extensions/site.rb:159-165 | adds one feed per audio-format key, in key order, under the slug directories |
| SiteModel.Site.SitePayload | plugins/jekyll_extensions/site.rb:53-62 | the payload has the site time and pages, the posts as a newest-first permutation, and as `html_pages` the order-keeping filter of `pages` (exactly the HTML pages) |
| SiteModel.ReadAfterResetPosts | plugins/jekyll_extensions/site.rb:101-107 | after reset and read: `posts` is sorted, holds min(limit, admitted) posts, and no dropped post is newer than a kept one |
| SiteModel.ReadAfterResetVisible | plugins/jekyll_extensions/site.rb:85-107 | after reset and read: every post in `posts` is a visible entry after the override |
| SiteModel.ReadAfterResetFiles | plugins/jekyll_extensions/site.rb:92-97 | after reset and read, each label map files exactly the visible entries after the override under the labels they list, and has exactly those labels as keys |
| SiteModel.ReadAfterReset | plugins/jekyll_extensions/site.rb:30-108 | the contents `reset` and `read_posts` leave are sorted, as long as `limit_posts` allows, only visible entries, with label maps that file exactly the visible entries |
| SiteModel.Site.ResetAndRead | plugins/jekyll_extensions/site.rb:30-108 | `reset` then `read_posts` on the site: fails with nothing read iff `limit_posts` is invalid; without `_posts` the site stays empty; otherwise the site's own posts and maps satisfy the after-reset facts, and the marker is written iff some entry was force-published |
| SiteModel.ReadAfterResetLabels | plugins/jekyll_extensions/site.rb:92-97 | after reset and read: a post is under label k iff it is a visible entry after the override and lists k; the map stays well formed, and k is a key iff some post is filed under it |
| SiteModel.BucketsOutliveLimit | plugins/jekyll_extensions/site.rb:92-107 | with `limit_posts: 1` and two posts of category "c", `posts` keeps only the newer post while the category's list keeps both |

## Left out

- Reading the `_posts` directory is left out. This covers `File.exists?`, `Dir['**/*']`, `filter_entries`, `Post.valid?` and `Post.new`. `read_posts` takes whether the directory exists and the entries as already-parsed posts.
- The `OCTOPRESS_ENV` lookup is a `previewMode` parameter. Writing the `.preview-mode` file becomes the boolean `read_posts` returns.
- `Time.parse` and `Time.now` are left out. Times are integers, and `reset` takes the clock's value as a parameter.
- Rendering and writing pages is left out: `render`, `write`, `site.dest`, and the contents of the CategoryIndex, CategoryFeed and AudioFormatFeed classes. These are defined elsewhere and are not part of this model. A generated page is recorded only by its kind, directory and label.
- SiteModel.Site.SitePayload: leaves out `config.merge` and the `categories`, `audioformats` and `tags` entries built by `post_attr_hash`, which is Jekyll's own method and is not part of this model.
- Whether a page is HTML (`page.html?`) is decided by Jekyll; it is a parameter here.
- Posts.SortByDate: posts with the same date keep their read order. Jekyll's `Post#<=>` and its tie-break are not part of this model, and Ruby's `sort!` is not stable.
- Slug.Chars: Unicode's `\p{Word}` table and `downcase` are not modelled. They are a parameter, and the slug properties are proved for every class that meets `ValidChars`: '_' is a word character and '-' is not, lower-casing keeps '-' and '_', keeps word characters, and is idempotent. Whether Ruby's tables meet these conditions is assumed, not proved.
- Slug.Downcase: `downcase` is modelled one character to one character. Mappings that change the length (such as 'İ' to "i̇") are not modelled.
- Pages.JoinPath: `File.join` is modelled as putting one '/' between the base and the name, unless the base already ends in '/'. Other separator cleanup is not modelled.
- Posts.Limit: requires a limit that is unset or at least 0. A negative `limit_posts`, which `reset` rejects, is not modelled (Ruby's slice would give `nil`).
- SiteModel.Site.ReadPosts: requires a `limit_posts` that `reset` accepts.
- Posts are values. The preview override changes a copy of the post. Ruby mutates the shared `Post` object, and no other holder of it is modelled.
- `write_category_indexes` uses `throw` on a string; this is modelled as a `Fail` outcome, and no page is added.
- Layouts are modelled only by their names.
