# Blog content index, time machine and MDX rendering, in Dafny

This project models the core of a small Next.js blog written in TypeScript:

- **`Blog`** (`lib/blog.ts`): the content reader. `getBlogPosts` lists every
  `.mdx` file's front matter: it uses the effective slug (the front-matter
  `slug`, or else the file name without `.mdx`), falls back to the slug as the
  title, and sorts newest first. `getBlogPost(slug)` scans the directory for
  the first `.mdx` file whose effective slug matches and returns its
  metadata and body.
- **`TimeMachine`** (`app/components/time-machine.tsx`): the interactive
  "rolodex" of post cards. It covers the first card shown, the snap-on-release
  drag logic, arrow-key navigation, the wheel tension that snaps past ±1, the
  timeline scrubber's nearest-post search, the date-sorted timeline bounds and
  the tick marks.
- **`Mdx`** (`lib/mdx.ts`): the code-fence meta transformer, which writes
  `data-title` from the leftmost `title="…"`, `data-line-numbers` when the meta
  mentions `showLineNumbers`, and `data-line` on each line. Also the fixed,
  ordered remark and rehype plugin lists.
- **`MdxComponents`** (`mdx-components.tsx`): the component table. It models
  the defaults with the caller's overrides spread last, the `pre` renderer
  that passes the fence title to the code block, and the `img` renderer with
  its `|wide` alt convention and its title-as-caption figure.
- **`Strings`** and **`Wrappers`**: the string operations the source borrows
  from JavaScript: `endsWith`, `includes`, first-occurrence `replace` and
  `trim`. Also `Option` and the truthiness of an optional string
  (`x || fallback`).

The file system and the front-matter parser are outside the model. A content
directory is a value: either `Missing`, or the files in scan order, each
holding its parsed front matter and body. A post's `date` holds both its text
and the time stamp `new Date(date).getTime()` would give. The current time
(`new Date()`, used when no post is dated) is a parameter `now`.

JavaScript's sort is stable, so with a consistent comparator entries that
compare equal keep their order. This comparator returns 0 whenever either side
is undated, so once undated posts are present it is not a consistent order, and
the result is then implementation-defined. The model fixes a concrete
algorithm: a stable insertion sort that uses the source's comparator unchanged.
The proved facts are:

- the listing is a permutation of the mapped entries;
- dated entries come newest first;
- entries with the same date key keep their scan order, including all the
  undated entries among themselves.

The listing is sometimes described as keeping undated posts in scan order
relative to their dated neighbours as well. The comparator does not promise
that, and under this sort it fails: `Blog.UndatedEntryCanBeOvertaken` shows a
newer dated post moving in front of an undated one. Another sort algorithm
may order even the dated posts differently when undated posts are present;
only when every post is dated does the program itself promise newest first
(see "## Left out").

## Model

| member | source | states |
|---|---|---|
| Strings.EndsWith | lib/blog.ts:25 | `s.endsWith(suffix)`: the last `|suffix|` characters of the text are the suffix; its uses are proved through `Blog.FileSlug` and `Blog.MdxFiles` |
| Strings.Contains | mdx-components.tsx:73 | `s.includes(pat)`: the pattern occurs at some position; `Strings.IndexOf` finds one exactly when it holds |
| Strings.IndexOf | mdx-components.tsx:73 | the index found is the first occurrence of the pattern, and there is one exactly when the text contains the pattern |
| Strings.ReplaceFirst | mdx-components.tsx:74 | with no occurrence the text is unchanged; otherwise only the first occurrence is replaced |
| Strings.Trim | mdx-components.tsx:74 | the result is the text with its leading and trailing white space removed, and no white space is left at either end |
| Blog.FileSlug | lib/blog.ts:27 | for a `.mdx` name, the slug plus `.mdx` is the name again; any other name is unchanged |
| Blog.EffectiveSlug | lib/blog.ts:33 | the front-matter slug when truthy; otherwise, for a `.mdx` file, the name without `.mdx`, and any other name unchanged |
| Blog.MdxFiles | lib/blog.ts:25 | only `.mdx` files are kept, each as often as in the scan; a file is kept exactly when it is in the scan and ends in `.mdx` |
| Blog.MdxFilesAppend | lib/blog.ts:25 | filtering a concatenation filters each part in turn, so the kept files stay in scan order |
| Blog.MdxFilesSingle | lib/blog.ts:25 | a single file is kept exactly when its name ends in `.mdx`; no files keep nothing |
| Blog.Summarize | lib/blog.ts:26-43 | the slug is the front-matter slug when truthy, else the file name without `.mdx`; the title falls back to the slug; the other fields are copied |
| Blog.Summaries | lib/blog.ts:26-43 | one entry per file, in scan order |
| Blog.GetBlogPosts | lib/blog.ts:17-21 | a missing directory lists nothing |
| Blog.ListingCorrect | lib/blog.ts:23-49 | one entry per `.mdx` file, as a permutation; dated entries newest first; entries with the same date key keep scan order |
| Blog.InsertMultiset | lib/blog.ts:44-47 | inserting an entry adds exactly that entry |
| Blog.InsertKeepsOrder | lib/blog.ts:44-47 | inserting into a dated-newest-first run keeps it newest first |
| Blog.InsertWithKey | lib/blog.ts:44-47 | insertion puts the new entry after every entry that has its date key |
| Blog.Insert | lib/blog.ts:44-47 | one insertion step of the sort with the source's comparator; `Blog.InsertMultiset`, `Blog.InsertKeepsOrder` and `Blog.InsertWithKey` state what it does |
| Blog.SortNewestFirst | lib/blog.ts:44-47 | the listing sort; `Blog.SortNewestFirstCorrect` proves it a permutation, newest first among dated entries and stable within each date key |
| Blog.SortNewestFirstCorrect | lib/blog.ts:44-47 | the sort is a permutation, orders dated entries newest first and is stable within each date key |
| Blog.FirstMatchFrom | lib/blog.ts:62-76 | the index of the first `.mdx` file at or after the start whose effective slug is the one sought, or none when there is no such file |
| Blog.FindPost | lib/blog.ts:52-95 | none exactly when the directory is missing or no file matches; otherwise the first matching file's metadata and body, with the requested slug |
| Blog.FullPost | lib/blog.ts:86-94 | the post a matching file yields; `Blog.FindPost` and `Blog.LookupResultIsListed` state its slug, title and body |
| Blog.GetBlogPost | lib/blog.ts:52-95 | the scan with `continue` and `break`, then the re-read of the target, returns what `FindPost` describes |
| Blog.ListedFromMdx | lib/blog.ts:24-43 | every listing entry is the summary of some `.mdx` file of the directory |
| Blog.MdxListed | lib/blog.ts:24-43 | every `.mdx` file's summary is in the listing |
| Blog.ListedIff | lib/blog.ts:17-50 | an entry is in the listing exactly when some `.mdx` file summarizes to it |
| Blog.LookupIffListed | lib/blog.ts:33 | a slug is found by the lookup exactly when the listing holds an entry with that slug |
| Blog.LookupResultIsListed | lib/blog.ts:86-94 | the looked-up post without its body is an entry of the listing |
| Blog.FrontMatterSlugOverridesFileName | lib/blog.ts:71 | `foo.mdx` with front-matter slug `custom` is found as `custom` and not as `foo` |
| Blog.NewerEntrySortedFirst | lib/blog.ts:44-47 | of two dated entries the newer is sorted first in either scan order |
| Blog.NewerPostListedFirst | lib/blog.ts:17-50 | two dated posts are listed newest first in either scan order |
| Blog.UndatedEntryCanBeOvertaken | lib/blog.ts:44-47 | older, undated, newer in scan order are listed newer, older, undated |
| TimeMachine.InitialIndex | app/components/time-machine.tsx:23 | the first card is at most 4 and a real card when there are posts; it is 4 only from 12 posts on, and otherwise a third of the post count rounded down |
| TimeMachine.StepIndex | app/components/time-machine.tsx:33 | `Math.max(0, Math.min(count - 1, index + direction))`; `TimeMachine.StepIndexStaysInRange` proves it stays in range and moves by the step when it can |
| TimeMachine.StepIndexStaysInRange | app/components/time-machine.tsx:33 | a clamped step from a valid index stays valid; it moves by the step inside the range and stays at the end otherwise |
| TimeMachine.Rolodex.constructor | app/components/time-machine.tsx:23-26 | the state starts at the initial card with no tension |
| TimeMachine.Rolodex.Release | app/components/time-machine.tsx:30-37 | past the 0.25 threshold the active card moves one step in the drag's direction, clamped, else stays; the tension resets to 0 |
| TimeMachine.Rolodex.KeyDown | app/components/time-machine.tsx:41-49 | ArrowUp/ArrowLeft move back one card (not below 0); ArrowDown/ArrowRight move forward (not past the last); other keys change nothing |
| TimeMachine.Rolodex.Wheel | app/components/time-machine.tsx:63-80 | a total tension beyond ±1 snaps one card in its direction and resets the tension; otherwise the tension becomes the new total; the tension stays in [-1, 1] |
| TimeMachine.Rolodex.Scrub | app/components/time-machine.tsx:266-278 | the active card becomes the dated post nearest the pointer time, or 0 when no post is dated |
| TimeMachine.NearestPost | app/components/time-machine.tsx:267-277 | 0 when no post is dated; otherwise a dated post at least as near as every dated post, and strictly nearer than every earlier dated post |
| TimeMachine.InsertAscending | app/components/time-machine.tsx:226-228 | insertion into an ascending run keeps it ascending and adds exactly the new time |
| TimeMachine.SortAscending | app/components/time-machine.tsx:226-228 | the result is ascending and a permutation of the input |
| TimeMachine.SortedByDate | app/components/time-machine.tsx:226-228 | the dated posts' times, ascending, as a permutation |
| TimeMachine.DatedTimes | app/components/time-machine.tsx:226 | the dated posts' times in post order; `TimeMachine.DatedTimesAppend`, `TimeMachine.DatedTimesSingle` and `TimeMachine.DatedTimesMembers` pin it |
| TimeMachine.DatedTimesAppend | app/components/time-machine.tsx:226 | the dated times of two runs of posts are those of each run in turn, so post order and every dated post are kept |
| TimeMachine.DatedTimesSingle | app/components/time-machine.tsx:226 | one post contributes its time exactly when it is dated; no posts contribute nothing |
| TimeMachine.DatedTimesMembers | app/components/time-machine.tsx:226 | every dated post's time is in the dated times and every dated time is a post's date; there are none exactly when no post is dated |
| TimeMachine.TimelineBounds | app/components/time-machine.tsx:229-230 | the oldest and newest times bound every dated post, are post dates when a post is dated, and are both `now` when none is |
| TimeMachine.OldestTime | app/components/time-machine.tsx:229 | the first sorted date, or `now`; `TimeMachine.TimelineBounds` proves it is at most every dated post and itself a post date |
| TimeMachine.NewestTime | app/components/time-machine.tsx:230 | the last sorted date, or `now`; `TimeMachine.TimelineBounds` proves it is at least every dated post and itself a post date |
| TimeMachine.TotalDays | app/components/time-machine.tsx:231 | the span from oldest to newest in days, rounded up, as `TimeMachine.CeilDiv` states |
| TimeMachine.CeilDiv | app/components/time-machine.tsx:231 | the smallest integer `r` with `a <= r * b` |
| TimeMachine.TickCount | app/components/time-machine.tsx:234 | one tick per started week, clamped to 10..40 |
| TimeMachine.FirstNearFrom | app/components/time-machine.tsx:241-243 | the first post dated strictly within four days of the tick, or -1 exactly when no post is |
| TimeMachine.TickTime | app/components/time-machine.tsx:238 | tick `i` of `tickCount`, spread evenly from oldest to newest; `TimeMachine.TickTimeEnds` proves it starts at the oldest and ends at the newest |
| TimeMachine.TickTimeEnds | app/components/time-machine.tsx:238 | the first tick is at the oldest time and tick `tickCount` at the newest |
| TimeMachine.BuildTicks | app/components/time-machine.tsx:233-250 | `tickCount + 1` ticks (11 to 41), evenly spaced from the oldest to the newest time; a tick has a post exactly when some post is near it |
| Mdx.QuoteFreeRun | lib/mdx.ts:19 | the longest run of non-quote characters from a position: quote-free, and followed by a quote or the end |
| Mdx.TitleMatchAt | lib/mdx.ts:19 | the capture of the `title="…"` pattern matched at one position, unique, or none when it does not match there |
| Mdx.TitleMatchAtFacts | lib/mdx.ts:19 | after `title="`, a match captures exactly the non-empty quote-free run closed by a quote |
| Mdx.FindTitleFrom | lib/mdx.ts:19 | the leftmost match at or after a position, or none when there is none |
| Mdx.TitleCapture | lib/mdx.ts:19-20 | a title exactly when the pattern matches; the leftmost match's capture; never empty, never holding a quote |
| Mdx.PreProperties | lib/mdx.ts:16-27 | with a truthy meta, `data-title` is the captured title and `data-line-numbers` is `""` when `showLineNumbers` occurs; everything else is kept |
| Mdx.Pre | lib/mdx.ts:16-27 | the `pre` hook writes the `<pre>` element's properties in place, as `PreProperties` says |
| Mdx.Line | lib/mdx.ts:28-30 | the `line` hook sets `data-line` to the line number and leaves the other properties alone |
| Mdx.TitleOnlyMeta | lib/mdx.ts:19-21 | the meta `title="name"` yields the title `name` for any non-empty quote-free name |
| Mdx.PluginOrder | lib/mdx.ts:33-53 | GFM runs before image unwrapping and heading slugs before highlighting; the transformers are meta, diff, highlight, word highlight in that order |
| MdxComponents.UseMDXComponents | mdx-components.tsx:20-124 | the keys are the defaults' plus the caller's; a caller's entry wins over the default |
| MdxComponents.DefaultRenderers | mdx-components.tsx:23-70 | unless overridden, h1–h3 render as heading links at their own level, `pre` as the code block and `img` as the image renderer |
| MdxComponents.RenderPre | mdx-components.tsx:63-69 | the `<pre>` props pass through unchanged and the block's title is their `data-title` |
| MdxComponents.FenceTitleReachesCodeBlock | mdx-components.tsx:63-69 | a fence title captured by the meta transformer becomes the code block's title |
| MdxComponents.MainRsFence | mdx-components.tsx:64 | a fence with meta `title="main.rs"` gets the code block title `main.rs` |
| MdxComponents.AltText | mdx-components.tsx:72 | `props.alt || ''`; `MdxComponents.MissingAltIsEmpty` shows a missing alt gives the empty text |
| MdxComponents.IsWide | mdx-components.tsx:73 | `alt.includes('|wide')`, through `Strings.Contains` |
| MdxComponents.CleanAlt | mdx-components.tsx:74 | without `|wide` the alt is only trimmed; otherwise its first `|wide` is cut out and the rest trimmed |
| MdxComponents.RenderImg | mdx-components.tsx:71-105 | a figure exactly when the title is truthy, with the title as caption and the figure wide when the alt holds `|wide`; its image is full-width, uses the cleaned alt and has no title; otherwise a bare image, wide or full-width, that keeps its title |
| MdxComponents.MissingAltIsEmpty | mdx-components.tsx:72 | an image without alt text gets an empty alt and is never wide |
| MdxComponents.MarkerFirstAtEnd | mdx-components.tsx:73-74 | a `|wide` appended to an alt that holds none is that alt's first marker |
| MdxComponents.WideSuffix | mdx-components.tsx:73-74 | for an alt whose only `|wide` is at its end: it is wide and cleans to the trimmed rest, and without the suffix it is not wide |
| MdxComponents.SecondMarkerKept | mdx-components.tsx:73-74 | when the alt ends in two markers and holds no other, only the first is cut out: it cleans to the trimmed rest with one `|wide` still at its end |
| MdxComponents.DoubleWideAlt | mdx-components.tsx:73-74 | `a|wide|wide` cleans to `a|wide`, which is still wide |
| MdxComponents.WideCaptionedImage | mdx-components.tsx:71-93 | a captioned image with a `|wide` alt is a wide figure around a full-width, untitled image |

## Left out

- File system access and front-matter parsing (`fs`, `path`, `gray-matter`) are not modelled: the directory is a value holding each file's parsed front matter and body.
- Date parsing (`new Date(text).getTime()`) is not modelled: each date carries its time stamp, and an unparsable date (NaN) is not represented.
- `Blog.GetBlogPosts`: the JavaScript engine's sort algorithm is not modelled; the model uses a stable insertion sort. The comparator returns 0 whenever either side is undated, so it is not a consistent order once undated posts are present, and an engine may then leave even dated posts out of newest-first order (on older, undated, newer, both neighbour comparisons are 0, so a merge sort that looks for already-sorted runs can return the input unchanged). The program promises newest first only when every post is dated; `Blog.ListingCorrect`'s newest-first clause and `Blog.UndatedEntryCanBeOvertaken` on listings with undated posts describe the chosen insertion sort, not every engine.
- The current time, `new Date()`, is the parameter `now`, used once for both the oldest and the newest bound.
- `TimeMachine.Rolodex.Wheel`: the input is the wheel delta already scaled by 0.012. The two updates the source defers with a zero-delay timer are made right away, and the index the handler captured is taken to be the current one. The 40 ms debounce that calls `handleRelease` is left out.
- `TimeMachine.Rolodex.Release`: reads the current tension and active card. In the program its only caller is the 40 ms wheel debounce, installed by an effect that depends on the post count and the active card only, so that call sees the tension of the render that installed the effect: 0 after mount and after every snap. For example, one wheel step of 0.5 right after mount is followed by a release that sees 0 and does not snap, where the model's `Wheel(0.5)` then `Release()` moves one card. This comes from React's closure semantics and is not modelled.
- `MdxComponents.WideSuffix`: the rule that an alt ending in `|wide` renders without the suffix holds only when the alt holds one marker. The program cuts out only the first `|wide` (`MdxComponents.SecondMarkerKept`, `MdxComponents.DoubleWideAlt`), and the model follows the program.
- `TimeMachine.Rolodex.Scrub`: the pointer's position is the target time, which the caller computes from the track's geometry.
- The timeline's presentation (tick labels, the current-post marker position, card transforms and animation) is floating-point layout and is not modelled; times are exact reals.
- `TimeMachine.BuildTicks`: does not model the `tickDate` `Date` object, only its time stamp.
- JavaScript's `trim` removes every Unicode white-space character; `Strings.Trim` removes only space, tab, line feed and carriage return.
- The class names the renderers emit are reduced to the one that varies (`wide-image` vs `w-full`). `MdxComponents.RenderImg` assumes the image props carry no `className` of their own, which the spread would otherwise let override it.
- The anchor, blockquote and table renderers wrap their children in styling; the anchor also forwards `href` and drops every other prop. The model records which component renders them and nothing more.
- The code-block, heading-link, image-carousel and table components are not part of this model.
- The third-party plugins (GFM, image unwrapping, heading slugs, Shiki and its notation transformers) are represented by name and order only.
- The meta transformer's hooks see the fence's meta through Shiki's `this.options.meta.__raw`; the model passes it as an argument.
