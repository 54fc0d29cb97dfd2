/**
 * The content index of the blog: `getBlogPosts` lists every post's metadata,
 * newest first, and `getBlogPost` finds one post, with its body, by slug.
 *
 * The content directory is an immutable snapshot: either missing, or the
 * sequence of its files in the order the directory scan returns them, each
 * with its already parsed front matter and body.
 */
module Blog {
  import opened Wrappers
  import opened Strings

  /**
   * A front-matter `date`: the value as written and the millisecond time
   * stamp `new Date(date).getTime()` gives for it.
   */
  datatype PostDate = PostDate(text: string, time: int)

  datatype FrontMatter = FrontMatter(
    slug: Option<string>,
    title: Option<string>,
    subtitle: Option<string>,
    date: Option<PostDate>,
    description: Option<string>,
    image: Option<string>)

  datatype ContentFile = ContentFile(fileName: string, data: FrontMatter, body: string)

  datatype ContentDir = Missing | Present(files: seq<ContentFile>)

  /** A listing entry: a `BlogPost` without its `content`. */
  datatype PostSummary = PostSummary(
    slug: string,
    title: string,
    subtitle: Option<string>,
    date: Option<PostDate>,
    description: Option<string>,
    image: Option<string>)

  datatype BlogPost = BlogPost(
    slug: string,
    title: string,
    subtitle: Option<string>,
    date: Option<PostDate>,
    description: Option<string>,
    image: Option<string>,
    content: string)

  const Extension: string := ".mdx"

  predicate IsMdx(fileName: string)
  {
    EndsWith(fileName, Extension)
  }

  /** `fileName.replace(/\.mdx$/, '')`: the name without a trailing `.mdx`. */
  function FileSlug(fileName: string): (r: string)
    ensures IsMdx(fileName) ==> r + Extension == fileName
    ensures !IsMdx(fileName) ==> r == fileName
  {
    if IsMdx(fileName) then fileName[..|fileName| - |Extension|] else fileName
  }

  /** `data.slug || fileSlug`: the slug a file is listed and looked up under. */
  function EffectiveSlug(f: ContentFile): (r: string)
    ensures Truthy(f.data.slug) ==> r == f.data.slug.value
    ensures !Truthy(f.data.slug) && IsMdx(f.fileName) ==> r + Extension == f.fileName
    ensures !Truthy(f.data.slug) && !IsMdx(f.fileName) ==> r == f.fileName
  {
    OrElse(f.data.slug, FileSlug(f.fileName))
  }

  // ---------------------------------------------------------------------------
  // Listing
  // ---------------------------------------------------------------------------

  /** `fileNames.filter((name) => name.endsWith('.mdx'))`, keeping scan order. */
  function MdxFiles(files: seq<ContentFile>): (r: seq<ContentFile>)
    ensures |r| <= |files|
    ensures forall i :: 0 <= i < |r| ==> IsMdx(r[i].fileName)
    ensures forall f :: multiset(r)[f] == if IsMdx(f.fileName) then multiset(files)[f] else 0
    ensures forall f :: f in r <==> f in files && IsMdx(f.fileName)
  {
    if files == [] then []
    else
      assert files == [files[0]] + files[1..];
      (if IsMdx(files[0].fileName) then [files[0]] else []) + MdxFiles(files[1..])
  }

  /**
   * The filter keeps scan order: filtering a concatenation filters each part
   * in turn, and a single file is kept exactly when it is an `.mdx` file.
   * Together with `MdxFiles([]) == []` these pin the kept files and their order.
   */
  lemma {:induction false} MdxFilesAppend(a: seq<ContentFile>, b: seq<ContentFile>)
    ensures MdxFiles(a + b) == MdxFiles(a) + MdxFiles(b)
  {
    if a == [] {
      assert a + b == b;
    } else {
      var c := a + b;
      assert c[0] == a[0] && c[1..] == a[1..] + b;
      MdxFilesAppend(a[1..], b);
      var head := if IsMdx(a[0].fileName) then [a[0]] else [];
      assert head + (MdxFiles(a[1..]) + MdxFiles(b)) == (head + MdxFiles(a[1..])) + MdxFiles(b);
    }
  }

  /** The filter on one file, and on none. */
  lemma MdxFilesSingle(f: ContentFile)
    ensures MdxFiles([f]) == if IsMdx(f.fileName) then [f] else []
    ensures MdxFiles([]) == []
  {
    assert [f][1..] == [];
  }

  /** The listing entry built from one `.mdx` file (the body is not part of it). */
  function Summarize(f: ContentFile): (r: PostSummary)
    ensures Truthy(f.data.slug) ==> r.slug == f.data.slug.value
    ensures !Truthy(f.data.slug) && IsMdx(f.fileName) ==> r.slug + Extension == f.fileName
    ensures Truthy(f.data.title) ==> r.title == f.data.title.value
    ensures !Truthy(f.data.title) ==> r.title == r.slug
    ensures r.subtitle == f.data.subtitle && r.date == f.data.date
    ensures r.description == f.data.description && r.image == f.data.image
  {
    var slug := EffectiveSlug(f);
    PostSummary(slug, OrElse(f.data.title, slug), f.data.subtitle, f.data.date,
                f.data.description, f.data.image)
  }

  /** The `.map(...)` step: one entry per file, in the same order. */
  function Summaries(files: seq<ContentFile>): (r: seq<PostSummary>)
    ensures |r| == |files|
    ensures forall i :: 0 <= i < |files| ==> r[i] == Summarize(files[i])
  {
    seq(|files|, i requires 0 <= i < |files| => Summarize(files[i]))
  }

  /** `!a.date` is false: the entry has a date, and it is not the empty string. */
  predicate IsDated(p: PostSummary)
  {
    p.date.Some? && p.date.value.text != ""
  }

  /** The sort key of an entry: its time stamp when dated, `None` when not. */
  function DateKey(p: PostSummary): Option<int>
  {
    if IsDated(p) then Some(p.date.value.time) else None
  }

  /**
   * The listing comparator is `0` when either entry lacks a date and
   * `b.time - a.time` otherwise; `a` must be placed before `b` exactly when
   * that value is negative.
   */
  predicate NewerThan(a: PostSummary, b: PostSummary)
  {
    IsDated(a) && IsDated(b) && b.date.value.time - a.date.value.time < 0
  }

  /**
   * Stable insertion of `x` into an already sorted run: `x` goes before the
   * first entry it must precede, otherwise to the end.
   */
  function Insert(x: PostSummary, s: seq<PostSummary>): seq<PostSummary>
  {
    if s == [] then [x]
    else if NewerThan(x, s[0]) then [x] + s
    else [s[0]] + Insert(x, s[1..])
  }

  /** The `.sort(...)` step: each entry, in scan order, inserted into the sorted prefix. */
  function SortNewestFirst(s: seq<PostSummary>): seq<PostSummary>
  {
    if s == [] then [] else Insert(s[|s| - 1], SortNewestFirst(s[..|s| - 1]))
  }

  /** Among the dated entries, a newer one never comes after an older one. */
  predicate DatedNewestFirst(s: seq<PostSummary>)
  {
    forall i, j :: 0 <= i < j < |s| && IsDated(s[i]) && IsDated(s[j]) ==>
      s[i].date.value.time >= s[j].date.value.time
  }

  /** The subsequence of the entries whose date key is `k`. */
  function WithKey(s: seq<PostSummary>, k: Option<int>): seq<PostSummary>
  {
    if s == [] then [] else (if DateKey(s[0]) == k then [s[0]] else []) + WithKey(s[1..], k)
  }

  /** `getBlogPosts()`: filter, map, then sort newest first. */
  function GetBlogPosts(dir: ContentDir): (r: seq<PostSummary>)
    ensures dir.Missing? ==> r == []
  {
    match dir
    case Missing => []
    case Present(files) => SortNewestFirst(Summaries(MdxFiles(files)))
  }

  /**
   * The listing has one entry per `.mdx` file (a permutation of the mapped
   * entries), dated entries come newest first, and entries with the same date
   * key (the same time stamp, or no date at all) keep their scan order.
   */
  lemma ListingCorrect(dir: ContentDir)
    requires dir.Present?
    ensures |GetBlogPosts(dir)| == |MdxFiles(dir.files)|
    ensures multiset(GetBlogPosts(dir)) == multiset(Summaries(MdxFiles(dir.files)))
    ensures DatedNewestFirst(GetBlogPosts(dir))
    ensures forall k :: WithKey(GetBlogPosts(dir), k) == WithKey(Summaries(MdxFiles(dir.files)), k)
  {
    SortNewestFirstCorrect(Summaries(MdxFiles(dir.files)));
  }

  // ---------------------------------------------------------------------------
  // Properties of the listing sort
  // ---------------------------------------------------------------------------

  lemma {:induction false} InsertMultiset(x: PostSummary, s: seq<PostSummary>)
    ensures multiset(Insert(x, s)) == multiset(s) + multiset{x}
  {
    if s != [] && !NewerThan(x, s[0]) {
      InsertMultiset(x, s[1..]);
      assert s == [s[0]] + s[1..];
    }
  }

  lemma {:induction false} InsertKeepsOrder(x: PostSummary, s: seq<PostSummary>)
    requires DatedNewestFirst(s)
    ensures DatedNewestFirst(Insert(x, s))
  {
    if s == [] {
    } else if NewerThan(x, s[0]) {
      var r := [x] + s;
      forall i, j | 0 <= i < j < |r| && IsDated(r[i]) && IsDated(r[j])
        ensures r[i].date.value.time >= r[j].date.value.time
      {
        if i == 0 {
          assert r[j] == s[j - 1];
          if j > 1 { assert s[0].date.value.time >= s[j - 1].date.value.time; }
        } else {
          assert r[i] == s[i - 1] && r[j] == s[j - 1];
        }
      }
    } else {
      var rest := Insert(x, s[1..]);
      DatedNewestFirstTail(s);
      InsertKeepsOrder(x, s[1..]);
      var r := [s[0]] + rest;
      forall i, j | 0 <= i < j < |r| && IsDated(r[i]) && IsDated(r[j])
        ensures r[i].date.value.time >= r[j].date.value.time
      {
        if i == 0 {
          assert r[j] == rest[j - 1];
          HeadNotOlder(x, s, j - 1);
        } else {
          assert r[i] == rest[i - 1] && r[j] == rest[j - 1];
        }
      }
    }
  }

  /** When `x` is not newer than the head, the head is not older than anything inserted behind it. */
  lemma HeadNotOlder(x: PostSummary, s: seq<PostSummary>, k: nat)
    requires s != [] && DatedNewestFirst(s) && !NewerThan(x, s[0])
    requires k < |Insert(x, s[1..])|
    requires IsDated(s[0]) && IsDated(Insert(x, s[1..])[k])
    ensures s[0].date.value.time >= Insert(x, s[1..])[k].date.value.time
  {
    var rest := Insert(x, s[1..]);
    var e := rest[k];
    InsertMultiset(x, s[1..]);
    assert e in multiset(rest);
    if e != x {
      assert e in multiset(s[1..]);
      var m := MemberIndex(s[1..], e);
      assert s[m + 1] == e;
    }
  }

  lemma {:induction false} WithKeyAppend(a: seq<PostSummary>, b: seq<PostSummary>, k: Option<int>)
    ensures WithKey(a + b, k) == WithKey(a, k) + WithKey(b, k)
  {
    if a == [] {
      assert a + b == b;
    } else {
      var c := a + b;
      assert c[0] == a[0] && c[1..] == a[1..] + b;
      var head := if DateKey(a[0]) == k then [a[0]] else [];
      assert WithKey(c, k) == head + WithKey(a[1..] + b, k);
      WithKeyAppend(a[1..], b, k);
      assert head + (WithKey(a[1..], k) + WithKey(b, k)) == (head + WithKey(a[1..], k)) + WithKey(b, k);
    }
  }

  lemma {:induction false} WithKeyNone(s: seq<PostSummary>, k: Option<int>)
    requires forall i :: 0 <= i < |s| ==> DateKey(s[i]) != k
    ensures WithKey(s, k) == []
  {
    if s != [] {
      WithKeyNone(s[1..], k);
    }
  }

  lemma {:induction false} InsertWithKey(x: PostSummary, s: seq<PostSummary>, k: Option<int>)
    requires DatedNewestFirst(s)
    ensures WithKey(Insert(x, s), k) == WithKey(s, k) + (if DateKey(x) == k then [x] else [])
  {
    if s == [] {
      assert WithKey([x], k) == (if DateKey(x) == k then [x] else []) + WithKey([], k);
    } else if NewerThan(x, s[0]) {
      InsertWithKeyInFront(x, s, k);
    } else {
      DatedNewestFirstTail(s);
      InsertWithKey(x, s[1..], k);
      InsertWithKeyBehind(x, s, k);
    }
  }

  /** The `InsertWithKey` case where `x` goes in front of the whole run. */
  lemma InsertWithKeyInFront(x: PostSummary, s: seq<PostSummary>, k: Option<int>)
    requires s != [] && DatedNewestFirst(s) && NewerThan(x, s[0])
    ensures WithKey(Insert(x, s), k) == WithKey(s, k) + (if DateKey(x) == k then [x] else [])
  {
    assert Insert(x, s) == [x] + s;
    assert ([x] + s)[1..] == s;
    assert WithKey([x] + s, k) == (if DateKey(x) == k then [x] else []) + WithKey(s, k);
    if DateKey(x) == k {
      NoPeerBehindNewer(x, s, k);
    }
  }

  /** The `InsertWithKey` case where the head stays in front, given the claim for the tail. */
  lemma InsertWithKeyBehind(x: PostSummary, s: seq<PostSummary>, k: Option<int>)
    requires s != [] && !NewerThan(x, s[0])
    requires WithKey(Insert(x, s[1..]), k) == WithKey(s[1..], k) + (if DateKey(x) == k then [x] else [])
    ensures WithKey(Insert(x, s), k) == WithKey(s, k) + (if DateKey(x) == k then [x] else [])
  {
    var tail := if DateKey(x) == k then [x] else [];
    var head := if DateKey(s[0]) == k then [s[0]] else [];
    var rest := Insert(x, s[1..]);
    assert Insert(x, s) == [s[0]] + rest;
    assert ([s[0]] + rest)[1..] == rest;
    assert WithKey([s[0]] + rest, k) == head + WithKey(rest, k);
    assert WithKey(s, k) == head + WithKey(s[1..], k);
    assert head + (WithKey(s[1..], k) + tail) == (head + WithKey(s[1..], k)) + tail;
  }

  /** Dropping the first entry keeps the dated entries newest first. */
  lemma DatedNewestFirstTail(s: seq<PostSummary>)
    requires s != [] && DatedNewestFirst(s)
    ensures DatedNewestFirst(s[1..])
  {
    forall i, j | 0 <= i < j < |s[1..]| && IsDated(s[1..][i]) && IsDated(s[1..][j])
      ensures s[1..][i].date.value.time >= s[1..][j].date.value.time
    {
      assert s[1..][i] == s[i + 1] && s[1..][j] == s[j + 1];
    }
  }

  /** An entry newer than the head of a sorted run shares its date key with none of the run. */
  lemma NoPeerBehindNewer(x: PostSummary, s: seq<PostSummary>, k: Option<int>)
    requires s != [] && DatedNewestFirst(s) && NewerThan(x, s[0]) && DateKey(x) == k
    ensures WithKey(s, k) == []
  {
    forall i | 0 <= i < |s| ensures DateKey(s[i]) != k {
      if i > 0 && IsDated(s[i]) {
        assert s[0].date.value.time >= s[i].date.value.time;
      }
    }
    WithKeyNone(s, k);
  }

  /**
   * The sort is a permutation, puts dated entries newest first, and keeps the
   * scan order among entries with the same date key (equal dates, or no date).
   */
  lemma {:induction false} SortNewestFirstCorrect(s: seq<PostSummary>)
    ensures |SortNewestFirst(s)| == |s|
    ensures multiset(SortNewestFirst(s)) == multiset(s)
    ensures DatedNewestFirst(SortNewestFirst(s))
    ensures forall k :: WithKey(SortNewestFirst(s), k) == WithKey(s, k)
  {
    if s != [] {
      var init, last := s[..|s| - 1], s[|s| - 1];
      assert s == init + [last];
      SortNewestFirstCorrect(init);
      var sorted := SortNewestFirst(init);
      InsertMultiset(last, sorted);
      InsertKeepsOrder(last, sorted);
      assert |SortNewestFirst(s)| == |multiset(SortNewestFirst(s))|;
      forall k ensures WithKey(SortNewestFirst(s), k) == WithKey(s, k) {
        InsertWithKey(last, sorted, k);
        WithKeyAppend(init, [last], k);
        assert WithKey([last], k) == (if DateKey(last) == k then [last] else []) + WithKey([], k);
      }
    }
  }

  // ---------------------------------------------------------------------------
  // Lookup
  // ---------------------------------------------------------------------------

  /** File `f` is a candidate for slug `slug`: an `.mdx` file whose effective slug equals it. */
  predicate Matches(f: ContentFile, slug: string)
  {
    IsMdx(f.fileName) && EffectiveSlug(f) == slug
  }

  /** Index of the first file at or after `from` that matches `slug`. */
  function FirstMatchFrom(files: seq<ContentFile>, slug: string, from: nat): (r: Option<nat>)
    decreases |files| - from
    ensures r.Some? ==> from <= r.value < |files| && Matches(files[r.value], slug)
    ensures r.Some? ==> forall j :: from <= j < r.value ==> !Matches(files[j], slug)
    ensures r.None? ==> forall j :: from <= j < |files| ==> !Matches(files[j], slug)
  {
    if from >= |files| then None
    else if Matches(files[from], slug) then Some(from)
    else FirstMatchFrom(files, slug, from + 1)
  }

  /** The post a file yields when it is the one looked up: metadata and body. */
  function FullPost(f: ContentFile): BlogPost
  {
    var slug := EffectiveSlug(f);
    BlogPost(slug, OrElse(f.data.title, slug), f.data.subtitle, f.data.date,
             f.data.description, f.data.image, f.body)
  }

  /** A post without its body: what the listing holds for it. */
  function WithoutContent(p: BlogPost): PostSummary
  {
    PostSummary(p.slug, p.title, p.subtitle, p.date, p.description, p.image)
  }

  /** What `getBlogPost(slug)` returns: the first matching file in scan order. */
  function FindPost(dir: ContentDir, slug: string): (r: Option<BlogPost>)
    ensures dir.Missing? ==> r.None?
    ensures r.None? <==> dir.Missing? || forall i :: 0 <= i < |dir.files| ==> !Matches(dir.files[i], slug)
    ensures r.Some? ==> r.value.slug == slug
    ensures r.Some? ==>
      exists i :: 0 <= i < |dir.files| && Matches(dir.files[i], slug)
        && (forall j :: 0 <= j < i ==> !Matches(dir.files[j], slug))
        && r.value == FullPost(dir.files[i])
        && r.value.content == dir.files[i].body
        && WithoutContent(r.value) == Summarize(dir.files[i])
  {
    match dir
    case Missing => None
    case Present(files) =>
      match FirstMatchFrom(files, slug, 0)
      case None => None
      case Some(i) => Some(FullPost(files[i]))
  }

  /** A matching file with no match before it is the one the lookup finds. */
  lemma FirstMatchFound(files: seq<ContentFile>, slug: string, i: nat)
    requires i < |files| && Matches(files[i], slug)
    requires forall j :: 0 <= j < i ==> !Matches(files[j], slug)
    ensures FindPost(Present(files), slug) == Some(FullPost(files[i]))
  {
    var r := FirstMatchFrom(files, slug, 0);
    assert r.Some?;
    assert r.value <= i;
    assert Matches(files[r.value], slug);
    assert r.value == i;
  }

  /** With no matching file, the lookup finds nothing. */
  lemma NoMatchFound(files: seq<ContentFile>, slug: string)
    requires forall j :: 0 <= j < |files| ==> !Matches(files[j], slug)
    ensures FindPost(Present(files), slug).None?
  {
  }

  /** `getBlogPost(slug)`: a scan with `continue` and `break`, then one more read of the target. */
  method GetBlogPost(dir: ContentDir, slug: string) returns (r: Option<BlogPost>)
    ensures r == FindPost(dir, slug)
  {
    if dir.Missing? {
      return None;
    }
    var files := dir.files;
    var targetFile: Option<ContentFile> := None;
    ghost var at: nat := 0;
    for i := 0 to |files|
      invariant targetFile.None?
      invariant forall j :: 0 <= j < i ==> !Matches(files[j], slug)
    {
      var fileName := files[i].fileName;
      if !IsMdx(fileName) {
        continue;
      }
      var fileSlug := FileSlug(fileName);
      var postSlug := OrElse(files[i].data.slug, fileSlug);
      if postSlug == slug {
        targetFile := Some(files[i]);
        at := i;
        break;
      }
    }
    if targetFile.None? {
      NoMatchFound(files, slug);
      return None;
    }
    FirstMatchFound(files, slug, at);
    var f := targetFile.value;
    r := Some(BlogPost(OrElse(f.data.slug, FileSlug(f.fileName)), OrElse(f.data.title, slug),
                       f.data.subtitle, f.data.date, f.data.description, f.data.image, f.body));
  }

  // ---------------------------------------------------------------------------
  // Listing and lookup agree
  // ---------------------------------------------------------------------------

  /** Every listing entry is the summary of some `.mdx` file. */
  lemma ListedFromMdx(dir: ContentDir, e: PostSummary) returns (i: nat)
    requires dir.Present? && e in GetBlogPosts(dir)
    ensures i < |dir.files| && IsMdx(dir.files[i].fileName) && Summarize(dir.files[i]) == e
  {
    var m := MdxFiles(dir.files);
    var entries := Summaries(m);
    ListingCorrect(dir);
    assert e in multiset(GetBlogPosts(dir));
    assert e in multiset(entries);
    var k := MemberIndex(entries, e);
    assert m[k] in m;
    i := MemberIndex(dir.files, m[k]);
  }

  /** Every `.mdx` file's summary is a listing entry. */
  lemma MdxListed(dir: ContentDir, i: nat)
    requires dir.Present? && i < |dir.files| && IsMdx(dir.files[i].fileName)
    ensures Summarize(dir.files[i]) in GetBlogPosts(dir)
  {
    var m := MdxFiles(dir.files);
    var entries := Summaries(m);
    ListingCorrect(dir);
    assert dir.files[i] in m;
    var k := MemberIndex(m, dir.files[i]);
    assert entries[k] == Summarize(dir.files[i]);
    assert entries[k] in multiset(entries);
    assert entries[k] in multiset(GetBlogPosts(dir));
  }

  /** The listing holds exactly the summaries of the directory's `.mdx` files. */
  lemma ListedIff(dir: ContentDir, e: PostSummary)
    ensures e in GetBlogPosts(dir) <==>
      dir.Present? && exists i :: 0 <= i < |dir.files| && IsMdx(dir.files[i].fileName) && Summarize(dir.files[i]) == e
  {
    if dir.Present? {
      if e in GetBlogPosts(dir) {
        var i := ListedFromMdx(dir, e);
      }
      if i :| 0 <= i < |dir.files| && IsMdx(dir.files[i].fileName) && Summarize(dir.files[i]) == e {
        MdxListed(dir, i);
      }
    }
  }

  /** The lookup for `slug` finds a post iff the listing holds an entry with that slug. */
  lemma LookupIffListed(dir: ContentDir, slug: string)
    ensures FindPost(dir, slug).Some? <==> exists e :: e in GetBlogPosts(dir) && e.slug == slug
  {
    if dir.Present? {
      var files := dir.files;
      var found := FirstMatchFrom(files, slug, 0);
      if found.Some? {
        MdxListed(dir, found.value);
        assert Summarize(files[found.value]).slug == slug;
      }
      if e :| e in GetBlogPosts(dir) && e.slug == slug {
        var i := ListedFromMdx(dir, e);
        assert Matches(files[i], slug);
      }
    }
  }

  /** A post the lookup returns, stripped of its body, is an entry of the listing. */
  lemma LookupResultIsListed(dir: ContentDir, slug: string)
    requires FindPost(dir, slug).Some?
    ensures WithoutContent(FindPost(dir, slug).value) in GetBlogPosts(dir)
  {
    var i := FirstMatchFrom(dir.files, slug, 0).value;
    assert WithoutContent(FindPost(dir, slug).value) == Summarize(dir.files[i]);
    ListedIff(dir, Summarize(dir.files[i]));
  }

  /** A front-matter slug replaces the file name: `foo.mdx` with `slug: custom` is found as `custom` only. */
  lemma {:induction false} FrontMatterSlugOverridesFileName(data: FrontMatter, body: string)
    requires data.slug == Some("custom")
    ensures FindPost(Present([ContentFile("foo.mdx", data, body)]), "custom").Some?
    ensures FindPost(Present([ContentFile("foo.mdx", data, body)]), "foo").None?
  {
    var f := ContentFile("foo.mdx", data, body);
    assert Matches(f, "custom");
    assert !Matches(f, "foo");
  }

  /** Of two dated entries, the sort puts the newer first, whatever their scan order. */
  lemma NewerEntrySortedFirst(older: PostSummary, newer: PostSummary)
    requires IsDated(older) && IsDated(newer)
    requires older.date.value.time < newer.date.value.time
    ensures SortNewestFirst([older, newer]) == [newer, older]
    ensures SortNewestFirst([newer, older]) == [newer, older]
  {
    assert [older, newer][..1] == [older];
    assert [newer, older][..1] == [newer];
    assert SortNewestFirst([older]) == [older];
    assert SortNewestFirst([newer]) == [newer];
    assert Insert(older, [newer]) == [newer] + Insert(older, []);
  }

  lemma BothMdxKept(f: ContentFile, g: ContentFile)
    requires IsMdx(f.fileName) && IsMdx(g.fileName)
    ensures MdxFiles([f, g]) == [f, g]
  {
    assert [f, g][1..] == [g];
  }

  /** Two dated posts are listed newest first, whatever their scan order. */
  lemma NewerPostListedFirst(older: ContentFile, newer: ContentFile)
    requires IsMdx(older.fileName) && IsMdx(newer.fileName)
    requires older.data.date.Some? && older.data.date.value.text != ""
    requires newer.data.date.Some? && newer.data.date.value.text != ""
    requires older.data.date.value.time < newer.data.date.value.time
    ensures GetBlogPosts(Present([older, newer])) == [Summarize(newer), Summarize(older)]
    ensures GetBlogPosts(Present([newer, older])) == [Summarize(newer), Summarize(older)]
  {
    BothMdxKept(older, newer);
    BothMdxKept(newer, older);
    var a, b := Summarize(older), Summarize(newer);
    assert Summaries([older, newer]) == [a, b];
    assert Summaries([newer, older]) == [b, a];
    NewerEntrySortedFirst(a, b);
  }

  /**
   * An undated entry does not keep its place relative to dated ones: with an
   * older, an undated and a newer post in scan order, the newer post moves in
   * front of the undated one.
   */
  lemma UndatedEntryCanBeOvertaken(older: PostSummary, undated: PostSummary, newer: PostSummary)
    requires IsDated(older) && IsDated(newer) && !IsDated(undated)
    requires older.date.value.time < newer.date.value.time
    ensures SortNewestFirst([older, undated, newer]) == [newer, older, undated]
  {
    assert [older, undated, newer][..2] == [older, undated];
    assert [older, undated][..1] == [older];
    assert SortNewestFirst([older]) == [older];
    assert Insert(undated, [older]) == [older] + Insert(undated, []);
    assert SortNewestFirst([older, undated]) == [older, undated];
    assert Insert(newer, [older, undated]) == [newer, older, undated];
  }
}
