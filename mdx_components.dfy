/**
 * The component table handed to the MDX renderer: which component renders
 * each element kind, and what the `img` and `pre` renderers produce.
 */
module MdxComponents {
  import opened Wrappers
  import opened Strings
  import Mdx

  // ---------------------------------------------------------------------------
  // The table
  // ---------------------------------------------------------------------------

  datatype HeadingTag = H1 | H2 | H3

  /** The closed set of renderers; `Supplied` stands for a component the caller passes in. */
  datatype Component =
    | HeadingLink(tag: HeadingTag)
    | Anchor
    | Blockquote
    | CodeBlock
    | Image
    | Table
    | TableHeader
    | TableBody
    | TableRow
    | TableHead
    | TableCell
    | ImageCarousel
    | Supplied(name: string)

  /** The `as` attribute a heading renderer passes to `HeadingLink`. */
  function AsAttribute(tag: HeadingTag): string
  {
    match tag
    case H1 => "h1"
    case H2 => "h2"
    case H3 => "h3"
  }

  /** The defaults, keyed by element name, before the caller's entries are spread in. */
  const Defaults: map<string, Component> := map[
    "h1" := HeadingLink(H1),
    "h2" := HeadingLink(H2),
    "h3" := HeadingLink(H3),
    "a" := Anchor,
    "blockquote" := Blockquote,
    "pre" := CodeBlock,
    "img" := Image,
    "table" := Table,
    "thead" := TableHeader,
    "tbody" := TableBody,
    "tr" := TableRow,
    "th" := TableHead,
    "td" := TableCell,
    "ImageCarousel" := ImageCarousel
  ]

  /** `useMDXComponents(components)`: the defaults with `...components` spread last. */
  function UseMDXComponents(components: map<string, Component>): (r: map<string, Component>)
    ensures r.Keys == Defaults.Keys + components.Keys
    ensures forall k :: k in components ==> r[k] == components[k]
    ensures forall k :: k in Defaults && k !in components ==> r[k] == Defaults[k]
  {
    Defaults + components
  }

  /**
   * Without an override, `h1`, `h2` and `h3` render through `HeadingLink` at
   * their own level, `pre` through the code block and `img` through the
   * image renderer.
   */
  lemma DefaultRenderers(components: map<string, Component>)
    ensures forall k :: k in {"h1", "h2", "h3"} && k !in components ==>
      UseMDXComponents(components)[k].HeadingLink? && AsAttribute(UseMDXComponents(components)[k].tag) == k
    ensures "pre" !in components ==> UseMDXComponents(components)["pre"] == CodeBlock
    ensures "img" !in components ==> UseMDXComponents(components)["img"] == Image
  {
    DefaultEntries();
  }

  /** The default entries `DefaultRenderers` is about. */
  lemma DefaultEntries()
    ensures "h1" in Defaults && Defaults["h1"] == HeadingLink(H1)
    ensures "h2" in Defaults && Defaults["h2"] == HeadingLink(H2)
    ensures "h3" in Defaults && Defaults["h3"] == HeadingLink(H3)
    ensures "pre" in Defaults && Defaults["pre"] == CodeBlock
    ensures "img" in Defaults && Defaults["img"] == Image
  {
  }

  // ---------------------------------------------------------------------------
  // `pre`: the code block takes the fence title from the highlighted `<pre>`
  // ---------------------------------------------------------------------------

  datatype CodeBlockView = CodeBlockView(title: Option<Mdx.PropValue>, pre: Mdx.Properties)

  /** The `pre` renderer: the `<pre>` is kept as it is and its `data-title` becomes the block's title. */
  function RenderPre(props: Mdx.Properties): (r: CodeBlockView)
    ensures r.pre == props
    ensures Mdx.DataTitle in props ==> r.title == Some(props[Mdx.DataTitle])
    ensures Mdx.DataTitle !in props ==> r.title.None?
  {
    CodeBlockView(if Mdx.DataTitle in props then Some(props[Mdx.DataTitle]) else None, props)
  }

  /** A fence's `title="…"` reaches the code block's header unchanged. */
  lemma FenceTitleReachesCodeBlock(props: Mdx.Properties, meta: string)
    requires Mdx.TitleCapture(meta).Some?
    ensures RenderPre(Mdx.PreProperties(props, Some(meta))).title
      == Some(Mdx.Text(Mdx.TitleCapture(meta).value))
  {
  }

  /** A fence with meta `title="main.rs"` gets a code block headed `main.rs`. */
  lemma MainRsFence(props: Mdx.Properties)
    ensures RenderPre(Mdx.PreProperties(props, Some("title=\"main.rs\""))).title == Some(Mdx.Text("main.rs"))
  {
    MainRsTitle();
    FenceTitleReachesCodeBlock(props, "title=\"main.rs\"");
  }

  lemma MainRsTitle()
    ensures Mdx.TitleCapture("title=\"main.rs\"") == Some("main.rs")
  {
    Mdx.TitleOnlyMeta("main.rs");
    assert Mdx.TitleOpen + "main.rs" + "\"" == "title=\"main.rs\"";
  }

  // ---------------------------------------------------------------------------
  // `img`: the `|wide` alt convention and the title as caption
  // ---------------------------------------------------------------------------

  const WideMarker: string := "|wide"

  /** An image element's props from the markdown: source, alt text and title. */
  datatype ImgProps = ImgProps(src: string, alt: Option<string>, title: Option<string>)

  /** The width class an `<img>` carries: `wide-image` or `w-full`. */
  datatype Sizing = WideImage | FullWidth

  datatype Img = Img(sizing: Sizing, src: string, alt: string, title: Option<string>)

  /**
   * What the `img` renderer returns: a figure (with `wide-image` on the
   * figure when `wide`) around an image and its caption, or a bare image.
   */
  datatype ImageView = Figure(wide: bool, img: Img, caption: string) | PlainImage(img: Img)

  /** `props.alt || ''`. */
  function AltText(props: ImgProps): string
  {
    OrElse(props.alt, "")
  }

  /** `alt.includes('|wide')`. */
  predicate IsWide(alt: string)
  {
    Contains(alt, WideMarker)
  }

  /** `alt.replace('|wide', '').trim()`: the first marker cut out, then the white space around. */
  function CleanAlt(alt: string): (r: string)
    ensures !IsWide(alt) ==> r == Trim(alt)
    ensures IsWide(alt) ==> exists i: nat ::
      FirstOccurrence(alt, WideMarker, i) && i + |WideMarker| <= |alt|
      && r == Trim(alt[..i] + alt[i + |WideMarker|..])
  {
    var stripped := ReplaceFirst(alt, WideMarker, "");
    assert IsWide(alt) ==> exists i: nat ::
      FirstOccurrence(alt, WideMarker, i) && i + |WideMarker| <= |alt|
      && stripped == alt[..i] + alt[i + |WideMarker|..] by {
      if IsWide(alt) {
        var i: nat :| FirstOccurrence(alt, WideMarker, i) && i + |WideMarker| <= |alt|
          && stripped == alt[..i] + "" + alt[i + |WideMarker|..];
        assert alt[..i] + "" == alt[..i];
      }
    }
    Trim(stripped)
  }

  /** The `img` renderer. */
  function RenderImg(props: ImgProps): (r: ImageView)
    ensures r.Figure? <==> Truthy(props.title)
    ensures r.Figure? ==>
      r.caption == props.title.value
      && r.wide == IsWide(AltText(props))
      && r.img == Img(FullWidth, props.src, CleanAlt(AltText(props)), None)
    ensures r.PlainImage? ==>
      r.img == Img(if IsWide(AltText(props)) then WideImage else FullWidth,
                   props.src, CleanAlt(AltText(props)), props.title)
  {
    var alt := AltText(props);
    var isWide := IsWide(alt);
    var cleanAlt := CleanAlt(alt);
    var caption := props.title;
    if Truthy(caption) then
      Figure(isWide, Img(FullWidth, props.src, cleanAlt, None), caption.value)
    else
      PlainImage(Img(if isWide then WideImage else FullWidth, props.src, cleanAlt, props.title))
  }

  /** An image without alt text renders with an empty alt and its usual width. */
  lemma MissingAltIsEmpty(src: string, title: Option<string>)
    ensures RenderImg(ImgProps(src, None, title)).img.alt == ""
    ensures RenderImg(ImgProps(src, None, title)).img.sizing == FullWidth
    ensures RenderImg(ImgProps(src, None, title)).Figure? ==> !RenderImg(ImgProps(src, None, title)).wide
  {
    assert !Contains("", WideMarker) by {
      forall i: nat ensures !OccursAt("", WideMarker, i) {
      }
    }
  }

  /** A marker appended to a text holding none is that text's first marker. */
  lemma MarkerFirstAtEnd(base: string)
    requires !Contains(base, WideMarker)
    ensures FirstOccurrence(base + WideMarker, WideMarker, |base|)
  {
    var alt := base + WideMarker;
    var n := |base|;
    assert alt[n..n + |WideMarker|] == WideMarker;
    forall j: nat | j < n ensures !OccursAt(alt, WideMarker, j) {
      if j + |WideMarker| <= n {
        assert alt[j..j + |WideMarker|] == base[j..j + |WideMarker|];
        assert !OccursAt(base, WideMarker, j);
      } else if j + |WideMarker| <= |alt| {
        assert alt[j..j + |WideMarker|][n - j] == alt[n] == '|';
        assert WideMarker[n - j] != '|';
      }
    }
  }

  /**
   * An alt text ending in `|wide` (and holding no other marker) renders wide
   * and without the marker; the same text without the suffix does not.
   */
  lemma WideSuffix(base: string)
    requires !Contains(base, WideMarker)
    ensures IsWide(base + WideMarker)
    ensures CleanAlt(base + WideMarker) == Trim(base)
    ensures !IsWide(base)
    ensures CleanAlt(base) == Trim(base)
  {
    StripWideSuffix(base);
  }

  /** Cutting the first `|wide` out of `base + "|wide"` leaves `base`. */
  lemma StripWideSuffix(base: string)
    requires !Contains(base, WideMarker)
    ensures IsWide(base + WideMarker)
    ensures ReplaceFirst(base + WideMarker, WideMarker, "") == base
  {
    var alt := base + WideMarker;
    var n := |base|;
    MarkerFirstAtEnd(base);
    var found := IndexOf(alt, WideMarker);
    FirstOccurrenceUnique(alt, WideMarker, found.value, n);
    assert alt[..n] == base;
    assert alt[n + |WideMarker|..] == [];
    assert alt[..n] + "" + alt[n + |WideMarker|..] == base;
  }

  /**
   * Only the first `|wide` is cut out: an alt ending in two markers keeps the
   * second one, so its cleaned text still ends in `|wide` and is still wide.
   */
  lemma SecondMarkerKept(base: string)
    requires !Contains(base, WideMarker)
    ensures IsWide(base + WideMarker)
    ensures CleanAlt(base + WideMarker + WideMarker) == Trim(base + WideMarker)
  {
    var once := base + WideMarker;
    var alt := once + WideMarker;
    var n := |base|;
    StripWideSuffix(base);
    MarkerFirstAtEnd(base);
    assert FirstOccurrence(alt, WideMarker, n) by {
      assert alt[n..n + |WideMarker|] == once[n..n + |WideMarker|];
      forall j: nat | j < n ensures !OccursAt(alt, WideMarker, j) {
        assert !OccursAt(once, WideMarker, j);
        assert alt[j..j + |WideMarker|] == once[j..j + |WideMarker|];
      }
    }
    var found := IndexOf(alt, WideMarker);
    FirstOccurrenceUnique(alt, WideMarker, found.value, n);
    assert alt[..n] == base;
    assert alt[n + |WideMarker|..] == WideMarker;
    assert ReplaceFirst(alt, WideMarker, "") == once;
  }

  /** The alt `a|wide|wide` cleans to `a|wide`, which still holds the marker. */
  lemma DoubleWideAlt()
    ensures CleanAlt("a|wide|wide") == "a|wide"
    ensures IsWide(CleanAlt("a|wide|wide"))
  {
    assert !Contains("a", WideMarker) by {
      forall i: nat ensures !OccursAt("a", WideMarker, i) {
      }
    }
    SecondMarkerKept("a");
    WideLiterals();
    TrimUnpadded("a|wide");
  }

  lemma WideLiterals()
    ensures "a" + WideMarker == "a|wide"
    ensures "a" + WideMarker + WideMarker == "a|wide|wide"
  {
  }

  /** With a caption, an image ending in `|wide` gets a wide figure whose image drops the title. */
  lemma {:induction false} WideCaptionedImage(src: string, base: string, caption: string)
    requires !Contains(base, WideMarker) && caption != ""
    ensures RenderImg(ImgProps(src, Some(base + WideMarker), Some(caption)))
      == Figure(true, Img(FullWidth, src, Trim(base), None), caption)
  {
    WideSuffix(base);
  }
}
