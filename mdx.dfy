/**
 * The MDX rendering configuration: the code-fence meta transformer that
 * stamps a fence's title, line-number flag and line numbers onto the
 * highlighted output, and the fixed, ordered plugin lists.
 */
module Mdx {
  import opened Wrappers
  import opened Strings

  // ---------------------------------------------------------------------------
  // The `title="…"` capture: a model of the pattern /title="([^"]+)"/
  // ---------------------------------------------------------------------------

  const TitleOpen: string := "title=\""

  const LineNumbersFlag: string := "showLineNumbers"

  predicate QuoteFree(s: string)
  {
    forall i :: 0 <= i < |s| ==> s[i] != '"'
  }

  /** The pattern matches at position `p` of `meta`, capturing `c`. */
  ghost predicate IsTitleMatch(meta: string, p: nat, c: string)
  {
    c != [] && QuoteFree(c) && OccursAt(meta, TitleOpen + c + "\"", p)
  }

  /** The leftmost match of the pattern in `meta` is at `p`, capturing `c`. */
  ghost predicate IsLeftmostTitleMatch(meta: string, p: nat, c: string)
  {
    IsTitleMatch(meta, p, c) && forall p': nat, c': string :: p' < p ==> !IsTitleMatch(meta, p', c')
  }

  /** `[^"]*` from `q`: the length of the longest quote-free run starting there. */
  function QuoteFreeRun(s: string, q: nat): (len: nat)
    requires q <= |s|
    decreases |s| - q
    ensures q + len <= |s|
    ensures QuoteFree(s[q..q + len])
    ensures q + len < |s| ==> s[q + len] == '"'
  {
    if q == |s| || s[q] == '"' then 0
    else
      var len := QuoteFreeRun(s, q + 1);
      assert s[q..q + 1 + len] == [s[q]] + s[q + 1..q + 1 + len];
      1 + len
  }

  /** An attempt of the pattern at `p`: `title="`, a non-empty quote-free run, then a quote. */
  function TitleMatchAt(meta: string, p: nat): (r: Option<string>)
    ensures r.Some? ==> IsTitleMatch(meta, p, r.value)
    ensures r.Some? ==> forall c :: IsTitleMatch(meta, p, c) ==> c == r.value
    ensures r.None? ==> forall c :: !IsTitleMatch(meta, p, c)
  {
    if p + |TitleOpen| <= |meta| && meta[p..p + |TitleOpen|] == TitleOpen then
      var q := p + |TitleOpen|;
      var len := QuoteFreeRun(meta, q);
      TitleMatchAtFacts(meta, p, len);
      if len >= 1 && q + len < |meta| then Some(meta[q..q + len]) else None
    else
      assert forall c :: !IsTitleMatch(meta, p, c) by {
        forall c ensures !IsTitleMatch(meta, p, c) {
          MatchStartsWithOpen(meta, p, c);
        }
      }
      None
  }

  /** Every match begins with `title="`. */
  lemma MatchStartsWithOpen(meta: string, p: nat, c: string)
    ensures IsTitleMatch(meta, p, c) ==>
      p + |TitleOpen| <= |meta| && meta[p..p + |TitleOpen|] == TitleOpen
  {
    var pat := TitleOpen + c + "\"";
    if OccursAt(meta, pat, p) {
      assert pat[..|TitleOpen|] == TitleOpen;
      assert meta[p..p + |TitleOpen|] == meta[p..p + |pat|][..|TitleOpen|];
    }
  }

  /**
   * Where `title="` stands at `p` and the quote-free run after it has length
   * `len`, a match at `p` captures exactly that run, and only if it is
   * non-empty and closed by a quote.
   */
  lemma TitleMatchAtFacts(meta: string, p: nat, len: nat)
    requires p + |TitleOpen| <= |meta| && meta[p..p + |TitleOpen|] == TitleOpen
    requires p + |TitleOpen| + len <= |meta|
    requires QuoteFree(meta[p + |TitleOpen|..p + |TitleOpen| + len])
    requires p + |TitleOpen| + len < |meta| ==> meta[p + |TitleOpen| + len] == '"'
    ensures forall c :: IsTitleMatch(meta, p, c) ==>
      (c == meta[p + |TitleOpen|..p + |TitleOpen| + len] && p + |TitleOpen| + len < |meta| && len >= 1)
    ensures len >= 1 && p + |TitleOpen| + len < |meta| ==>
      IsTitleMatch(meta, p, meta[p + |TitleOpen|..p + |TitleOpen| + len])
  {
    var q := p + |TitleOpen|;
    forall c | IsTitleMatch(meta, p, c)
      ensures c == meta[q..q + len] && q + len < |meta| && len >= 1
    {
      var pat := TitleOpen + c + "\"";
      assert meta[p..p + |pat|] == pat;
      forall k | 0 <= k < |c| ensures meta[q + k] == c[k] {
        assert pat[|TitleOpen| + k] == c[k];
        assert meta[p + |TitleOpen| + k] == pat[|TitleOpen| + k];
      }
      assert meta[q + |c|] == '"' by {
        assert pat[|TitleOpen| + |c|] == '"';
        assert meta[p + |TitleOpen| + |c|] == pat[|TitleOpen| + |c|];
      }
      // the run stops at the closing quote, and not before it
      assert len == |c|;
      assert c == meta[q..q + len];
    }
    if len >= 1 && q + len < |meta| {
      var c := meta[q..q + len];
      var pat := TitleOpen + c + "\"";
      assert meta[p..p + |pat|] == meta[p..q] + meta[q..q + len] + [meta[q + len]];
      assert pat == meta[p..p + |pat|];
    }
  }

  /** The leftmost match at or after `from`. */
  function FindTitleFrom(meta: string, from: nat): (r: Option<string>)
    decreases |meta| + 1 - from
    ensures r.Some? ==> exists p: nat :: from <= p && IsTitleMatch(meta, p, r.value)
    ensures r.None? ==> forall p: nat, c :: from <= p ==> !IsTitleMatch(meta, p, c)
    ensures forall p: nat, c ::
      (from <= p && IsTitleMatch(meta, p, c)
       && (forall p': nat, c': string :: from <= p' < p ==> !IsTitleMatch(meta, p', c'))) ==> r == Some(c)
  {
    if from > |meta| then
      None
    else
      match TitleMatchAt(meta, from)
      case Some(c) => Some(c)
      case None => FindTitleFrom(meta, from + 1)
  }

  /**
   * `meta.match(/title="([^"]+)"/)?.[1]`: the capture of the leftmost match,
   * `None` when the pattern matches nowhere.
   */
  function TitleCapture(meta: string): (r: Option<string>)
    ensures r.Some? <==> exists p: nat, c :: IsTitleMatch(meta, p, c)
    ensures forall p: nat, c :: IsLeftmostTitleMatch(meta, p, c) ==> r == Some(c)
    ensures r.Some? ==> r.value != [] && QuoteFree(r.value)
  {
    FindTitleFrom(meta, 0)
  }

  // ---------------------------------------------------------------------------
  // The transformer's writes into the highlighted `<pre>` and line elements
  // ---------------------------------------------------------------------------

  datatype PropValue = Text(s: string) | Number(n: int)

  type Properties = map<string, PropValue>

  const DataTitle: string := "data-title"
  const DataLineNumbers: string := "data-line-numbers"
  const DataLine: string := "data-line"

  /** The properties of the `<pre>` element after the transformer's `pre` hook. */
  function PreProperties(props: Properties, meta: Option<string>): (r: Properties)
    ensures !Truthy(meta) ==> r == props
    ensures forall k :: k != DataTitle && k != DataLineNumbers ==>
      (k in r <==> k in props) && (k in r ==> r[k] == props[k])
    ensures Truthy(meta) && TitleCapture(meta.value).Some? ==>
      DataTitle in r && r[DataTitle] == Text(TitleCapture(meta.value).value)
    ensures !(Truthy(meta) && TitleCapture(meta.value).Some?) ==>
      (DataTitle in r <==> DataTitle in props) && (DataTitle in r ==> r[DataTitle] == props[DataTitle])
    ensures Truthy(meta) && Contains(meta.value, LineNumbersFlag) ==>
      DataLineNumbers in r && r[DataLineNumbers] == Text("")
    ensures !(Truthy(meta) && Contains(meta.value, LineNumbersFlag)) ==>
      (DataLineNumbers in r <==> DataLineNumbers in props)
      && (DataLineNumbers in r ==> r[DataLineNumbers] == props[DataLineNumbers])
  {
    if Truthy(meta) then
      var titled := match TitleCapture(meta.value)
        case Some(title) => props[DataTitle := Text(title)]
        case None => props;
      if Contains(meta.value, LineNumbersFlag) then titled[DataLineNumbers := Text("")] else titled
    else props
  }

  /** A hast element whose properties the transformer hooks write in place. */
  class Element {
    var properties: Properties

    constructor (props: Properties)
      ensures properties == props
    {
      properties := props;
    }
  }

  /** `transformerMeta.pre`: `meta` is the fence's raw meta string, when it has one. */
  method Pre(node: Element, meta: Option<string>)
    modifies node
    ensures node.properties == PreProperties(old(node.properties), meta)
  {
    if Truthy(meta) {
      var titleMatch := TitleCapture(meta.value);
      if titleMatch.Some? {
        node.properties := node.properties[DataTitle := Text(titleMatch.value)];
      }
      if Contains(meta.value, LineNumbersFlag) {
        node.properties := node.properties[DataLineNumbers := Text("")];
      }
    }
  }

  /** `transformerMeta.line`: stamps a line element with its line number. */
  method Line(node: Element, line: int)
    modifies node
    ensures DataLine in node.properties && node.properties[DataLine] == Number(line)
    ensures forall k :: k != DataLine ==>
      (k in node.properties <==> k in old(node.properties))
      && (k in node.properties ==> node.properties[k] == old(node.properties)[k])
  {
    node.properties := node.properties[DataLine := Number(line)];
  }

  /** A fence whose meta is exactly `title="<name>"` is titled `<name>`. */
  lemma {:induction false} TitleOnlyMeta(name: string)
    requires name != [] && QuoteFree(name)
    ensures TitleCapture(TitleOpen + name + "\"") == Some(name)
  {
    var meta := TitleOpen + name + "\"";
    assert meta[0..|meta|] == meta;
    assert IsLeftmostTitleMatch(meta, 0, name);
  }

  // ---------------------------------------------------------------------------
  // The plugin configuration
  // ---------------------------------------------------------------------------

  datatype RemarkPlugin = RemarkGfm | RemarkUnwrapImages

  datatype ShikiTransformer = MetaTransformer | NotationDiff | NotationHighlight | NotationWordHighlight

  datatype ShikiOptions = ShikiOptions(
    lightTheme: string,
    darkTheme: string,
    defaultColor: bool,
    transformers: seq<ShikiTransformer>)

  datatype RehypePlugin = RehypeSlug | RehypeShiki(options: ShikiOptions)

  const RemarkPlugins: seq<RemarkPlugin> := [RemarkGfm, RemarkUnwrapImages]

  const ShikiConfig: ShikiOptions :=
    ShikiOptions("github-light", "vesper", false,
                 [MetaTransformer, NotationDiff, NotationHighlight, NotationWordHighlight])

  const RehypePlugins: seq<RehypePlugin> := [RehypeSlug, RehypeShiki(ShikiConfig)]

  /** `a` runs before `b` in the list `s`, each exactly once. */
  predicate RunsBefore<T(==)>(s: seq<T>, a: T, b: T)
  {
    exists i, j :: 0 <= i < j < |s| && s[i] == a && s[j] == b
      && (forall k :: 0 <= k < |s| && s[k] == a ==> k == i)
      && (forall k :: 0 <= k < |s| && s[k] == b ==> k == j)
  }

  /**
   * The pipeline order: tables and the like before image unwrapping, heading
   * ids before highlighting, and the meta transformer before the notation
   * transformers (diff, then highlight, then word highlight).
   */
  lemma PluginOrder()
    ensures RunsBefore(RemarkPlugins, RemarkGfm, RemarkUnwrapImages)
    ensures RunsBefore(RehypePlugins, RehypeSlug, RehypeShiki(ShikiConfig))
    ensures RehypePlugins[|RehypePlugins| - 1].RehypeShiki?
    ensures RehypePlugins[|RehypePlugins| - 1].options.transformers
      == [MetaTransformer, NotationDiff, NotationHighlight, NotationWordHighlight]
  {
    assert RemarkPlugins[0] == RemarkGfm && RemarkPlugins[1] == RemarkUnwrapImages;
    assert RehypePlugins[0] == RehypeSlug && RehypePlugins[1] == RehypeShiki(ShikiConfig);
  }
}
