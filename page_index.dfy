/** The documentation-site build hook that collects, page by page, the
    metadata later written to `page-index.json` for the related-pages
    widget. Front-matter values are loosely typed, so they are modelled
    by `Value`; the JSON write and the log line are left out. */
module PageIndex {
  import opened Wrappers

  /** A front-matter value. */
  datatype Value =
    | Null
    | Bool(b: bool)
    | Int(i: int)
    | Str(s: string)
    | List(items: seq<Value>)
    | Dict(fields: map<string, Value>)

  /** Python's truth value of a front-matter value. */
  predicate Truthy(v: Value) {
    match v
    case Null => false
    case Bool(b) => b
    case Int(i) => i != 0
    case Str(s) => s != ""
    case List(items) => items != []
    case Dict(fields) => fields != map[]
  }

  /** What the hook reads of a page: its URL, its title (`None` when it
      has none) and its front matter (`None` when it has none). */
  datatype Page = Page(url: string, title: Option<string>, meta: Option<map<string, Value>>)

  /** One collected page. */
  datatype PageEntry = PageEntry(url: string, title: Value, tags: seq<Value>, category: Value)

  /** `d.get(key, default)` */
  function Get(d: map<string, Value>, key: string, default: Value): Value {
    if key in d then d[key] else default
  }

  /** `page.meta or {}` */
  function MetaOf(page: Page): map<string, Value> {
    page.meta.GetOr(map[])
  }

  function TagsOf(page: Page): Value {
    Get(MetaOf(page), "tags", List([]))
  }

  function CategoryOf(page: Page): Value {
    Get(MetaOf(page), "category", Str(""))
  }

  /** `tags if isinstance(tags, list) else [tags]` */
  function AsList(tags: Value): seq<Value> {
    if tags.List? then tags.items else [tags]
  }

  /** The title shown: the front-matter title if the key is there, else the
      page title, else "". */
  function TitleOf(page: Page): Value {
    Get(MetaOf(page), "title", Str(match page.title case Some(t) => t case None => ""))
  }

  /** The entry `on_page_context` records for a page, if any. */
  function EntryFor(page: Page): Option<PageEntry> {
    var tags := TagsOf(page);
    var category := CategoryOf(page);
    if Truthy(tags) || Truthy(category) then
      Some(PageEntry(page.url, TitleOf(page), AsList(tags), category))
    else None
  }

  /** A recorded entry always carries a tag or a truthy category, and its
      tags are the front-matter tags, wrapped in a list unless they were one. */
  lemma EntryCarriesMetadata(page: Page)
    requires EntryFor(page).Some?
    ensures EntryFor(page).value.tags != [] || Truthy(EntryFor(page).value.category)
    ensures forall t :: t in EntryFor(page).value.tags ==>
              t == TagsOf(page) || (TagsOf(page).List? && t in TagsOf(page).items)
  {
  }

  /** A page is recorded exactly when its front matter has truthy tags or a
      truthy category; a page without front matter is never recorded. */
  lemma RecordedExactly(page: Page)
    ensures EntryFor(page).Some? <==>
              (page.meta.Some? &&
               (("tags" in page.meta.value && Truthy(page.meta.value["tags"])) ||
                ("category" in page.meta.value && Truthy(page.meta.value["category"]))))
  {
  }

  /** The entries collected from `pages`, in visiting order. */
  function Collect(pages: seq<Page>): seq<PageEntry> {
    if |pages| == 0 then []
    else
      var last := pages[|pages| - 1];
      Collect(pages[..|pages| - 1]) + (match EntryFor(last) case Some(e) => [e] case None => [])
  }

  /** Collecting is done page by page: two runs of pages collect the
      concatenation of what each collects. */
  lemma {:induction false} CollectAppend(a: seq<Page>, b: seq<Page>)
    ensures Collect(a + b) == Collect(a) + Collect(b)
    decreases |b|
  {
    if |b| == 0 {
      assert a + b == a;
    } else {
      var init := b[..|b| - 1];
      assert (a + b)[..|a + b| - 1] == a + init;
      assert (a + b)[|a + b| - 1] == b[|b| - 1];
      CollectAppend(a, init);
    }
  }

  /** Every collected entry is the entry of a visited page, no page gives
      more than one, and every page that gives one is collected. */
  lemma {:induction false} CollectExactly(pages: seq<Page>)
    ensures |Collect(pages)| <= |pages|
    ensures forall e :: e in Collect(pages) ==> exists i :: 0 <= i < |pages| && EntryFor(pages[i]) == Some(e)
    ensures forall i :: 0 <= i < |pages| && EntryFor(pages[i]).Some? ==> EntryFor(pages[i]).value in Collect(pages)
  {
    if |pages| > 0 {
      var init := pages[..|pages| - 1];
      CollectExactly(init);
      forall e | e in Collect(pages)
        ensures exists i :: 0 <= i < |pages| && EntryFor(pages[i]) == Some(e)
      {
        if e in Collect(init) {
          var i :| 0 <= i < |init| && EntryFor(init[i]) == Some(e);
          assert pages[i] == init[i];
        } else {
          assert EntryFor(pages[|pages| - 1]) == Some(e);
        }
      }
      forall i | 0 <= i < |pages| && EntryFor(pages[i]).Some?
        ensures EntryFor(pages[i]).value in Collect(pages)
      {
        if i < |pages| - 1 {
          assert pages[i] == init[i];
        }
      }
    }
  }

  /** The hook's module-level `_pages` list. */
  class PageIndexHook {
    var pages: seq<PageEntry>

    /** The list as the module is loaded: empty. */
    constructor()
      ensures pages == []
    {
      pages := [];
    }

    /** `on_page_context`: records the page's entry, if it has one, after
        the earlier ones, and hands the context back unchanged. */
    method OnPageContext<C>(context: C, page: Page) returns (r: C)
      modifies this
      ensures r == context
      ensures pages == old(pages) + (match EntryFor(page) case Some(e) => [e] case None => [])
    {
      var meta := MetaOf(page);
      var tags := Get(meta, "tags", List([]));
      var category := Get(meta, "category", Str(""));
      var title := Get(meta, "title", Str(match page.title case Some(t) => t case None => ""));
      if Truthy(tags) || Truthy(category) {
        pages := pages + [PageEntry(page.url, title, AsList(tags), category)];
      }
      r := context;
    }

    /** `on_post_build`: the entries to write, in the order they were
        recorded; the list is empty afterwards. */
    method OnPostBuild() returns (written: seq<PageEntry>)
      modifies this
      ensures written == old(pages)
      ensures pages == []
    {
      written := pages;
      pages := [];
    }
  }

  /** One site build: every page goes through `on_page_context`, then
      `on_post_build` runs. What it writes is what earlier builds left
      behind followed by the entries of this build's pages. */
  method Build(hook: PageIndexHook, site: seq<Page>) returns (written: seq<PageEntry>)
    modifies hook
    ensures written == old(hook.pages) + Collect(site)
    ensures hook.pages == []
  {
    var k := 0;
    while k < |site|
      invariant 0 <= k <= |site|
      invariant hook.pages == old(hook.pages) + Collect(site[..k])
    {
      assert site[..k + 1][..k] == site[..k];
      var _ := hook.OnPageContext(0, site[k]);
      k := k + 1;
    }
    assert site[..k] == site;
    written := hook.OnPostBuild();
  }

  /** Two builds in a row: the second writes only its own pages, since the
      first leaves the list empty. */
  method TwoBuilds(site1: seq<Page>, site2: seq<Page>) returns (first: seq<PageEntry>, second: seq<PageEntry>)
    ensures first == Collect(site1)
    ensures second == Collect(site2)
  {
    var hook := new PageIndexHook();
    first := Build(hook, site1);
    second := Build(hook, site2);
  }
}
