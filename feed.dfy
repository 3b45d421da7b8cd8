/** The feed payload (sources and items) and the derivation of the display
    record of one item: its source, author, summary, category id and first
    image, with the fallbacks the client applies. */
module Feed {
  import opened Common

  type ItemId = string

  /** Category names; the numeric id of a category is its index here plus one,
      and an unknown category has id 0. */
  const Categories: seq<string> := [
    "general", "criminal", "international", "political", "technology",
    "television", "science", "national", "economical", "latest",
    "startups", "watches", "develope", "sport"
  ]

  /** A news source. `category` is the payload's `type` field, possibly absent. */
  datatype Source = Source(id: int, name: string, icon: string, category: Option<string>)

  datatype Image = Image(url: Option<string>)

  /** One feed item as the server sends it. An absent `authors` list is the
      empty list; `images` may be absent. */
  datatype FeedItem = FeedItem(
    id: ItemId,
    link: Option<string>,
    title: Option<string>,
    content: Option<string>,
    summary: Option<string>,
    authors: seq<string>,
    author: Option<string>,
    images: Option<seq<Image>>,
    sourceId: int)

  /** A successful payload: the sources and the items (`feeds`) in server order. */
  datatype Snapshot = Snapshot(sources: seq<Source>, feeds: seq<FeedItem>)

  /** What a rendered list item shows. */
  datatype ItemData = ItemData(
    id: ItemId,
    url: Option<string>,
    author: string,
    title: Option<string>,
    summary: Option<string>,
    sourceName: string,
    sourceIcon: string,
    categoryId: nat,
    category: Option<string>,
    image: Option<string>)

  /** `CATEGORIES.indexOf(category) + 1`: 1-based position of a known
      category, 0 for an unknown or absent one. */
  function CategoryId(category: Option<string>): (r: nat)
    ensures r <= |Categories|
    ensures r == 0 <==> category.None? || category.value !in Categories
    ensures r > 0 ==> Categories[r - 1] == category.value
  {
    if category.None? then 0 else IndexOf(Categories, category.value) + 1
  }

  /** The fourteen category names are distinct: their first three letters
      already differ. */
  lemma CategoriesDistinct()
    ensures |Categories| == 14
    ensures forall i, j :: 0 <= i < j < |Categories| ==> Categories[i] != Categories[j]
  {
    var keys := ["gen", "cri", "int", "pol", "tec", "tel", "sci", "nat", "eco", "lat", "sta", "wat", "dev", "spo"];
    assert forall k :: 0 <= k < 14 ==> Categories[k][..3] == keys[k];
    assert forall i, j :: 0 <= i < j < 14 ==> keys[i] != keys[j];
  }

  /** Each category has its own id: its position in `Categories` plus one. */
  lemma CategoryIdOfEach(k: nat)
    requires k < |Categories|
    ensures CategoryId(Some(Categories[k])) == k + 1
  {
    CategoriesDistinct();
    var r := CategoryId(Some(Categories[k])) - 1;
    assert Categories[r] == Categories[k] && Categories[k] !in Categories[..r];
  }

  /** The index of the first source with that id, or -1. */
  function SourceIndex(sources: seq<Source>, id: int): (k: int)
    ensures -1 <= k < |sources|
    ensures k == -1 <==> forall i :: 0 <= i < |sources| ==> sources[i].id != id
    ensures k >= 0 ==> sources[k].id == id && forall j :: 0 <= j < k ==> sources[j].id != id
  {
    if sources == [] then -1
    else if sources[0].id == id then 0
    else
      var k := SourceIndex(sources[1..], id);
      if k == -1 then -1 else k + 1
  }

  /** `sources.find(source => source.id === id)`: the first source with that id. */
  function FindSource(sources: seq<Source>, id: int): (r: Option<Source>)
    ensures r.None? <==> forall i :: 0 <= i < |sources| ==> sources[i].id != id
    ensures r.Some? ==> r.value.id == id
  {
    var k := SourceIndex(sources, id);
    if k == -1 then None else Some(sources[k])
  }

  /** The source found is the first one in the list with that id. */
  lemma FindSourceIsFirst(sources: seq<Source>, id: int)
    requires FindSource(sources, id).Some?
    ensures exists k :: 0 <= k < |sources| && sources[k] == FindSource(sources, id).value
                        && forall j :: 0 <= j < k ==> sources[j].id != id
  {
    var k := SourceIndex(sources, id);
    assert sources[k] == FindSource(sources, id).value;
  }

  /** Characters `String.prototype.trim` strips: white space and line terminators. */
  predicate IsJsWhiteSpace(c: char) {
    var n := c as int;
    (9 <= n <= 13) || n == 0x20 || n == 0xA0 || n == 0x1680 || (0x2000 <= n <= 0x200A)
    || n == 0x2028 || n == 0x2029 || n == 0x202F || n == 0x205F || n == 0x3000 || n == 0xFEFF
  }

  function TrimStart(s: string): string {
    if s != [] && IsJsWhiteSpace(s[0]) then TrimStart(s[1..]) else s
  }

  function TrimEnd(s: string): string {
    if s != [] && IsJsWhiteSpace(s[|s| - 1]) then TrimEnd(s[..|s| - 1]) else s
  }

  /** `String.prototype.trim`. */
  function Trim(s: string): string { TrimEnd(TrimStart(s)) }

  predicate IsBlank(s: string) { forall i :: 0 <= i < |s| ==> IsJsWhiteSpace(s[i]) }

  lemma {:induction false} TrimStartBlank(s: string)
    ensures TrimStart(s) == [] <==> IsBlank(s)
    ensures TrimStart(s) != [] ==> !IsJsWhiteSpace(TrimStart(s)[0])
  {
    if s != [] && IsJsWhiteSpace(s[0]) {
      TrimStartBlank(s[1..]);
      assert forall i :: 1 <= i < |s| ==> s[i] == s[1..][i - 1];
    }
  }

  lemma {:induction false} TrimEndKeepsHead(s: string)
    requires s != [] && !IsJsWhiteSpace(s[0])
    ensures TrimEnd(s) != []
  {
    if IsJsWhiteSpace(s[|s| - 1]) {
      TrimEndKeepsHead(s[..|s| - 1]);
    }
  }

  /** A text trims to the empty text exactly when it is all white space. */
  lemma TrimEmptyIffBlank(s: string)
    ensures Trim(s) == [] <==> IsBlank(s)
  {
    TrimStartBlank(s);
    if TrimStart(s) != [] {
      TrimEndKeepsHead(TrimStart(s));
    }
  }

  predicate IsTruthy(s: Option<string>) { s.Some? && s.value != "" }

  /** The index of the first image whose url is present and non-empty, or -1. */
  function FirstUrlIndex(images: seq<Image>): (k: int)
    ensures -1 <= k < |images|
    ensures k == -1 <==> forall i :: 0 <= i < |images| ==> !IsTruthy(images[i].url)
    ensures k >= 0 ==> IsTruthy(images[k].url) && forall j :: 0 <= j < k ==> !IsTruthy(images[j].url)
  {
    if images == [] then -1
    else if IsTruthy(images[0].url) then 0
    else
      var k := FirstUrlIndex(images[1..]);
      if k == -1 then -1 else k + 1
  }

  /** The url of the first image in `images` whose url is present and non-empty. */
  function FirstUrl(images: seq<Image>): (r: Option<string>)
    ensures r.None? <==> forall i :: 0 <= i < |images| ==> !IsTruthy(images[i].url)
    ensures r.Some? ==> IsTruthy(r) && r == images[FirstUrlIndex(images)].url
  {
    var k := FirstUrlIndex(images);
    if k == -1 then None else images[k].url
  }

  /** What `getFirstImage` promises: none for an absent or empty list, and
      otherwise the first truthy url. */
  function FirstImage(images: Option<seq<Image>>): (r: Option<string>)
    ensures images.None? || images.value == [] ==> r.None?
    ensures images.Some? ==> r == FirstUrl(images.value)
  {
    if images.None? || |images.value| == 0 then None else FirstUrl(images.value)
  }

  /** `getFirstImage`: a scan with an early return. */
  method GetFirstImage(images: Option<seq<Image>>) returns (r: Option<string>)
    ensures r.None? <==> images.None? || forall i :: 0 <= i < |images.value| ==> !IsTruthy(images.value[i].url)
    ensures r.Some? ==> IsTruthy(r) && (exists i :: 0 <= i < |images.value| && images.value[i].url == r
                                          && forall j :: 0 <= j < i ==> !IsTruthy(images.value[j].url))
    ensures r == FirstImage(images)
  {
    if images.None? || |images.value| == 0 {
      return None;
    }
    var imgs := images.value;
    for i := 0 to |imgs|
      invariant forall j :: 0 <= j < i ==> !IsTruthy(imgs[j].url)
    {
      if IsTruthy(imgs[i].url) {
        return imgs[i].url;
      }
    }
    return None;
  }

  /** The author shown: the first of `authors`, else `author`, else empty. */
  function AuthorOf(item: FeedItem): (r: string)
    ensures |item.authors| > 0 ==> r == item.authors[0]
    ensures |item.authors| == 0 && item.author.Some? ==> r == item.author.value
    ensures |item.authors| == 0 && item.author.None? ==> r == ""
  {
    if |item.authors| > 0 then item.authors[0] else item.author.GetOr("")
  }

  /** The summary shown: `content` unless it trims to nothing, else `summary`. */
  function SummaryOf(item: FeedItem): (r: Option<string>)
    ensures item.content.Some? && !IsBlank(item.content.value) ==> r == item.content
    ensures item.content.None? || IsBlank(item.content.value) ==> r == item.summary
  {
    TrimEmptyIffBlank(item.content.GetOr(""));
    if Trim(item.content.GetOr("")) != "" then item.content else item.summary
  }

  /** `getItemData`: the display record of `item`, or nothing when its source
      id matches no source (the lookup throws and the error yields null). */
  function GetItemData(item: FeedItem, sources: seq<Source>): (r: Option<ItemData>)
    ensures r.None? <==> forall i :: 0 <= i < |sources| ==> sources[i].id != item.sourceId
    ensures r.Some? ==>
      var src := FindSource(sources, item.sourceId).value;
      && r.value.id == item.id && r.value.url == item.link && r.value.title == item.title
      && (|item.authors| > 0 ==> r.value.author == item.authors[0])
      && (|item.authors| == 0 && item.author.Some? ==> r.value.author == item.author.value)
      && (|item.authors| == 0 && item.author.None? ==> r.value.author == "")
      && r.value.sourceName == src.name && r.value.sourceIcon == src.icon
      && r.value.category == src.category
      && r.value.categoryId == CategoryId(src.category)
      && (r.value.summary == item.content <== item.content.Some? && !IsBlank(item.content.value))
      && (r.value.summary == item.summary <== item.content.None? || IsBlank(item.content.value))
      && r.value.image == FirstImage(item.images)
  {
    match FindSource(sources, item.sourceId)
    case None => None
    case Some(src) =>
      Some(ItemData(item.id, item.link, AuthorOf(item), item.title, SummaryOf(item),
                    src.name, src.icon, CategoryId(src.category), src.category, FirstImage(item.images)))
  }
}
