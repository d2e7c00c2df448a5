/**
 * The search-result and story-page scrapers: `pull_story_list` and
 * `pull_story_info`. The HTML parse itself is not modelled; each scraper
 * receives what BeautifulSoup's `find` and `find_all` would return, with
 * `None` for an element `find` did not locate.
 */
module Story {
  import opened Wrappers
  import opened PyStr

  /** A tag's attributes. */
  type Attrs = map<string, string>

  /** An `<img>` tag inside a result's thumbnail link. */
  datatype Img = Img(attrs: Attrs)

  /** An `<a class="item-img">` tag with the `<img>` tags found inside it, in document order. */
  datatype Anchor = Anchor(attrs: Attrs, imgs: seq<Img>)

  /** A `search-story-item` div, as the `item-img` anchors found inside it. */
  type Item = seq<Anchor>

  /** One value of the story list: `{'title': ..., 'thumbnail': ..., 'chapters': [...]}`. */
  datatype StoryEntry = StoryEntry(title: string, thumbnail: string, chapters: seq<string>)

  /**
   * A Python dictionary from links to entries: its keys in insertion order and
   * the entry stored under each.
   */
  datatype StoryList = StoryList(links: seq<string>, entries: map<string, StoryEntry>)

  /** The empty dictionary `{}`. */
  const EmptyStoryList := StoryList([], map[])

  /**
   * `story_list[link] = entry`: a new key goes after all others, an existing key
   * keeps its place and gets the new entry.
   */
  function Put(list: StoryList, link: string, entry: StoryEntry): StoryList
  {
    StoryList(if link in list.entries then list.links else list.links + [link], list.entries[link := entry])
  }

  /** A dictionary's keys: each listed once, and listed exactly when they hold an entry. */
  ghost predicate Valid(list: StoryList)
  {
    && (forall p, q :: 0 <= p < q < |list.links| ==> list.links[p] != list.links[q])
    && (forall k :: k in list.links <==> k in list.entries)
  }

  lemma PutValid(list: StoryList, link: string, entry: StoryEntry)
    requires Valid(list)
    ensures Valid(Put(list, link, entry))
    ensures link in Put(list, link, entry).entries && Put(list, link, entry).entries[link] == entry
    ensures forall k :: k in Put(list, link, entry).entries <==> k == link || k in list.entries
    ensures forall k :: k != link && k in list.entries ==> Put(list, link, entry).entries[k] == list.entries[k]
    ensures link in list.entries ==> Put(list, link, entry).links == list.links
    ensures link !in list.entries ==> Put(list, link, entry).links == list.links + [link]
  {
  }

  /** The story page's summary: `{'desc': ..., 'chapters': ...}`. */
  datatype StoryInfo = StoryInfo(desc: string, chapters: nat)

  /**
   * Why a scraper raises: `find` returned `None` for the named element
   * (AttributeError), or a tag lacks the named attribute (KeyError).
   */
  datatype ParseError = MissingElement(name: string) | MissingAttribute(name: string)

  predicate ImageWellFormed(img: Img) {
    "alt" in img.attrs && "src" in img.attrs
  }

  predicate AnchorWellFormed(a: Anchor) {
    "href" in a.attrs && forall k :: 0 <= k < |a.imgs| ==> ImageWellFormed(a.imgs[k])
  }

  /**
   * The `(title, img_src)` pair after the loop over `imgs`: both start as `''`,
   * every image overwrites them, `alt` read before `src`.
   */
  function ImageFields(imgs: seq<Img>): (r: Result<(string, string), ParseError>)
    ensures r.Ok? <==> forall k :: 0 <= k < |imgs| ==> ImageWellFormed(imgs[k])
    ensures r.Ok? && imgs == [] ==> r.value == ("", "")
    ensures r.Ok? && imgs != [] ==> r.value == (imgs[|imgs| - 1].attrs["alt"], imgs[|imgs| - 1].attrs["src"])
  {
    if imgs == [] then Ok(("", ""))
    else
      var init := imgs[..|imgs| - 1];
      var img := imgs[|imgs| - 1];
      match ImageFields(init)
      case Err(e) => Err(e)
      case Ok(_) =>
        if "alt" !in img.attrs then Err(MissingAttribute("alt"))
        else if "src" !in img.attrs then Err(MissingAttribute("src"))
        else Ok((img.attrs["alt"], img.attrs["src"]))
  }

  /** The first missing attribute among some images is the one the whole loop raises. */
  lemma {:induction false} ImageFieldsErrSticky(imgs: seq<Img>, n: nat)
    requires n <= |imgs|
    requires ImageFields(imgs[..n]).Err?
    ensures ImageFields(imgs) == ImageFields(imgs[..n])
  {
    if n == |imgs| {
      assert imgs[..n] == imgs;
    } else {
      var init := imgs[..|imgs| - 1];
      assert init[..n] == imgs[..n];
      ImageFieldsErrSticky(init, n);
    }
  }

  /** The entry one anchor contributes: `href` read first, then its images. */
  function EntryOf(a: Anchor): (r: Result<StoryEntry, ParseError>)
    ensures r.Ok? <==> AnchorWellFormed(a)
    ensures r.Ok? ==> r.value.chapters == []
    ensures r.Ok? ==> (r.value.title, r.value.thumbnail) == ImageFields(a.imgs).value
    ensures r.Ok? && a.imgs == [] ==> r.value.title == "" && r.value.thumbnail == ""
    ensures r.Ok? && a.imgs != [] ==>
      r.value.title == a.imgs[|a.imgs| - 1].attrs["alt"] && r.value.thumbnail == a.imgs[|a.imgs| - 1].attrs["src"]
  {
    if "href" !in a.attrs then Err(MissingAttribute("href"))
    else
      match ImageFields(a.imgs)
      case Err(e) => Err(e)
      case Ok((title, thumbnail)) => Ok(StoryEntry(title, thumbnail, []))
  }

  /** The link of a well-formed anchor, its key in the story list. */
  function Link(a: Anchor): string
    requires AnchorWellFormed(a)
  {
    a.attrs["href"]
  }

  /** The anchors of all items, item by item. */
  function Flatten(items: seq<Item>): (anchors: seq<Anchor>)
    ensures items == [] ==> anchors == []
  {
    if items == [] then [] else Flatten(items[..|items| - 1]) + items[|items| - 1]
  }

  lemma {:induction false} FlattenAppend(a: seq<Item>, b: seq<Item>)
    ensures Flatten(a + b) == Flatten(a) + Flatten(b)
  {
    if b == [] {
      assert a + b == a;
    } else {
      assert (a + b)[..|a + b| - 1] == a + b[..|b| - 1];
      FlattenAppend(a, b[..|b| - 1]);
      assert Flatten(a) + Flatten(b[..|b| - 1]) + b[|b| - 1] == Flatten(a) + (Flatten(b[..|b| - 1]) + b[|b| - 1]);
    }
  }

  /**
   * The dictionary the loops build over `anchors`: each entry written under its
   * `href`, a later anchor with the same `href` replacing an earlier one.
   */
  function StoryListOf(anchors: seq<Anchor>): Result<StoryList, ParseError>
  {
    if anchors == [] then Ok(EmptyStoryList)
    else
      var a := anchors[|anchors| - 1];
      match StoryListOf(anchors[..|anchors| - 1])
      case Err(e) => Err(e)
      case Ok(m) =>
        match EntryOf(a)
        case Err(e) => Err(e)
        case Ok(entry) => Ok(Put(m, Link(a), entry))
  }

  /** The first malformed anchor decides the error. */
  lemma {:induction false} StoryListErrSticky(anchors: seq<Anchor>, n: nat)
    requires n <= |anchors|
    requires StoryListOf(anchors[..n]).Err?
    ensures StoryListOf(anchors) == StoryListOf(anchors[..n])
  {
    if n == |anchors| {
      assert anchors[..n] == anchors;
    } else {
      var init := anchors[..|anchors| - 1];
      assert init[..n] == anchors[..n];
      StoryListErrSticky(init, n);
    }
  }

  /** `pull_story_list` raises exactly when some anchor lacks `href` or some image lacks `alt` or `src`. */
  lemma {:induction false} StoryListOk(anchors: seq<Anchor>)
    ensures StoryListOf(anchors).Ok? <==> forall i :: 0 <= i < |anchors| ==> AnchorWellFormed(anchors[i])
  {
    if anchors != [] {
      var init := anchors[..|anchors| - 1];
      var a := anchors[|anchors| - 1];
      StoryListOk(init);
      assert StoryListOf(anchors).Ok? <==> StoryListOf(init).Ok? && EntryOf(a).Ok?;
      assert anchors == init + [a];
      WellFormedSnoc(init, a);
    }
  }

  lemma WellFormedSnoc(init: seq<Anchor>, a: Anchor)
    ensures (forall i :: 0 <= i < |init + [a]| ==> AnchorWellFormed((init + [a])[i]))
        <==> (forall i :: 0 <= i < |init| ==> AnchorWellFormed(init[i])) && AnchorWellFormed(a)
  {
    assert forall i :: 0 <= i < |init| ==> (init + [a])[i] == init[i];
    assert (init + [a])[|init|] == a;
  }

  /** The dictionary over some anchors is the one over all but the last, with the last one's entry put in. */
  lemma StoryListSnoc(anchors: seq<Anchor>)
    requires anchors != [] && forall i :: 0 <= i < |anchors| ==> AnchorWellFormed(anchors[i])
    ensures StoryListOf(anchors[..|anchors| - 1]).Ok?
    ensures StoryListOf(anchors)
         == Ok(Put(StoryListOf(anchors[..|anchors| - 1]).value, Link(anchors[|anchors| - 1]), EntryOf(anchors[|anchors| - 1]).value))
  {
    StoryListOk(anchors[..|anchors| - 1]);
  }

  /** Every dictionary the loops build keeps each key once, in step with its entries. */
  lemma {:induction false} StoryListValid(anchors: seq<Anchor>)
    requires forall i :: 0 <= i < |anchors| ==> AnchorWellFormed(anchors[i])
    ensures StoryListOf(anchors).Ok? && Valid(StoryListOf(anchors).value)
  {
    if anchors != [] {
      StoryListSnoc(anchors);
      var init := anchors[..|anchors| - 1];
      var a := anchors[|anchors| - 1];
      StoryListValid(init);
      PutValid(StoryListOf(init).value, Link(a), EntryOf(a).value);
    }
  }

  /** The list's keys are exactly the links of the anchors. */
  lemma StoryListKeys(anchors: seq<Anchor>)
    requires forall i :: 0 <= i < |anchors| ==> AnchorWellFormed(anchors[i])
    ensures StoryListOf(anchors).Ok?
    ensures forall k :: k in StoryListOf(anchors).value.entries <==>
      exists i :: 0 <= i < |anchors| && Link(anchors[i]) == k
  {
    StoryListValid(anchors);
    StoryListLinks(anchors);
    forall k | k in Links(anchors)
      ensures exists i :: 0 <= i < |anchors| && Link(anchors[i]) == k
    {
      var i :| 0 <= i < |anchors| && Links(anchors)[i] == k;
    }
    forall i | 0 <= i < |anchors|
      ensures Link(anchors[i]) in Links(anchors)
    {
      assert Links(anchors)[i] == Link(anchors[i]);
    }
  }

  /** Last write wins: a link's entry comes from the last anchor carrying that link. */
  lemma {:induction false} StoryListLastWins(anchors: seq<Anchor>, i: nat)
    requires forall j :: 0 <= j < |anchors| ==> AnchorWellFormed(anchors[j])
    requires i < |anchors|
    requires forall j :: i < j < |anchors| ==> Link(anchors[j]) != Link(anchors[i])
    ensures StoryListOf(anchors).Ok?
    ensures Link(anchors[i]) in StoryListOf(anchors).value.entries
    ensures StoryListOf(anchors).value.entries[Link(anchors[i])] == EntryOf(anchors[i]).value
  {
    StoryListOk(anchors);
    var init := anchors[..|anchors| - 1];
    if i < |init| {
      assert forall j :: 0 <= j < |init| ==> init[j] == anchors[j];
      StoryListLastWins(init, i);
    }
  }

  /** The links of well-formed anchors, in order. */
  function Links(anchors: seq<Anchor>): seq<string>
    requires forall i :: 0 <= i < |anchors| ==> AnchorWellFormed(anchors[i])
  {
    seq(|anchors|, i requires 0 <= i < |anchors| => Link(anchors[i]))
  }

  /** Position `i` holds the first occurrence of `k` in `s`. */
  predicate FirstAt(s: seq<string>, i: int, k: string)
  {
    0 <= i < |s| && s[i] == k && forall j :: 0 <= j < i ==> s[j] != k
  }

  /** A value already present before the last element has its first occurrence there. */
  lemma FirstAtInit(s: seq<string>, x: string, i: int, k: string)
    requires k in s && FirstAt(s + [x], i, k)
    ensures i < |s| && FirstAt(s, i, k)
  {
    var n :| 0 <= n < |s| && s[n] == k;
    assert (s + [x])[n] == k;
    assert forall j :: 0 <= j < |s| ==> (s + [x])[j] == s[j];
  }

  /** The links in the dictionary are the links of the anchors. */
  lemma {:induction false} StoryListLinks(anchors: seq<Anchor>)
    requires forall i :: 0 <= i < |anchors| ==> AnchorWellFormed(anchors[i])
    ensures StoryListOf(anchors).Ok?
    ensures forall k :: k in StoryListOf(anchors).value.links <==> k in Links(anchors)
  {
    StoryListValid(anchors);
    if anchors != [] {
      StoryListSnoc(anchors);
      var init := anchors[..|anchors| - 1];
      var a := anchors[|anchors| - 1];
      StoryListLinks(init);
      StoryListValid(init);
      PutValid(StoryListOf(init).value, Link(a), EntryOf(a).value);
      LinksSnoc(anchors);
    }
  }

  /**
   * The order of the dictionary's keys, as `json.dumps` writes them: each link
   * once, every link of an anchor present, and links ordered by the anchor that
   * first carried them (a repeated link keeps its first place).
   */
  lemma {:induction false} StoryListOrder(anchors: seq<Anchor>)
    requires forall i :: 0 <= i < |anchors| ==> AnchorWellFormed(anchors[i])
    ensures StoryListOf(anchors).Ok? && Valid(StoryListOf(anchors).value)
    ensures forall k :: k in StoryListOf(anchors).value.links <==> k in Links(anchors)
    ensures var links := StoryListOf(anchors).value.links;
      forall p, q, i, j :: 0 <= p < q < |links| && FirstAt(Links(anchors), i, links[p]) && FirstAt(Links(anchors), j, links[q]) ==> i < j
  {
    StoryListValid(anchors);
    StoryListLinks(anchors);
    if anchors != [] {
      StoryListSnoc(anchors);
      var init := anchors[..|anchors| - 1];
      var a := anchors[|anchors| - 1];
      StoryListOrder(init);
      var before := StoryListOf(init).value;
      var after := StoryListOf(anchors).value;
      LinksSnoc(anchors);
      var all := Links(anchors);
      forall p, q, i, j | 0 <= p < q < |after.links| && FirstAt(all, i, after.links[p]) && FirstAt(all, j, after.links[q])
        ensures i < j
      {
        assert after.links[p] == before.links[p];
        FirstAtInit(Links(init), Link(a), i, after.links[p]);
        if q < |before.links| {
          assert after.links[q] == before.links[q];
          FirstAtInit(Links(init), Link(a), j, after.links[q]);
        } else {
          assert after.links[q] == Link(a) && Link(a) !in Links(init);
        }
      }
    }
  }

  lemma LinksSnoc(anchors: seq<Anchor>)
    requires anchors != [] && forall i :: 0 <= i < |anchors| ==> AnchorWellFormed(anchors[i])
    ensures Links(anchors) == Links(anchors[..|anchors| - 1]) + [Link(anchors[|anchors| - 1])]
    ensures forall n :: 0 <= n < |anchors| - 1 ==> Links(anchors)[n] == Links(anchors[..|anchors| - 1])[n]
  {
  }

  /** Flattening one more item appends its anchors. */
  lemma FlattenStep(items: seq<Item>, i: nat)
    requires i < |items|
    ensures Flatten(items[..i + 1]) == Flatten(items[..i]) + items[i]
  {
    assert items[..i + 1][..i] == items[..i];
  }

  /** The anchors of all items, cut just after anchor `j` of item `i`. */
  lemma FlattenAround(items: seq<Item>, i: nat, j: nat)
    requires i < |items| && j < |items[i]|
    ensures Flatten(items) == (Flatten(items[..i]) + items[i][..j + 1]) + (items[i][j + 1..] + Flatten(items[i + 1..]))
  {
    var before, item, after := Flatten(items[..i]), items[i], Flatten(items[i + 1..]);
    var left, right := item[..j + 1], item[j + 1..];
    assert items == items[..i + 1] + items[i + 1..];
    FlattenAppend(items[..i + 1], items[i + 1..]);
    FlattenStep(items, i);
    assert Flatten(items) == before + item + after;
    assert item == left + right;
    assert before + (left + right) + after == (before + left) + (right + after);
  }

  /** An error met at anchor `j` of item `i` is the error of the whole list. */
  lemma StoryListErrAt(items: seq<Item>, i: nat, j: nat)
    requires i < |items| && j < |items[i]|
    requires StoryListOf(Flatten(items[..i]) + items[i][..j + 1]).Err?
    ensures StoryListOf(Flatten(items)) == StoryListOf(Flatten(items[..i]) + items[i][..j + 1])
  {
    var done := Flatten(items[..i]) + items[i][..j + 1];
    var all := Flatten(items);
    FlattenAround(items, i, j);
    assert all[..|done|] == done;
    StoryListErrSticky(all, |done|);
  }

  lemma SnocSlice(front: seq<Anchor>, item: seq<Anchor>, j: nat)
    requires j < |item|
    ensures front + item[..j] + [item[j]] == front + item[..j + 1]
  {
    assert item[..j + 1] == item[..j] + [item[j]];
  }

  /** A failing anchor `j` of item `i`, all anchors before it fine, makes the whole list fail with its error. */
  lemma StoryListEntryErr(items: seq<Item>, i: nat, j: nat)
    requires i < |items| && j < |items[i]|
    requires StoryListOf(Flatten(items[..i]) + items[i][..j]).Ok?
    requires EntryOf(items[i][j]).Err?
    ensures StoryListOf(Flatten(items)) == Err(EntryOf(items[i][j]).error)
  {
    var done := Flatten(items[..i]) + items[i][..j];
    var a := items[i][j];
    assert (done + [a])[..|done + [a]| - 1] == done;
    SnocSlice(Flatten(items[..i]), items[i], j);
    StoryListErrAt(items, i, j);
  }

  /** The loop fails at its last image when that image lacks `alt` or `src` and the ones before it are fine. */
  lemma ImageFieldsLastErr(imgs: seq<Img>)
    requires imgs != []
    requires ImageFields(imgs[..|imgs| - 1]).Ok?
    requires !ImageWellFormed(imgs[|imgs| - 1])
    ensures ImageFields(imgs) == Err(MissingAttribute(if "alt" !in imgs[|imgs| - 1].attrs then "alt" else "src"))
  {
  }

  /** An image lacking `alt` or `src` at position `k`, the ones before it fine, is the error of the loop over all of them. */
  lemma ImageFieldsErrAt(imgs: seq<Img>, k: nat)
    requires k < |imgs|
    requires ImageFields(imgs[..k]).Ok?
    requires !ImageWellFormed(imgs[k])
    ensures ImageFields(imgs) == Err(MissingAttribute(if "alt" !in imgs[k].attrs then "alt" else "src"))
  {
    var upTo := imgs[..k + 1];
    assert upTo[..k] == imgs[..k];
    ImageFieldsLastErr(upTo);
    ImageFieldsErrSticky(imgs, k + 1);
  }

  /** One more anchor adds its entry under its link. */
  lemma StoryListStep(items: seq<Item>, i: nat, j: nat, m: StoryList)
    requires i < |items| && j < |items[i]|
    requires StoryListOf(Flatten(items[..i]) + items[i][..j]) == Ok(m)
    requires EntryOf(items[i][j]).Ok?
    ensures StoryListOf(Flatten(items[..i]) + items[i][..j + 1])
         == Ok(Put(m, Link(items[i][j]), EntryOf(items[i][j]).value))
  {
    var done := Flatten(items[..i]) + items[i][..j];
    var a := items[i][j];
    assert (done + [a])[..|done + [a]| - 1] == done;
    SnocSlice(Flatten(items[..i]), items[i], j);
  }

  /**
   * The innermost loop of `pull_story_list`: `title` and `img_src` start as `''`
   * and every `<img>` overwrites them, `alt` read before `src`.
   */
  method ReadImages(imgs: seq<Img>) returns (r: Result<(string, string), ParseError>)
    ensures r == ImageFields(imgs)
  {
    var title, imgSrc := "", "";
    var k := 0;
    while k < |imgs|
      invariant 0 <= k <= |imgs|
      invariant ImageFields(imgs[..k]) == Ok((title, imgSrc))
    {
      var img := imgs[k];
      if "alt" !in img.attrs {
        ImageFieldsErrAt(imgs, k);
        return Err(MissingAttribute("alt"));
      }
      if "src" !in img.attrs {
        ImageFieldsErrAt(imgs, k);
        return Err(MissingAttribute("src"));
      }
      title := img.attrs["alt"];
      imgSrc := img.attrs["src"];
      assert imgs[..k + 1][..k] == imgs[..k];
      k := k + 1;
    }
    assert imgs[..k] == imgs;
    return Ok((title, imgSrc));
  }

  /**
   * One pass of the middle loop of `pull_story_list`: the entries of the anchors
   * of item `i` put into the dictionary built over the items before it. An error
   * here is the error of the whole list.
   */
  method AddItem(items: seq<Item>, i: nat, storyList: StoryList) returns (r: Result<StoryList, ParseError>)
    requires i < |items|
    requires StoryListOf(Flatten(items[..i])) == Ok(storyList)
    ensures r.Ok? ==> r == StoryListOf(Flatten(items[..i + 1]))
    ensures r.Err? ==> r == StoryListOf(Flatten(items))
  {
    var item := items[i];
    var list := storyList;
    FlattenStep(items, i);
    assert Flatten(items[..i]) + item[..0] == Flatten(items[..i]);
    var j := 0;
    while j < |item|
      invariant 0 <= j <= |item|
      invariant StoryListOf(Flatten(items[..i]) + item[..j]) == Ok(list)
    {
      var data := item[j];
      if "href" !in data.attrs {
        StoryListEntryErr(items, i, j);
        return Err(MissingAttribute("href"));
      }
      var link := data.attrs["href"];
      var fields := ReadImages(data.imgs);
      if fields.Err? {
        StoryListEntryErr(items, i, j);
        return Err(fields.error);
      }
      var (title, imgSrc) := fields.value;
      StoryListStep(items, i, j, list);
      list := Put(list, link, StoryEntry(title, imgSrc, []));
      j := j + 1;
    }
    assert item[..j] == item;
    return Ok(list);
  }

  /**
   * `pull_story_list`: the dictionary built over every `item-img` anchor of every
   * `search-story-item` of the `panel-search-story` container.
   */
  method PullStoryList(container: Option<seq<Item>>) returns (r: Result<StoryList, ParseError>)
    ensures container.None? ==> r == Err(MissingElement("panel-search-story"))
    ensures container.Some? ==> r == StoryListOf(Flatten(container.value))
  {
    if container.None? {
      return Err(MissingElement("panel-search-story"));
    }
    var items := container.value;
    var storyList := EmptyStoryList;
    var i := 0;
    while i < |items|
      invariant 0 <= i <= |items|
      invariant StoryListOf(Flatten(items[..i])) == Ok(storyList)
    {
      var added := AddItem(items, i, storyList);
      if added.Err? {
        return added;
      }
      storyList := added.value;
      i := i + 1;
    }
    assert items[..i] == items;
    return Ok(storyList);
  }

  /**
   * `pull_story_info`: the description text without its first 15 characters and
   * the number of `a-h` entries of the chapter list. The description is looked up
   * before the chapter list, so its absence is reported first.
   */
  method PullStoryInfo<T>(description: Option<string>, chapterItems: Option<seq<T>>)
    returns (r: Result<StoryInfo, ParseError>)
    ensures description.None? ==> r == Err(MissingElement("panel-story-info-description"))
    ensures description.Some? && chapterItems.None? ==> r == Err(MissingElement("row-content-chapter"))
    ensures description.Some? && chapterItems.Some? ==>
      r.Ok? && r.value.chapters == |chapterItems.value| &&
      r.value.desc == SliceFrom(description.value, 15)
  {
    var counter := 0;
    if description.None? {
      return Err(MissingElement("panel-story-info-description"));
    }
    var desc := description.value;
    if chapterItems.None? {
      return Err(MissingElement("row-content-chapter"));
    }
    var chapters := chapterItems.value;
    var i := 0;
    while i < |chapters|
      invariant 0 <= i <= |chapters|
      invariant counter == i
    {
      counter := counter + 1;
      i := i + 1;
    }
    return Ok(StoryInfo(SliceFrom(desc, 15), counter));
  }

  /** The description drops exactly its 15-character prefix, or is empty when shorter. */
  lemma InfoDescription(d: string)
    ensures |d| >= 15 ==> d == d[..15] + SliceFrom(d, 15)
    ensures |d| <= 15 ==> SliceFrom(d, 15) == ""
  {
  }
}
