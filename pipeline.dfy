/**
 * The `/c` (convert) branch of `lambda_handler`: the names derived from the request
 * (series id, scratch directories, PDF file name, upload key), the naming of the
 * downloaded pages, and the loop that appends, chapter by chapter in ascending
 * order, one page per image file in natural order.
 */
module Pipeline {
  import opened Wrappers
  import opened PyStr
  import opened NaturalSort
  import opened PageLayout
  import opened Document

  /** `s[len(s) - 8:]`: the series id taken from the series link. */
  function SeriesId(s: string): string
  {
    SliceFrom(s, |s| - 8)
  }

  /**
   * A link of eight characters or more gives its last eight. A shorter link gives,
   * through Python's negative slice start, only its last `min(|s|, 8 - |s|)`
   * characters (the last 3 of a 5-character link), not the whole link.
   */
  lemma SeriesIdSuffix(s: string)
    ensures |s| >= 8 ==> SeriesId(s) == s[|s| - 8..]
    ensures |s| < 8 ==> SeriesId(s) == s[|s| - (if |s| < 8 - |s| then |s| else 8 - |s|)..]
  {
    var r := SeriesId(s);
    assert s == s[..|s| - |r|] + r;
    assert r == s[|s| - |r|..];
  }

  /** `f'/tmp/{series_id}'`: the scratch directory of the request. */
  function Directory(seriesId: string): string
  {
    "/tmp/" + seriesId
  }

  /** `f'/tmp/{series_id}_{chapter_min}-{chapter_max}.pdf'` (the chapter bounds as received). */
  function PdfFileName(seriesId: string, first: string, last: string): string
  {
    "/tmp/" + seriesId + "_" + first + "-" + last + ".pdf"
  }

  /** `f'/tmp/{series_id}/{chapter}/'` */
  function ChapterDir(seriesId: string, chapter: int): string
  {
    "/tmp/" + seriesId + "/" + IntToString(chapter) + "/"
  }

  /** `file_name[5:]`: the object key the PDF is uploaded under. */
  function UploadKey(fileName: string): string
  {
    SliceFrom(fileName, 5)
  }

  /**
   * The upload key is the PDF's name without "/tmp/", so `upload_to_s3` reads back
   * exactly the file `pdf.output` wrote.
   */
  lemma UploadKeyRoundTrip(seriesId: string, first: string, last: string)
    ensures UploadKey(PdfFileName(seriesId, first, last)) == seriesId + "_" + first + "-" + last + ".pdf"
    ensures "/tmp/" + UploadKey(PdfFileName(seriesId, first, last)) == PdfFileName(seriesId, first, last)
  {
    var name := PdfFileName(seriesId, first, last);
    assert name == "/tmp/" + (seriesId + "_" + first + "-" + last + ".pdf");
  }

  /** Each chapter gets its own directory inside the request's scratch directory. */
  lemma ChapterDirsDisjoint(seriesId: string, c1: int, c2: int)
    ensures ChapterDir(seriesId, c1) == Directory(seriesId) + "/" + IntToString(c1) + "/"
    ensures ChapterDir(seriesId, c1) == ChapterDir(seriesId, c2) <==> c1 == c2
  {
    if ChapterDir(seriesId, c1) == ChapterDir(seriesId, c2) {
      var p := "/tmp/" + seriesId + "/";
      var d1, d2 := ChapterDir(seriesId, c1), ChapterDir(seriesId, c2);
      assert d1 == p + (IntToString(c1) + "/");
      assert d2 == p + (IntToString(c2) + "/");
      assert IntToString(c1) + "/" == d1[|p|..];
      assert IntToString(c1) == (IntToString(c1) + "/")[..|d1| - |p| - 1];
      assert IntToString(c2) == (IntToString(c2) + "/")[..|d2| - |p| - 1];
      IntToStringInjective(c1, c2);
    }
  }

  /** `f'{str(idx+1)}.jpg'`: the file name of the page at 1-based `position` in a chapter. */
  function PageFileName(position: nat): string
  {
    NatToString(position) + ".jpg"
  }

  /** The files `pull_chapter_image` writes for a chapter of `n` images, in page order. */
  function WrittenNames(n: nat): (names: seq<string>)
    ensures |names| == n
  {
    seq(n, i requires 0 <= i < n => PageFileName(i + 1))
  }

  /** `re.split` cuts "N.jpg" into the empty text, the digits of N, and ".jpg". */
  lemma PageFileNameSplit(position: nat)
    ensures Split(PageFileName(position)) == ["", NatToString(position), ".jpg"]
  {
    var digits := NatToString(position);
    var parts := ["", digits, ".jpg"];
    assert IsRunSplit(parts) by {
      assert NoDigits(".jpg") by {
        assert forall i :: 0 <= i < 4 ==> !IsDigit(".jpg"[i]);
      }
    }
    ConcatCons(".jpg", []);
    ConcatCons(digits, [".jpg"]);
    ConcatCons("", [digits, ".jpg"]);
    SplitUnique(PageFileName(position), parts);
  }

  /** The three runs of "N.jpg" convert to the empty text, the number N, and ".jpg". */
  lemma PageFileNameRuns(position: nat)
    ensures KeyOf(["", NatToString(position), ".jpg"]) == [Text(""), Num(position), Text(".jpg")]
  {
    var parts := ["", NatToString(position), ".jpg"];
    KeyOfAt(parts, 0);
    KeyOfAt(parts, 1);
    KeyOfAt(parts, 2);
    LowerNoUpper(".jpg");
    assert Lower("") == "";
    assert !IsDigitString(".jpg") by {
      assert !IsDigit(".jpg"[0]);
    }
  }

  lemma PageFileNameKey(position: nat)
    ensures Key(PageFileName(position)) == [Text(""), Num(position), Text(".jpg")]
  {
    PageFileNameSplit(position);
    PageFileNameRuns(position);
  }

  /** Page files sort by their numeric position: "2.jpg" before "10.jpg". */
  lemma PageFileNameOrder(i: nat, j: nat)
    ensures KeyLess(Key(PageFileName(i)), Key(PageFileName(j))) <==> i < j
  {
    PageFileNameKey(i);
    PageFileNameKey(j);
    var ki, kj := Key(PageFileName(i)), Key(PageFileName(j));
    TextLessIrreflexive("");
    assert ki[1..] == [Num(i), Text(".jpg")] && kj[1..] == [Num(j), Text(".jpg")];
    assert ki[1..][1..] == [Text(".jpg")] && kj[1..][1..] == [Text(".jpg")];
    KeyLessIrreflexive([Text(".jpg")]);
  }

  /** A page file is never after one of a later position. */
  lemma PageFileNameLe(i: nat, j: nat)
    requires i <= j
    ensures KeyLe(Key, PageFileName(i), PageFileName(j))
  {
    PageFileNameOrder(j, i);
  }

  /** Page files of different positions have different keys. */
  lemma PageFileNameKeyInjective(i: nat, j: nat)
    requires Key(PageFileName(i)) == Key(PageFileName(j))
    ensures i == j
  {
    PageFileNameKey(i);
    PageFileNameKey(j);
    assert Key(PageFileName(i))[1] == Num(i);
  }

  lemma WrittenNamesSorted(n: nat)
    ensures SortedBy(Key, WrittenNames(n))
  {
    var written := WrittenNames(n);
    forall i, j | 0 <= i < j < n
      ensures KeyLe(Key, written[i], written[j])
    {
      var x, y := PageFileName(i + 1), PageFileName(j + 1);
      assert written[i] == x && written[j] == y;
      PageFileNameLe(i + 1, j + 1);
    }
  }

  lemma WrittenNamesKeysDistinct(n: nat)
    ensures KeysDistinct(Key, WrittenNames(n))
  {
    var written := WrittenNames(n);
    forall i, j | 0 <= i < n && 0 <= j < n && Key(written[i]) == Key(written[j])
      ensures written[i] == written[j]
    {
      var x, y := PageFileName(i + 1), PageFileName(j + 1);
      assert written[i] == x && written[j] == y;
      PageFileNameKeyInjective(i + 1, j + 1);
    }
  }

  /**
   * Whatever order the directory listing returns the files `pull_chapter_image`
   * wrote, the natural sort gives them back in page order: "1.jpg", ..., "n.jpg".
   */
  lemma SortWrittenNames(listing: seq<string>, n: nat)
    requires multiset(listing) == multiset(WrittenNames(n))
    ensures AlphanumSort(listing) == WrittenNames(n)
  {
    WrittenNamesSorted(n);
    WrittenNamesKeysDistinct(n);
    SortByPermutes(Key, listing);
    SortBySorted(Key, listing);
    SortedPermutationUnique(Key, WrittenNames(n), AlphanumSort(listing));
  }

  /** `os.listdir(chapter_dir)` after each chapter's download, by chapter number. */
  type Listing = int -> seq<string>

  /** The image file behind each name of each chapter. */
  type Files = (int, string) -> ImageFile

  /** Three page files in increasing position are already in natural order. */
  lemma ThreePageFilesSorted(p: nat, q: nat, r: nat)
    requires p < q < r
    ensures SortedBy(Key, [PageFileName(p), PageFileName(q), PageFileName(r)])
    ensures KeysDistinct(Key, [PageFileName(p), PageFileName(q), PageFileName(r)])
  {
    var names := [PageFileName(p), PageFileName(q), PageFileName(r)];
    var positions := [p, q, r];
    assert forall i :: 0 <= i < 3 ==> names[i] == PageFileName(positions[i]);
    forall i, j | 0 <= i < j < 3
      ensures KeyLe(Key, names[i], names[j])
    {
      PageFileNameLe(positions[i], positions[j]);
    }
    forall i, j | 0 <= i < 3 && 0 <= j < 3 && Key(names[i]) == Key(names[j])
      ensures names[i] == names[j]
    {
      PageFileNameKeyInjective(positions[i], positions[j]);
    }
  }

  lemma ExampleFileNames()
    ensures PageFileName(1) == "1.jpg" && PageFileName(2) == "2.jpg" && PageFileName(10) == "10.jpg"
  {
    assert DigitChar(0) == '0' && DigitChar(1) == '1' && DigitChar(2) == '2';
    assert NatToString(1) == "1" && NatToString(2) == "2";
    assert NatToString(10) == NatToString(1) + [DigitChar(0)] == "10";
  }

  /** A listing of three page files in any rotation sorts back into position order. */
  lemma SortRotatedPageFiles(p: nat, q: nat, r: nat)
    requires p < q < r
    ensures AlphanumSort([PageFileName(q), PageFileName(r), PageFileName(p)])
         == [PageFileName(p), PageFileName(q), PageFileName(r)]
  {
    var listing := [PageFileName(q), PageFileName(r), PageFileName(p)];
    var ordered := [PageFileName(p), PageFileName(q), PageFileName(r)];
    ThreePageFilesSorted(p, q, r);
    assert multiset(listing) == multiset(ordered);
    SortByPermutes(Key, listing);
    SortBySorted(Key, listing);
    SortedPermutationUnique(Key, ordered, AlphanumSort(listing));
  }

  /** "10.jpg" sorts after "2.jpg", where a character-by-character sort would put it first. */
  lemma SortsTenAfterTwo()
    ensures AlphanumSort(["2.jpg", "10.jpg", "1.jpg"]) == ["1.jpg", "2.jpg", "10.jpg"]
  {
    ExampleFileNames();
    SortRotatedPageFiles(1, 2, 10);
  }

  /** The pages of the images `names` in that order, `page` giving each image's page. */
  function PagesOf(names: seq<string>, page: string -> Page): (pages: seq<Page>)
    ensures |pages| == |names|
  {
    if names == [] then [] else PagesOf(names[..|names| - 1], page) + [page(names[|names| - 1])]
  }

  /** Page `k` comes from the `k`-th image. */
  lemma {:induction false} PagesOfAt(names: seq<string>, page: string -> Page, k: nat)
    requires k < |names|
    ensures PagesOf(names, page)[k] == page(names[k])
  {
    if k < |names| - 1 {
      PagesOfAt(names[..|names| - 1], page, k);
    }
  }

  /** One more image adds its page after those so far. */
  lemma PagesOfStep(names: seq<string>, i: nat, page: string -> Page)
    requires i < |names|
    ensures PagesOf(names[..i + 1], page) == PagesOf(names[..i], page) + [page(names[i])]
  {
    assert names[..i + 1][..i] == names[..i];
  }

  /** The pages of chapters `lo` to `hi - 1`, ascending, `block` giving each chapter's pages. */
  function BlocksOf(lo: int, hi: int, block: int -> seq<Page>): seq<Page>
    decreases hi - lo
  {
    if hi <= lo then [] else BlocksOf(lo, hi - 1, block) + block(hi - 1)
  }

  /** The pages of a range are those of its first part followed by those of the rest. */
  lemma {:induction false} BlocksOfSplit(lo: int, mid: int, hi: int, block: int -> seq<Page>)
    requires lo <= mid <= hi
    ensures BlocksOf(lo, hi, block) == BlocksOf(lo, mid, block) + BlocksOf(mid, hi, block)
    decreases hi - mid
  {
    if mid < hi {
      BlocksOfSplit(lo, mid, hi - 1, block);
    }
  }

  /** A chapter's pages sit between those of the earlier and the later chapters of the range. */
  lemma BlocksOfAround(lo: int, c: int, hi: int, block: int -> seq<Page>)
    requires lo <= c < hi
    ensures BlocksOf(lo, hi, block) == BlocksOf(lo, c, block) + block(c) + BlocksOf(c + 1, hi, block)
  {
    BlocksOfSplit(lo, c, hi, block);
    BlocksOfSplit(c, c + 1, hi, block);
    assert BlocksOf(c, c + 1, block) == block(c);
  }

  /** The page `add_page_to_pdf` appends for image `img` of `chapter` when `Image.open` reads it. */
  function ChapterPage(seriesId: string, chapter: int, files: Files): string -> Page
  {
    img => PageFor(ChapterDir(seriesId, chapter), img, files(chapter, img))
  }

  /** The pages appended for the images `names` of `chapter`, in that order. */
  function ChapterPages(seriesId: string, chapter: int, names: seq<string>, files: Files): (pages: seq<Page>)
    ensures |pages| == |names|
  {
    PagesOf(names, ChapterPage(seriesId, chapter, files))
  }

  /** `alphanum_sort(os.listdir(chapter_dir))` for every chapter: the names the page loop visits. */
  function SortedListing(listing: Listing): (sorted: Listing)
  {
    c => AlphanumSort(listing(c))
  }

  /** The pages appended for `chapter`: one per name of `sorted(chapter)`, in that order. */
  function ChapterBlock(seriesId: string, sorted: Listing, files: Files): int -> seq<Page>
  {
    c => ChapterPages(seriesId, c, sorted(c), files)
  }

  /** The pages appended for chapters `lo` to `hi - 1`, ascending, each in natural order. */
  function RangePages(seriesId: string, lo: int, hi: int, sorted: Listing, files: Files): seq<Page>
  {
    BlocksOf(lo, hi, ChapterBlock(seriesId, sorted, files))
  }

  /** The pages of one more chapter go after those of the range so far. */
  lemma RangePagesStep(seriesId: string, lo: int, chapter: int, sorted: Listing, files: Files)
    requires lo <= chapter
    ensures RangePages(seriesId, lo, chapter + 1, sorted, files)
         == RangePages(seriesId, lo, chapter, sorted, files)
          + ChapterPages(seriesId, chapter, sorted(chapter), files)
  {
    assert ChapterBlock(seriesId, sorted, files)(chapter) == ChapterPages(seriesId, chapter, sorted(chapter), files);
  }

  /** One more image of a chapter adds its page after the chapter's earlier pages. */
  lemma ChapterPagesStep(seriesId: string, chapter: int, names: seq<string>, i: nat, files: Files)
    requires i < |names|
    ensures ChapterPages(seriesId, chapter, names[..i + 1], files)
         == ChapterPages(seriesId, chapter, names[..i], files)
          + [PageFor(ChapterDir(seriesId, chapter), names[i], files(chapter, names[i]))]
  {
    PagesOfStep(names, i, ChapterPage(seriesId, chapter, files));
  }

  /** The number of listed images in chapters `lo` to `hi - 1`. */
  function ImageCount(lo: int, hi: int, listing: Listing): nat
    decreases hi - lo
  {
    if hi <= lo then 0 else ImageCount(lo, hi - 1, listing) + |listing(hi - 1)|
  }

  lemma SortedLength(names: seq<string>)
    ensures |AlphanumSort(names)| == |names|
  {
    SortByPermutes(Key, names);
    assert |AlphanumSort(names)| == |multiset(AlphanumSort(names))| == |names|;
  }

  /** One page per listed image: the document has as many pages as the chapters have images. */
  lemma {:induction false} RangePagesCount(seriesId: string, lo: int, hi: int, listing: Listing, files: Files)
    ensures |RangePages(seriesId, lo, hi, SortedListing(listing), files)| == ImageCount(lo, hi, listing)
    decreases hi - lo
  {
    if lo < hi {
      RangePagesCount(seriesId, lo, hi - 1, listing, files);
      SortedLength(listing(hi - 1));
      var sorted := SortedListing(listing);
      assert sorted(hi - 1) == AlphanumSort(listing(hi - 1));
      assert |ChapterBlock(seriesId, sorted, files)(hi - 1)| == |sorted(hi - 1)|;
    }
  }

  /** The pages of a chapter range are those of its lower part followed by those of its upper part. */
  lemma RangePagesSplit(seriesId: string, lo: int, mid: int, hi: int, sorted: Listing, files: Files)
    requires lo <= mid <= hi
    ensures RangePages(seriesId, lo, hi, sorted, files)
         == RangePages(seriesId, lo, mid, sorted, files) + RangePages(seriesId, mid, hi, sorted, files)
  {
    BlocksOfSplit(lo, mid, hi, ChapterBlock(seriesId, sorted, files));
  }

  /** Page `k` of a chapter comes from its `k`-th image. */
  lemma ChapterPagesAt(seriesId: string, chapter: int, names: seq<string>, files: Files, k: nat)
    requires k < |names|
    ensures ChapterPages(seriesId, chapter, names, files)[k]
         == PageFor(ChapterDir(seriesId, chapter), names[k], files(chapter, names[k]))
  {
    PagesOfAt(names, ChapterPage(seriesId, chapter, files), k);
  }

  /**
   * The document lists chapter `c` after all earlier chapters of the range and
   * before all later ones, and when `c`'s directory holds the files
   * `pull_chapter_image` wrote, that block is in page order "1.jpg", ..., "n.jpg".
   */
  lemma WrittenChapterInPlace(seriesId: string, lo: int, hi: int, c: int, n: nat, listing: Listing, files: Files)
    requires lo <= c < hi
    requires multiset(listing(c)) == multiset(WrittenNames(n))
    ensures var sorted := SortedListing(listing);
         RangePages(seriesId, lo, hi, sorted, files)
         == RangePages(seriesId, lo, c, sorted, files)
          + ChapterPages(seriesId, c, WrittenNames(n), files)
          + RangePages(seriesId, c + 1, hi, sorted, files)
  {
    var block := ChapterBlock(seriesId, SortedListing(listing), files);
    BlocksOfAround(lo, c, hi, block);
    SortWrittenNames(listing(c), n);
    assert block(c) == ChapterPages(seriesId, c, WrittenNames(n), files);
  }

  /** Page `k` of a chapter holding the written files comes from image "k+1.jpg". */
  lemma WrittenChapterOrder(seriesId: string, c: int, n: nat, files: Files, k: nat)
    requires k < n
    ensures ChapterPages(seriesId, c, WrittenNames(n), files)[k]
         == PageFor(ChapterDir(seriesId, c), PageFileName(k + 1), files(c, PageFileName(k + 1)))
  {
    var written := WrittenNames(n);
    assert written[k] == PageFileName(k + 1);
    ChapterPagesAt(seriesId, c, written, files, k);
  }

  /**
   * How many of `names`, taken in order, `Image.open` reads before the first one it
   * cannot (all of them when it reads every one).
   */
  function OpenCount(chapter: int, names: seq<string>, files: Files): (k: nat)
    ensures k <= |names|
    ensures forall j :: 0 <= j < k ==> files(chapter, names[j]).opens
    ensures k < |names| ==> !files(chapter, names[k]).opens
  {
    if names == [] || !files(chapter, names[0]).opens then 0
    else
      var k := 1 + OpenCount(chapter, names[1..], files);
      assert forall j :: 1 <= j < k ==> names[j] == names[1..][j - 1];
      k
  }

  /** The loop over a chapter's names gets past name `i` when `Image.open` reads it. */
  lemma OpenCountNext(chapter: int, names: seq<string>, files: Files, i: nat)
    requires i < |names| && i <= OpenCount(chapter, names, files)
    requires files(chapter, names[i]).opens
    ensures i + 1 <= OpenCount(chapter, names, files)
  {
  }

  /** The loop over a chapter's names stops at name `i` when `Image.open` cannot read it. */
  lemma OpenCountStop(chapter: int, names: seq<string>, files: Files, i: nat)
    requires i < |names| && i <= OpenCount(chapter, names, files)
    requires !files(chapter, names[i]).opens
    ensures OpenCount(chapter, names, files) == i
  {
  }

  /** The natural sort lists exactly the names it is given. */
  lemma SortedMembers(names: seq<string>)
    ensures forall name :: name in AlphanumSort(names) <==> name in names
  {
    SortByPermutes(Key, names);
    forall name
      ensures name in AlphanumSort(names) <==> name in names
    {
      assert name in AlphanumSort(names) <==> name in multiset(AlphanumSort(names));
    }
  }

  /** `Image.open` reads every image listed for `chapter`, taken in natural order. */
  predicate ChapterOpens(chapter: int, sorted: Listing, files: Files)
  {
    OpenCount(chapter, sorted(chapter), files) == |sorted(chapter)|
  }

  /**
   * The chapter loop gets through `chapter` exactly when every file listed for it
   * opens, whatever order the sort puts them in.
   */
  lemma ChapterOpensListed(chapter: int, listing: Listing, files: Files)
    ensures ChapterOpens(chapter, SortedListing(listing), files)
        <==> forall name :: name in listing(chapter) ==> files(chapter, name).opens
  {
    var names := AlphanumSort(listing(chapter));
    assert SortedListing(listing)(chapter) == names;
    SortedMembers(listing(chapter));
    var k := OpenCount(chapter, names, files);
    if k < |names| {
      assert names[k] in listing(chapter);
    } else {
      forall name | name in listing(chapter)
        ensures files(chapter, name).opens
      {
        assert name in names;
        var j :| 0 <= j < |names| && names[j] == name;
      }
    }
  }

  /** Some chapter of a range stops the loop exactly when some file listed for it does not open. */
  lemma RangeOpensListed(lo: int, hi: int, listing: Listing, files: Files)
    ensures (exists c :: lo <= c < hi && !ChapterOpens(c, SortedListing(listing), files))
        <==> exists c, name :: lo <= c < hi && name in listing(c) && !files(c, name).opens
  {
    if c :| lo <= c < hi && !ChapterOpens(c, SortedListing(listing), files) {
      ChapterOpensListed(c, listing, files);
    }
    if c, name :| lo <= c < hi && name in listing(c) && !files(c, name).opens {
      ChapterOpensListed(c, listing, files);
    }
  }

  /** The pages appended for `chapter`: one per sorted image, up to the first one that does not open. */
  function OpenedPages(seriesId: string, chapter: int, sorted: Listing, files: Files): (pages: seq<Page>)
  {
    var names := sorted(chapter);
    ChapterPages(seriesId, chapter, names[..OpenCount(chapter, names, files)], files)
  }

  /** The first pages of a chapter are the pages of its first images. */
  lemma ChapterPagesPrefix(seriesId: string, chapter: int, names: seq<string>, files: Files, k: nat)
    requires k <= |names|
    ensures ChapterPages(seriesId, chapter, names[..k], files) == ChapterPages(seriesId, chapter, names, files)[..k]
  {
    var page := ChapterPage(seriesId, chapter, files);
    forall j | 0 <= j < k
      ensures PagesOf(names[..k], page)[j] == PagesOf(names, page)[j]
    {
      PagesOfAt(names[..k], page, j);
      PagesOfAt(names, page, j);
    }
  }

  /**
   * A chapter adds a prefix of its pages, one per image read before the first that
   * does not open; all of them when every file opens.
   */
  lemma OpenedPagesPrefix(seriesId: string, chapter: int, sorted: Listing, files: Files)
    ensures var whole := ChapterPages(seriesId, chapter, sorted(chapter), files);
      && OpenedPages(seriesId, chapter, sorted, files) == whole[..|OpenedPages(seriesId, chapter, sorted, files)|]
      && (ChapterOpens(chapter, sorted, files) <==> OpenedPages(seriesId, chapter, sorted, files) == whole)
  {
    var names := sorted(chapter);
    var k := OpenCount(chapter, names, files);
    ChapterPagesPrefix(seriesId, chapter, names, files, k);
    assert names[..|names|] == names;
  }

  /** `f'{chapter_dir}/{img}'` for the first image of `chapter`, in natural order, that does not open. */
  function UnreadablePath(seriesId: string, chapter: int, sorted: Listing, files: Files): (path: string)
    requires !ChapterOpens(chapter, sorted, files)
    ensures exists k :: 0 <= k < |sorted(chapter)| && !files(chapter, sorted(chapter)[k]).opens
                     && (forall j :: 0 <= j < k ==> files(chapter, sorted(chapter)[j]).opens)
                     && path == ImagePath(ChapterDir(seriesId, chapter), sorted(chapter)[k])
  {
    var names := sorted(chapter);
    ImagePath(ChapterDir(seriesId, chapter), names[OpenCount(chapter, names, files)])
  }

  /** What the loop over `chapter`'s images ends with: nothing raised, or `Image.open`'s error. */
  function ChapterOutcome(seriesId: string, chapter: int, sorted: Listing, files: Files): Result<(), OpenError>
  {
    if ChapterOpens(chapter, sorted, files) then Ok(())
    else Err(CannotOpen(UnreadablePath(seriesId, chapter, sorted, files)))
  }

  /** The first chapter from `lo` below `hi` with a file that does not open, or `hi` when there is none. */
  function FirstUnreadable(lo: int, hi: int, sorted: Listing, files: Files): (c: int)
    ensures lo <= c && (c <= hi || c == lo)
    ensures forall d :: lo <= d < c ==> ChapterOpens(d, sorted, files)
    ensures c < hi ==> !ChapterOpens(c, sorted, files)
    decreases hi - lo
  {
    if lo >= hi || !ChapterOpens(lo, sorted, files) then lo
    else FirstUnreadable(lo + 1, hi, sorted, files)
  }

  /**
   * The pages the chapter loop over `lo` to `hi - 1` adds: all pages of the chapters
   * before the first one holding a file that does not open, then that chapter's
   * pages up to that file.
   */
  function LoopPages(seriesId: string, lo: int, hi: int, sorted: Listing, files: Files): seq<Page>
  {
    var c := FirstUnreadable(lo, hi, sorted, files);
    if c < hi then RangePages(seriesId, lo, c, sorted, files) + OpenedPages(seriesId, c, sorted, files)
    else RangePages(seriesId, lo, hi, sorted, files)
  }

  /** What the chapter loop ends with: nothing raised, or `Image.open`'s error in the first chapter holding a file it cannot read. */
  function LoopOutcome(seriesId: string, lo: int, hi: int, sorted: Listing, files: Files): Result<(), OpenError>
  {
    var c := FirstUnreadable(lo, hi, sorted, files);
    if c < hi then ChapterOutcome(seriesId, c, sorted, files) else Ok(())
  }

  /**
   * The chapter loop raises exactly when some chapter of the range lists a file
   * `Image.open` cannot read, and then names the first such file, in natural
   * order, of a chapter all of whose predecessors in the range open completely.
   */
  lemma LoopOutcomeErr(seriesId: string, lo: int, hi: int, sorted: Listing, files: Files)
    ensures LoopOutcome(seriesId, lo, hi, sorted, files).Err?
        <==> exists c :: lo <= c < hi && !ChapterOpens(c, sorted, files)
    ensures LoopOutcome(seriesId, lo, hi, sorted, files).Err? ==>
      exists c, k :: lo <= c < hi && 0 <= k < |sorted(c)| && !files(c, sorted(c)[k]).opens
        && (forall j :: 0 <= j < k ==> files(c, sorted(c)[j]).opens)
        && (forall d :: lo <= d < c ==> ChapterOpens(d, sorted, files))
        && LoopOutcome(seriesId, lo, hi, sorted, files).error == CannotOpen(ImagePath(ChapterDir(seriesId, c), sorted(c)[k]))
  {
    var c := FirstUnreadable(lo, hi, sorted, files);
    if c < hi {
      var path := UnreadablePath(seriesId, c, sorted, files);
      var k :| 0 <= k < |sorted(c)| && !files(c, sorted(c)[k]).opens
        && (forall j :: 0 <= j < k ==> files(c, sorted(c)[j]).opens)
        && path == ImagePath(ChapterDir(seriesId, c), sorted(c)[k]);
      assert LoopOutcome(seriesId, lo, hi, sorted, files).error == CannotOpen(ImagePath(ChapterDir(seriesId, c), sorted(c)[k]));
    } else {
      forall d | lo <= d < hi
        ensures ChapterOpens(d, sorted, files)
      {
      }
    }
  }

  /** A prefix of a middle part, after the same front, is a prefix of the whole. */
  lemma PrefixInside(front: seq<Page>, part: seq<Page>, whole: seq<Page>, after: seq<Page>)
    requires |part| <= |whole| && part == whole[..|part|]
    ensures |front + part| <= |front + whole + after|
    ensures front + part == (front + whole + after)[..|front + part|]
  {
  }

  /**
   * The document the chapter loop leaves is always a prefix of the one it builds
   * when every file opens, and is all of it exactly when the loop raises nothing.
   */
  lemma LoopPagesPrefix(seriesId: string, lo: int, hi: int, sorted: Listing, files: Files)
    ensures var full := RangePages(seriesId, lo, hi, sorted, files);
      var pages := LoopPages(seriesId, lo, hi, sorted, files);
      |pages| <= |full| && pages == full[..|pages|]
    ensures LoopOutcome(seriesId, lo, hi, sorted, files).Ok? ==>
      LoopPages(seriesId, lo, hi, sorted, files) == RangePages(seriesId, lo, hi, sorted, files)
  {
    var c := FirstUnreadable(lo, hi, sorted, files);
    if c < hi {
      var block := ChapterBlock(seriesId, sorted, files);
      BlocksOfAround(lo, c, hi, block);
      OpenedPagesPrefix(seriesId, c, sorted, files);
      PrefixInside(RangePages(seriesId, lo, c, sorted, files), OpenedPages(seriesId, c, sorted, files),
                   block(c), RangePages(seriesId, c + 1, hi, sorted, files));
    }
  }

  /** Where the chapter loop ends: the pages it has appended and what it raised, if anything. */
  datatype LoopEnd = LoopEnd(pages: seq<Page>, outcome: Result<(), OpenError>)

  /**
   * The chapter loop run from `chapter` to `hi - 1` once `done` is in the document,
   * step by step as the handler runs it: each chapter's pages in turn, stopping
   * after the first chapter holding a file that does not open.
   */
  function RunChapters(seriesId: string, chapter: int, hi: int, sorted: Listing, files: Files, done: seq<Page>): LoopEnd
    decreases hi - chapter
  {
    if hi <= chapter then LoopEnd(done, Ok(()))
    else
      var pages := done + OpenedPages(seriesId, chapter, sorted, files);
      if ChapterOpens(chapter, sorted, files) then RunChapters(seriesId, chapter + 1, hi, sorted, files, pages)
      else LoopEnd(pages, ChapterOutcome(seriesId, chapter, sorted, files))
  }

  /** A range split after its first chapter. */
  lemma RangePagesFront(seriesId: string, lo: int, hi: int, sorted: Listing, files: Files)
    requires lo < hi
    ensures RangePages(seriesId, lo, hi, sorted, files)
         == ChapterPages(seriesId, lo, sorted(lo), files) + RangePages(seriesId, lo + 1, hi, sorted, files)
  {
    RangePagesSplit(seriesId, lo, lo + 1, hi, sorted, files);
    var block := ChapterBlock(seriesId, sorted, files);
    assert BlocksOf(lo, lo + 1, block) == BlocksOf(lo, lo, block) + block(lo);
    assert BlocksOf(lo, lo, block) + block(lo) == block(lo);
  }

  lemma AppendRegroup(a: seq<Page>, b: seq<Page>, c: seq<Page>, d: seq<Page>)
    ensures a + (b + c + d) == a + b + (c + d)
  {
  }

  /**
   * Running the loop step by step ends where the closed form says: the earlier
   * document, then the pages of the chapters before the first one holding a file
   * that does not open, then that chapter's pages up to that file.
   */
  lemma {:induction false} RunChaptersClosedForm(seriesId: string, chapter: int, hi: int, sorted: Listing, files: Files, done: seq<Page>)
    ensures RunChapters(seriesId, chapter, hi, sorted, files, done)
         == LoopEnd(done + LoopPages(seriesId, chapter, hi, sorted, files), LoopOutcome(seriesId, chapter, hi, sorted, files))
    decreases hi - chapter
  {
    var c := FirstUnreadable(chapter, hi, sorted, files);
    if hi <= chapter {
      assert RangePages(seriesId, chapter, hi, sorted, files) == [];
      assert done + [] == done;
    } else if !ChapterOpens(chapter, sorted, files) {
      assert c == chapter;
      assert RangePages(seriesId, chapter, chapter, sorted, files) == [];
      assert [] + OpenedPages(seriesId, chapter, sorted, files) == OpenedPages(seriesId, chapter, sorted, files);
    } else {
      var first := OpenedPages(seriesId, chapter, sorted, files);
      RunChaptersClosedForm(seriesId, chapter + 1, hi, sorted, files, done + first);
      assert c == FirstUnreadable(chapter + 1, hi, sorted, files);
      OpenedPagesPrefix(seriesId, chapter, sorted, files);
      var end := if c < hi then c else hi;
      var tail := if c < hi then OpenedPages(seriesId, c, sorted, files) else [];
      RangePagesFront(seriesId, chapter, end, sorted, files);
      var rest := RangePages(seriesId, chapter + 1, end, sorted, files);
      assert LoopPages(seriesId, chapter, hi, sorted, files) == first + rest + tail;
      assert LoopPages(seriesId, chapter + 1, hi, sorted, files) == rest + tail;
      AppendRegroup(done, first, rest, tail);
    }
  }

  /**
   * The chapter loop over the sorted listing raises exactly when some chapter of
   * the range lists a file `Image.open` cannot read, and then names the first such
   * file, in natural order, of the first such chapter.
   */
  lemma RunChaptersOutcome(seriesId: string, lo: int, hi: int, listing: Listing, files: Files)
    ensures var run := RunChapters(seriesId, lo, hi, SortedListing(listing), files, []);
      run.outcome.Err? <==> exists c, name :: lo <= c < hi && name in listing(c) && !files(c, name).opens
    ensures var run := RunChapters(seriesId, lo, hi, SortedListing(listing), files, []);
      run.outcome.Err? ==>
        exists c, k :: lo <= c < hi && 0 <= k < |AlphanumSort(listing(c))|
          && AlphanumSort(listing(c))[k] in listing(c) && !files(c, AlphanumSort(listing(c))[k]).opens
          && (forall j :: 0 <= j < k ==> files(c, AlphanumSort(listing(c))[j]).opens)
          && (forall d, other :: lo <= d < c && other in listing(d) ==> files(d, other).opens)
          && run.outcome.error == CannotOpen(ImagePath(ChapterDir(seriesId, c), AlphanumSort(listing(c))[k]))
  {
    RunChaptersFail(seriesId, lo, hi, listing, files);
    RunChaptersStop(seriesId, lo, hi, listing, files);
  }

  lemma RunChaptersFail(seriesId: string, lo: int, hi: int, listing: Listing, files: Files)
    ensures var run := RunChapters(seriesId, lo, hi, SortedListing(listing), files, []);
      run.outcome.Err? <==> exists c, name :: lo <= c < hi && name in listing(c) && !files(c, name).opens
  {
    var sorted := SortedListing(listing);
    RunChaptersClosedForm(seriesId, lo, hi, sorted, files, []);
    LoopOutcomeErr(seriesId, lo, hi, sorted, files);
    RangeOpensListed(lo, hi, listing, files);
  }

  lemma RunChaptersStop(seriesId: string, lo: int, hi: int, listing: Listing, files: Files)
    ensures var run := RunChapters(seriesId, lo, hi, SortedListing(listing), files, []);
      run.outcome.Err? ==>
        exists c, k :: lo <= c < hi && 0 <= k < |AlphanumSort(listing(c))|
          && AlphanumSort(listing(c))[k] in listing(c) && !files(c, AlphanumSort(listing(c))[k]).opens
          && (forall j :: 0 <= j < k ==> files(c, AlphanumSort(listing(c))[j]).opens)
          && (forall d, other :: lo <= d < c && other in listing(d) ==> files(d, other).opens)
          && run.outcome.error == CannotOpen(ImagePath(ChapterDir(seriesId, c), AlphanumSort(listing(c))[k]))
  {
    RunChaptersClosedForm(seriesId, lo, hi, SortedListing(listing), files, []);
    var outcome := LoopOutcome(seriesId, lo, hi, SortedListing(listing), files);
    if outcome.Err? {
      LoopOutcomeListed(seriesId, lo, hi, listing, files, outcome.error);
    }
  }

  /** The stop of the loop, restated against the listing sorted in natural order. */
  lemma LoopOutcomeListed(seriesId: string, lo: int, hi: int, listing: Listing, files: Files, error: OpenError)
    requires LoopOutcome(seriesId, lo, hi, SortedListing(listing), files) == Err(error)
    ensures exists c, k :: lo <= c < hi && 0 <= k < |AlphanumSort(listing(c))|
                          && AlphanumSort(listing(c))[k] in listing(c) && !files(c, AlphanumSort(listing(c))[k]).opens
                          && (forall j :: 0 <= j < k ==> files(c, AlphanumSort(listing(c))[j]).opens)
                          && (forall d, other :: lo <= d < c && other in listing(d) ==> files(d, other).opens)
                          && error == CannotOpen(ImagePath(ChapterDir(seriesId, c), AlphanumSort(listing(c))[k]))
  {
    var sorted := SortedListing(listing);
    LoopOutcomeErr(seriesId, lo, hi, sorted, files);
    var c, k :| lo <= c < hi && 0 <= k < |sorted(c)| && !files(c, sorted(c)[k]).opens
      && (forall j :: 0 <= j < k ==> files(c, sorted(c)[j]).opens)
      && (forall d :: lo <= d < c ==> ChapterOpens(d, sorted, files))
      && error == CannotOpen(ImagePath(ChapterDir(seriesId, c), sorted(c)[k]));
    StopListed(seriesId, lo, c, k, listing, files, error);
  }

  /** What the sorted listing says about the chapter that stops the loop, said of the directory listing. */
  lemma StopListed(seriesId: string, lo: int, c: int, k: nat, listing: Listing, files: Files, error: OpenError)
    requires k < |SortedListing(listing)(c)| && !files(c, SortedListing(listing)(c)[k]).opens
    requires forall j :: 0 <= j < k ==> files(c, SortedListing(listing)(c)[j]).opens
    requires forall d :: lo <= d < c ==> ChapterOpens(d, SortedListing(listing), files)
    requires error == CannotOpen(ImagePath(ChapterDir(seriesId, c), SortedListing(listing)(c)[k]))
    ensures k < |AlphanumSort(listing(c))|
    ensures AlphanumSort(listing(c))[k] in listing(c) && !files(c, AlphanumSort(listing(c))[k]).opens
    ensures forall j :: 0 <= j < k ==> files(c, AlphanumSort(listing(c))[j]).opens
    ensures forall d, other :: lo <= d < c && other in listing(d) ==> files(d, other).opens
    ensures error == CannotOpen(ImagePath(ChapterDir(seriesId, c), AlphanumSort(listing(c))[k]))
  {
    assert SortedListing(listing)(c) == AlphanumSort(listing(c));
    SortedMembers(listing(c));
    assert AlphanumSort(listing(c))[k] in AlphanumSort(listing(c));
    forall d, other | lo <= d < c && other in listing(d)
      ensures files(d, other).opens
    {
      ChapterOpensListed(d, listing, files);
    }
  }

  /**
   * The document the loop leaves is always a prefix of the one it builds when every
   * file opens, and is all of it when the loop raises nothing.
   */
  lemma RunChaptersPages(seriesId: string, lo: int, hi: int, sorted: Listing, files: Files)
    ensures var run := RunChapters(seriesId, lo, hi, sorted, files, []);
      var full := RangePages(seriesId, lo, hi, sorted, files);
      |run.pages| <= |full| && run.pages == full[..|run.pages|]
    ensures var run := RunChapters(seriesId, lo, hi, sorted, files, []);
      run.outcome.Ok? ==> run.pages == RangePages(seriesId, lo, hi, sorted, files)
  {
    RunChaptersClosedForm(seriesId, lo, hi, sorted, files, []);
    LoopPagesPrefix(seriesId, lo, hi, sorted, files);
    assert [] + LoopPages(seriesId, lo, hi, sorted, files) == LoopPages(seriesId, lo, hi, sorted, files);
  }

  /**
   * The body of the chapter loop after the download, `for img in sorted(chapter):
   * add_page_to_pdf(pdf, chapter_dir, img)`: one page per name in order until
   * `Image.open` raises on one of them.
   */
  method AddChapter(pdf: Pdf, seriesId: string, chapter: int, sorted: Listing, files: Files)
    returns (r: Result<(), OpenError>)
    modifies pdf
    ensures pdf.pages == old(pdf.pages) + OpenedPages(seriesId, chapter, sorted, files)
    ensures r == ChapterOutcome(seriesId, chapter, sorted, files)
  {
    var chapterDir := ChapterDir(seriesId, chapter);
    var names := sorted(chapter);
    var i := 0;
    while i < |names|
      invariant 0 <= i <= |names| && i <= OpenCount(chapter, names, files)
      invariant pdf.pages == old(pdf.pages) + ChapterPages(seriesId, chapter, names[..i], files)
    {
      var added := AddPageToPdf(pdf, chapterDir, names[i], files(chapter, names[i]));
      if added.Err? {
        OpenCountStop(chapter, names, files, i);
        return Err(added.error);
      }
      OpenCountNext(chapter, names, files, i);
      ChapterPagesStep(seriesId, chapter, names, i, files);
      i := i + 1;
    }
    assert names[..i] == names;
    return Ok(());
  }

  /**
   * The chapter loop, `pdf = FPDF()` then `for chapter in range(lo, hi + 1)`, over
   * the names `sorted` gives each chapter directory: each chapter's pages in turn,
   * none when `hi < lo`, until `Image.open` raises inside the first chapter holding
   * a file it cannot read.
   */
  method AddChapters(seriesId: string, lo: int, hi: int, sorted: Listing, files: Files)
    returns (pdf: Pdf, r: Result<(), OpenError>)
    ensures fresh(pdf)
    ensures LoopEnd(pdf.pages, r) == RunChapters(seriesId, lo, hi + 1, sorted, files, [])
  {
    pdf := new Pdf();
    var chapter := lo;
    while chapter < hi + 1
      invariant RunChapters(seriesId, chapter, hi + 1, sorted, files, pdf.pages)
             == RunChapters(seriesId, lo, hi + 1, sorted, files, [])
    {
      var added := AddChapter(pdf, seriesId, chapter, sorted, files);
      if added.Err? {
        return pdf, added;
      }
      chapter := chapter + 1;
    }
    return pdf, Ok(());
  }

  datatype ConvertError = InvalidChapterNumber(text: string) | UnreadableImage(path: string)

  /**
   * The outcome of a convert request: the handler's reply, the PDF written, the
   * key it is uploaded under, and the document's pages.
   */
  datatype Converted = Converted(reply: string, fileName: string, uploadKey: string, pages: seq<Page>)

  /** The answer to a convert request whose document is `pages`: "see s3", the PDF written and its upload key. */
  function Uploaded(seriesId: string, first: string, last: string, pages: seq<Page>): Converted
  {
    var fileName := PdfFileName(seriesId, first, last);
    Converted("see s3", fileName, UploadKey(fileName), pages)
  }

  /**
   * What the `/c` branch of `lambda_handler` answers for query parameters `s`, `f`
   * and `l`: `int(f)` failing, then `int(l)` failing, is a ValueError; otherwise
   * the chapter loop runs from `int(f)` to `int(l)` over each chapter directory's
   * listing in natural order, and either raises `Image.open`'s error or leaves the
   * document that is written and uploaded.
   */
  function ConvertReply(s: string, first: string, last: string, listing: Listing, files: Files): Result<Converted, ConvertError>
  {
    var lo := ParseInt(first);
    if lo.None? then Err(InvalidChapterNumber(first))
    else
      var hi := ParseInt(last);
      if hi.None? then Err(InvalidChapterNumber(last))
      else
        ReplyOf(s, first, last, RunChapters(SeriesId(s), lo.value, hi.value + 1, SortedListing(listing), files, []))
  }

  /** The reply once the chapter loop has ended: its error, or "see s3" with the document it left. */
  function ReplyOf(s: string, first: string, last: string, run: LoopEnd): Result<Converted, ConvertError>
  {
    if run.outcome.Err? then Err(UnreadableImage(run.outcome.error.path))
    else Ok(Uploaded(SeriesId(s), first, last, run.pages))
  }

  lemma ConvertRuns(s: string, first: string, last: string, listing: Listing, files: Files)
    requires ParseInt(first).Some? && ParseInt(last).Some?
    ensures ConvertReply(s, first, last, listing, files).Err? <==>
      RunChapters(SeriesId(s), ParseInt(first).value, ParseInt(last).value + 1, SortedListing(listing), files, []).outcome.Err?
  {
  }

  /**
   * Given each chapter's listing after its download, a request fails exactly when
   * a chapter bound is not a number or some chapter of the range lists a file
   * `Image.open` cannot read.
   */
  lemma ConvertFails(s: string, first: string, last: string, listing: Listing, files: Files)
    ensures ConvertReply(s, first, last, listing, files).Err? <==>
      || ParseInt(first).None?
      || ParseInt(last).None?
      || exists c, name :: ParseInt(first).value <= c <= ParseInt(last).value && name in listing(c) && !files(c, name).opens
  {
    if ParseInt(first).Some? && ParseInt(last).Some? {
      var lo, hi := ParseInt(first).value, ParseInt(last).value;
      ConvertRuns(s, first, last, listing, files);
      RunChaptersOutcome(SeriesId(s), lo, hi + 1, listing, files);
    }
  }

  /** A chapter bound that is not an integer is reported as given, `f` before `l`. */
  lemma ConvertBadNumber(s: string, first: string, last: string, listing: Listing, files: Files)
    ensures ParseInt(first).None? || ParseInt(last).None? <==>
      (ConvertReply(s, first, last, listing, files).Err? && ConvertReply(s, first, last, listing, files).error.InvalidChapterNumber?)
    ensures ParseInt(first).None? || ParseInt(last).None? ==>
      ConvertReply(s, first, last, listing, files) == Err(InvalidChapterNumber(if ParseInt(first).None? then first else last))
  {
  }

  /**
   * A request over valid bounds that fails names the first listed file, in natural
   * order, that `Image.open` cannot read, in the first chapter of the range that
   * has one.
   */
  lemma ConvertUnreadable(s: string, first: string, last: string, listing: Listing, files: Files)
    requires ParseInt(first).Some? && ParseInt(last).Some?
    ensures ConvertReply(s, first, last, listing, files).Err? ==>
      exists c, k :: ParseInt(first).value <= c <= ParseInt(last).value && 0 <= k < |AlphanumSort(listing(c))|
        && AlphanumSort(listing(c))[k] in listing(c) && !files(c, AlphanumSort(listing(c))[k]).opens
        && (forall j :: 0 <= j < k ==> files(c, AlphanumSort(listing(c))[j]).opens)
        && (forall d, other :: ParseInt(first).value <= d < c && other in listing(d) ==> files(d, other).opens)
        && ConvertReply(s, first, last, listing, files).error
           == UnreadableImage(ImagePath(ChapterDir(SeriesId(s), c), AlphanumSort(listing(c))[k]))
  {
    RunChaptersOutcome(SeriesId(s), ParseInt(first).value, ParseInt(last).value + 1, listing, files);
  }

  /**
   * A request that succeeds writes `/tmp/{series_id}_{f}-{l}.pdf`, uploads it under
   * that name without "/tmp/", and its document holds, for every chapter from
   * `int(f)` to `int(l)` ascending (none when `int(l) < int(f)`), one page per
   * listed image in natural order.
   */
  lemma ConvertDocument(s: string, first: string, last: string, listing: Listing, files: Files)
    ensures ConvertReply(s, first, last, listing, files).Ok? ==>
      var fileName := PdfFileName(SeriesId(s), first, last);
      ConvertReply(s, first, last, listing, files).value
        == Converted("see s3", fileName, UploadKey(fileName),
                     RangePages(SeriesId(s), ParseInt(first).value, ParseInt(last).value + 1, SortedListing(listing), files))
  {
    if ParseInt(first).Some? && ParseInt(last).Some? {
      RunChaptersPages(SeriesId(s), ParseInt(first).value, ParseInt(last).value + 1, SortedListing(listing), files);
    }
  }

  /** Over valid bounds, the reply is decided by how the chapter loop ends. */
  lemma ConvertFromRun(s: string, first: string, last: string, listing: Listing, files: Files,
                       pages: seq<Page>, outcome: Result<(), OpenError>)
    requires ParseInt(first).Some? && ParseInt(last).Some?
    requires LoopEnd(pages, outcome)
          == RunChapters(SeriesId(s), ParseInt(first).value, ParseInt(last).value + 1, SortedListing(listing), files, [])
    ensures ConvertReply(s, first, last, listing, files)
         == if outcome.Err? then Err(UnreadableImage(outcome.error.path)) else Ok(Uploaded(SeriesId(s), first, last, pages))
  {
    assert ConvertReply(s, first, last, listing, files) == ReplyOf(s, first, last, LoopEnd(pages, outcome));
  }

  /**
   * The `/c` branch of `lambda_handler` once both bounds are numbers, given each
   * chapter directory's listing already in natural order: run the chapter loop
   * and, when it raises nothing, answer "see s3".
   */
  method RunRequest(s: string, first: string, last: string, sorted: Listing, files: Files)
    returns (r: Result<Converted, ConvertError>)
    requires ParseInt(first).Some? && ParseInt(last).Some?
    ensures r == ReplyOf(s, first, last, RunChapters(SeriesId(s), ParseInt(first).value, ParseInt(last).value + 1, sorted, files, []))
  {
    var pdf, added := AddChapters(SeriesId(s), ParseInt(first).value, ParseInt(last).value, sorted, files);
    r := ReplyOf(s, first, last, LoopEnd(pdf.pages, added));
  }

  /**
   * The `/c` branch of `lambda_handler`: parse the chapter bounds, run the chapter
   * loop, and answer "see s3" with the PDF it wrote and uploaded.
   */
  method ConvertRequest(s: string, first: string, last: string, listing: Listing, files: Files)
    returns (r: Result<Converted, ConvertError>)
    ensures r == ConvertReply(s, first, last, listing, files)
  {
    var lo := ParseInt(first);
    if lo.None? {
      return Err(InvalidChapterNumber(first));
    }
    var hi := ParseInt(last);
    if hi.None? {
      return Err(InvalidChapterNumber(last));
    }
    r := RunRequest(s, first, last, SortedListing(listing), files);
  }
}
