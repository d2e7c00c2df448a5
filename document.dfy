/**
 * The FPDF document the handler fills, and `add_page_to_pdf`, which appends one
 * page for one image file and places the image on it, with one PNG fallback.
 */
module Document {
  import opened Wrappers
  import opened PyStr
  import opened PageLayout

  /** One successful `pdf.image(path, x, y, w, h)` call. */
  datatype Placement = Placement(path: string, x: real, y: real, width: real, height: real)

  /** A page of the document and the images placed on it. */
  datatype Page = Page(orientation: Orientation, images: seq<Placement>)

  /**
   * An image file of a chapter, as far as the handler depends on it: whether
   * `Image.open` can read it at all (a file left empty by a failed download
   * cannot be read), its size in pixels, whether FPDF can embed the file as it is,
   * and whether re-saving it as PNG and embedding that copy succeeds.
   */
  datatype ImageFile = ImageFile(opens: bool, width: nat, height: nat, embeds: bool, pngEmbeds: bool)

  /** `Image.open` raising on the file at `path`; nothing in `add_page_to_pdf` catches it. */
  datatype OpenError = CannotOpen(path: string)

  /** The pages with `p` placed on the last one. */
  function PlaceOnLast(pages: seq<Page>, p: Placement): (r: seq<Page>)
    requires pages != []
    ensures |r| == |pages| && r[..|r| - 1] == pages[..|pages| - 1]
    ensures r[|r| - 1].orientation == pages[|pages| - 1].orientation
    ensures r[|r| - 1].images == pages[|pages| - 1].images + [p]
  {
    var last := pages[|pages| - 1];
    pages[..|pages| - 1] + [last.(images := last.images + [p])]
  }

  lemma PlaceOnBlank(pages: seq<Page>, o: Orientation, p: Placement)
    ensures PlaceOnLast(pages + [Page(o, [])], p) == pages + [Page(o, [p])]
  {
    var added := pages + [Page(o, [])];
    assert added[..|added| - 1] == pages;
    assert added[|added| - 1] == Page(o, []);
    assert Page(o, []).(images := [] + [p]) == Page(o, [p]);
  }

  /** The FPDF object: the pages added so far, in order. */
  class Pdf {
    var pages: seq<Page>

    /** `FPDF()`: an empty document. */
    constructor ()
      ensures pages == []
    {
      pages := [];
    }

    /** `pdf.add_page(orientation=...)`: a new blank page at the end. */
    method AddPage(orientation: Orientation)
      modifies this
      ensures pages == old(pages) + [Page(orientation, [])]
    {
      pages := pages + [Page(orientation, [])];
    }

    /**
     * `pdf.image(path, x, y, w, h)` on the current page. Whether FPDF can embed the
     * file is the input `embeds`; when it cannot, FPDF raises (`placed` is false)
     * and the document is as it was.
     */
    method Image(path: string, x: real, y: real, width: real, height: real, embeds: bool) returns (placed: bool)
      requires pages != []
      modifies this
      ensures placed == embeds
      ensures pages == if embeds then PlaceOnLast(old(pages), Placement(path, x, y, width, height)) else old(pages)
    {
      placed := embeds;
      if embeds {
        pages := PlaceOnLast(pages, Placement(path, x, y, width, height));
      }
    }
  }

  const FailureToConvert: string := "Failure to convert"

  /** `f'{chapter_dir}/{img}'` */
  function ImagePath(chapterDir: string, img: string): string
  {
    chapterDir + "/" + img
  }

  /** `f'{chapter_dir}/{img[:img.find(".jpg")]}.png'` */
  function PngPath(chapterDir: string, img: string): string
  {
    chapterDir + "/" + SliceTo(img, Find(img, ".jpg")) + ".png"
  }

  /** A name that ends in ".jpg" and has no earlier ".jpg" gets its PNG copy beside it. */
  lemma PngPathOfJpg(chapterDir: string, stem: string)
    requires forall k :: 0 <= k < |stem| ==> !OccursAt(stem + ".jpg", ".jpg", k)
    ensures PngPath(chapterDir, stem + ".jpg") == chapterDir + "/" + stem + ".png"
  {
    var img := stem + ".jpg";
    assert OccursAt(img, ".jpg", |stem|) by {
      assert img[|stem|..|stem| + 4] == ".jpg";
    }
    assert Find(img, ".jpg") == |stem|;
    assert SliceTo(img, |stem|) == stem;
  }

  /**
   * A name without ".jpg" makes `find` return -1, and the slice `img[:-1]` then drops
   * the name's last character: "cover.png" is re-saved as "cover.pn.png".
   */
  lemma PngPathWithoutJpg(chapterDir: string, img: string)
    requires img != []
    requires forall k :: 0 <= k <= |img| ==> !OccursAt(img, ".jpg", k)
    ensures PngPath(chapterDir, img) == chapterDir + "/" + img[..|img| - 1] + ".png"
  {
  }

  /**
   * The page `add_page_to_pdf` appends for `file`: the computed orientation, and the
   * image at the origin with the computed size, from the file itself, else from its
   * PNG copy, else none (the page stays blank).
   */
  function PageFor(chapterDir: string, img: string, file: ImageFile): Page
  {
    var l := Resolve(file.width, file.height);
    Page(l.orientation,
         if file.embeds then [Placement(ImagePath(chapterDir, img), 0.0, 0.0, l.width, l.height)]
         else if file.pngEmbeds then [Placement(PngPath(chapterDir, img), 0.0, 0.0, l.width, l.height)]
         else [])
  }

  /**
   * Every page `add_page_to_pdf` produces holds at most one image, placed at the
   * origin and no larger than the page of its orientation; the page is blank
   * exactly when the file and its PNG copy both fail to embed.
   */
  lemma PageForShape(chapterDir: string, img: string, file: ImageFile)
    ensures var page := PageFor(chapterDir, img, file);
      && (page.orientation == Portrait <==> file.width < file.height)
      && |page.images| <= 1
      && (page.images == [] <==> !file.embeds && !file.pngEmbeds)
      && forall p :: p in page.images ==>
           p.x == 0.0 && p.y == 0.0 &&
           0.0 <= p.width <= MaxWidth(page.orientation) && 0.0 <= p.height <= MaxHeight(page.orientation)
  {
  }

  /**
   * `add_page_to_pdf`: a file `Image.open` cannot read raises before any page is
   * added. Otherwise exactly one page is appended (before trying to place the
   * image), the earlier pages are kept, and "Failure to convert" is returned only
   * when the image and its PNG copy both fail to embed.
   */
  method AddPageToPdf(pdf: Pdf, chapterDir: string, img: string, file: ImageFile) returns (r: Result<Option<string>, OpenError>)
    modifies pdf
    ensures pdf.pages == if file.opens then old(pdf.pages) + [PageFor(chapterDir, img, file)] else old(pdf.pages)
    ensures r == if !file.opens then Err(CannotOpen(ImagePath(chapterDir, img)))
                 else if file.embeds || file.pngEmbeds then Ok(None)
                 else Ok(Some(FailureToConvert))
  {
    if !file.opens {
      return Err(CannotOpen(ImagePath(chapterDir, img)));
    }
    var l := Resolve(file.width, file.height);
    PlaceOnBlank(pdf.pages, l.orientation, Placement(ImagePath(chapterDir, img), 0.0, 0.0, l.width, l.height));
    PlaceOnBlank(pdf.pages, l.orientation, Placement(PngPath(chapterDir, img), 0.0, 0.0, l.width, l.height));
    pdf.AddPage(l.orientation);
    var placed := pdf.Image(ImagePath(chapterDir, img), 0.0, 0.0, l.width, l.height, file.embeds);
    if !placed {
      placed := pdf.Image(PngPath(chapterDir, img), 0.0, 0.0, l.width, l.height, file.pngEmbeds);
      if !placed {
        return Ok(Some(FailureToConvert));
      }
    }
    return Ok(None);
  }
}
