/**
 * The page layout `add_page_to_pdf` computes for one image: pixel sizes scaled to
 * millimetres, the page orientation, and the displayed size clamped per axis to the
 * A4 page of that orientation. Arithmetic is exact (`real`), not IEEE floating point.
 */
module PageLayout {

  datatype Orientation = Portrait | Landscape

  /** Millimetres per pixel at 96 dpi. */
  const MmPerPixel: real := 0.264583

  /** `pdf_sizes[orientation]['w']`: A4 width in millimetres. */
  function MaxWidth(o: Orientation): real
  {
    if o == Portrait then 210.0 else 297.0
  }

  /** `pdf_sizes[orientation]['h']`: A4 height in millimetres. */
  function MaxHeight(o: Orientation): real
  {
    if o == Portrait then 297.0 else 210.0
  }

  /** Orientation and displayed size of one page. */
  datatype Layout = Layout(orientation: Orientation, width: real, height: real)

  /** `w if w < bound else bound` */
  function Clamp(x: real, bound: real): real
  {
    if x < bound then x else bound
  }

  /**
   * The layout for an image of `pixelWidth` x `pixelHeight` pixels. Portrait exactly
   * when the image is narrower than it is tall (a square image is Landscape); each
   * displayed side is the smaller of the scaled side and the page's bound for that
   * side, so the image never exceeds the page, and the aspect ratio is not kept.
   */
  function Resolve(pixelWidth: nat, pixelHeight: nat): (l: Layout)
    ensures l.orientation == Portrait <==> pixelWidth < pixelHeight
    ensures 0.0 <= l.width <= MaxWidth(l.orientation)
    ensures 0.0 <= l.height <= MaxHeight(l.orientation)
    ensures l.width <= pixelWidth as real * MmPerPixel
    ensures l.height <= pixelHeight as real * MmPerPixel
    ensures l.width == pixelWidth as real * MmPerPixel || l.width == MaxWidth(l.orientation)
    ensures l.height == pixelHeight as real * MmPerPixel || l.height == MaxHeight(l.orientation)
  {
    var w := pixelWidth as real * MmPerPixel;
    var h := pixelHeight as real * MmPerPixel;
    var orientation := if w < h then Portrait else Landscape;
    Layout(orientation, Clamp(w, MaxWidth(orientation)), Clamp(h, MaxHeight(orientation)))
  }

  /** An image whose scaled size fits the page is shown at its scaled size. */
  lemma ResolveKeepsFittingSize(pixelWidth: nat, pixelHeight: nat)
    requires pixelWidth as real * MmPerPixel < MaxWidth(Resolve(pixelWidth, pixelHeight).orientation)
    requires pixelHeight as real * MmPerPixel < MaxHeight(Resolve(pixelWidth, pixelHeight).orientation)
    ensures Resolve(pixelWidth, pixelHeight).width == pixelWidth as real * MmPerPixel
    ensures Resolve(pixelWidth, pixelHeight).height == pixelHeight as real * MmPerPixel
  {
  }

  /**
   * Clamping one side only distorts the image: a 100 x 4000 pixel strip is shown
   * 26.4583 mm wide but only 297 mm tall instead of 1058.332 mm.
   */
  lemma ResolveTallStrip()
    ensures Resolve(100, 4000) == Layout(Portrait, 26.4583, 297.0)
    ensures Resolve(1000, 500) == Layout(Landscape, 264.583, 132.2915)
  {
  }
}
