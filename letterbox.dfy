/** The letterbox geometry of `resize_image` (KDE) and
    `convert_to_bmp_with_padding` (Windows): the source image is scaled by
    the smaller of the two screen-to-image ratios, truncated to whole pixels
    and pasted centred on a black canvas of exactly the screen size.

    The program computes the ratios in floating point; here they are exact
    rationals, compared by cross-multiplication: the width ratio W/w is the
    smaller one exactly when W*h <= H*w. */
module Letterbox {

  /** A width and height in pixels. */
  datatype Size = Size(width: int, height: int)

  /** Where the scaled image goes on the canvas. The canvas itself is filled
      with black (`Image.new("RGB", screen_size, (0, 0, 0))`). */
  datatype Layout = Layout(canvas: Size, scaled: Size, offsetX: int, offsetY: int)

  /** A fitted wallpaper file: its name in the wallpapers directory, the
      screen size it was drawn for and the size of the source image. What it
      shows is the letterbox `Fit(canvas, source)`. */
  datatype Fitted = Fitted(name: string, canvas: Size, source: Size) {
    function Drawn(): Layout
      requires Positive(source)
    {
      Fit(canvas, source)
    }
  }

  predicate Positive(s: Size) {
    s.width > 0 && s.height > 0
  }

  /** `int(a / b)` for b > 0: Python's `int()` of a float truncates toward zero. */
  function TruncDiv(a: int, b: int): (q: int)
    requires b > 0
    ensures a >= 0 ==> q * b <= a < (q + 1) * b
    ensures a < 0 ==> q <= 0 && (q - 1) * b < a <= q * b
  {
    if a >= 0 then a / b else -((-a) / b)
  }

  /** The scaled image lies entirely on the canvas: nothing is cropped. */
  predicate Inside(l: Layout) {
    && 0 <= l.scaled.width && 0 <= l.scaled.height
    && 0 <= l.offsetX && l.offsetX + l.scaled.width <= l.canvas.width
    && 0 <= l.offsetY && l.offsetY + l.scaled.height <= l.canvas.height
  }

  /** The left (top) black bar is as wide as the right (bottom) one, or one
      pixel narrower. */
  predicate Centred(l: Layout) {
    && l.offsetX <= l.canvas.width - l.scaled.width - l.offsetX <= l.offsetX + 1
    && l.offsetY <= l.canvas.height - l.scaled.height - l.offsetY <= l.offsetY + 1
  }

  /** `scaled.height` is the height of `image` scaled to `scaled.width`,
      cut down to whole pixels. */
  predicate HeightTruncated(image: Size, scaled: Size) {
    scaled.height * image.width <= image.height * scaled.width < (scaled.height + 1) * image.width
  }

  /** `scaled.width` is the width of `image` scaled to `scaled.height`,
      cut down to whole pixels. */
  predicate WidthTruncated(image: Size, scaled: Size) {
    scaled.width * image.height <= image.width * scaled.height < (scaled.width + 1) * image.height
  }

  /** The letterbox of `image` on `screen`. A decoded image has positive
      sides; the screen size is whatever the program read, possibly not
      positive, and the arithmetic is carried out all the same. */
  function Fit(screen: Size, image: Size): (r: Layout)
    requires Positive(image)
    ensures r.canvas == screen
    ensures Positive(screen) ==> Inside(r) && Centred(r)
  {
    var W, H, w, h := screen.width, screen.height, image.width, image.height;
    var scaled :=
      if W * h <= H * w then Size(W, TruncDiv(h * W, w))
      else Size(TruncDiv(w * H, h), H);
    ScaledSides(W, H, w, h, scaled);
    Layout(screen, scaled, (W - scaled.width) / 2, (H - scaled.height) / 2)
  }

  /** The side with the smaller screen-to-image ratio fills the screen;
      on a tie both do. */
  lemma FitFillsOneSide(screen: Size, image: Size)
    requires Positive(image)
    ensures var s := Fit(screen, image).scaled;
      && (screen.width * image.height <= screen.height * image.width ==> s.width == screen.width)
      && (screen.height * image.width <= screen.width * image.height ==> s.height == screen.height)
  {
    ScaledSides(screen.width, screen.height, image.width, image.height, Fit(screen, image).scaled);
  }

  /** The letterbox keeps the image's aspect ratio: the side with the
      smaller screen-to-image ratio is the screen's, and the other is its
      exact scaled length rounded down, never up. */
  lemma FitKeepsAspect(screen: Size, image: Size)
    requires Positive(screen) && Positive(image)
    ensures var s := Fit(screen, image).scaled;
      screen.width * image.height <= screen.height * image.width ==> s.width == screen.width && HeightTruncated(image, s)
    ensures var s := Fit(screen, image).scaled;
      screen.height * image.width < screen.width * image.height ==> s.height == screen.height && WidthTruncated(image, s)
  {
  }

  /** Helper for Fit: on a tie both sides fill, and on a positive screen the
      truncated side stays within it. */
  lemma ScaledSides(W: int, H: int, w: int, h: int, scaled: Size)
    requires w > 0 && h > 0
    requires scaled == if W * h <= H * w then Size(W, TruncDiv(h * W, w)) else Size(TruncDiv(w * H, h), H)
    ensures W * h == H * w ==> scaled == Size(W, H)
    ensures W > 0 && H > 0 ==> 0 <= scaled.width <= W && 0 <= scaled.height <= H
  {
    if W * h <= H * w {
      if W * h == H * w {
        ExactQuotient(h * W, H, w);
      }
      if W > 0 && H > 0 {
        TruncatedWithin(h * W, H, w);
      }
    } else if W > 0 && H > 0 {
      TruncatedWithin(w * H, W, h);
    }
  }

  /** Truncating x*c / c gives x back. */
  lemma ExactQuotient(a: int, x: int, c: int)
    requires c > 0 && a == x * c
    ensures TruncDiv(a, c) == x
  {
    var q := TruncDiv(a, c);
    if a >= 0 {
      ProductsOrder(q, x, c);
      ProductsOrder(x, q + 1, c);
    } else {
      ProductsOrder(q - 1, x, c);
      ProductsOrder(x, q, c);
    }
  }

  /** Truncating a / c for 0 < a <= x*c gives a value in [0, x]. */
  lemma TruncatedWithin(a: int, x: int, c: int)
    requires c > 0 && 0 < a <= x * c
    ensures 0 <= TruncDiv(a, c) <= x
  {
    var q := TruncDiv(a, c);
    ProductsOrder(q, x, c);
    ProductsOrder(0, q + 1, c);
  }

  /** Dividing both sides of a strict or non-strict inequality by c > 0. */
  lemma ProductsOrder(a: int, b: int, c: int)
    requires c > 0
    ensures a * c <= b * c ==> a <= b
    ensures a * c < b * c ==> a < b
  {
    if a > b {
      MonotoneProduct(b + 1, a, c);
      assert (b + 1) * c == b * c + c;
    } else if a == b {
    }
  }

  /** No larger image of exactly the source's aspect ratio fits the screen:
      the scale is the largest one that crops nothing. */
  lemma FitIsLargest(screen: Size, image: Size, other: Size)
    requires Positive(screen) && Positive(image)
    requires 0 <= other.width <= screen.width && 0 <= other.height <= screen.height
    requires other.width * image.height == other.height * image.width
    ensures other.width <= Fit(screen, image).scaled.width
    ensures other.height <= Fit(screen, image).scaled.height
  {
    var W, H, w, h := screen.width, screen.height, image.width, image.height;
    var s := Fit(screen, image).scaled;
    FitKeepsAspect(screen, image);
    FitFillsOneSide(screen, image);
    if W * h <= H * w {
      // the width fills and the height is the truncation of h*W/w
      MonotoneProduct(other.width, W, h);
      assert other.height * w < (s.height + 1) * w;
      ProductsOrder(other.height, s.height + 1, w);
    } else {
      MonotoneProduct(other.height, H, w);
      assert other.width * h < (s.width + 1) * h;
      ProductsOrder(other.width, s.width + 1, h);
    }
  }

  lemma MonotoneProduct(a: int, b: int, c: int)
    requires a <= b && c > 0
    ensures a * c <= b * c
  {
  }

  /** The scale is not capped at 1: an image smaller than the screen in both
      directions is enlarged, never shrunk. */
  lemma FitEnlargesSmallImages(screen: Size, image: Size)
    requires Positive(image)
    requires image.width <= screen.width && image.height <= screen.height
    ensures Fit(screen, image).scaled.width >= image.width
    ensures Fit(screen, image).scaled.height >= image.height
  {
    var W, H, w, h := screen.width, screen.height, image.width, image.height;
    var s := Fit(screen, image).scaled;
    if W * h <= H * w {
      MonotoneProduct(w, W, h);
      assert h * w < (s.height + 1) * w;
      ProductsOrder(h, s.height + 1, w);
    } else {
      MonotoneProduct(h, H, w);
      assert w * h < (s.width + 1) * h;
      ProductsOrder(w, s.width + 1, h);
    }
  }

  /** A 4000x2000 photograph on a 1920x1080 screen: the width ratio 0.48 is
      the smaller, so the image becomes 1920x960 with 60-pixel bars above
      and below. */
  lemma WideImageExample()
    ensures Fit(Size(1920, 1080), Size(4000, 2000)) == Layout(Size(1920, 1080), Size(1920, 960), 0, 60)
  {
  }

  /** A 3x2 image on a 10x7 screen: the width ratio 10/3 is the smaller, so
      the height 2 * 10/3 = 6.67 is cut down to 6, leaving one black row. */
  lemma TruncatedSideExample()
    ensures Fit(Size(10, 7), Size(3, 2)) == Layout(Size(10, 7), Size(10, 6), 0, 0)
  {
  }
}
