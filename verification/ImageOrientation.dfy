/**
 Orientation of an image for text recognition: rotating or mirroring the pixel
 grid, and the box that a region of the stored image has in the oriented one.
 */
module ImageOrientation {
  import opened Wrappers

  datatype Orientation = Upright | Rotated90 | Rotated180 | Rotated270 | Mirrored | Unrecognized

  /** A grid of pixels, row by row. */
  datatype Image<T> = Image(width: nat, height: nat, rows: seq<seq<T>>) {
    ghost predicate Valid() {
      |rows| == height && forall y :: 0 <= y < height ==> |rows[y]| == width
    }

    function At(x: int, y: int): T
      requires Valid() && 0 <= x < width && 0 <= y < height
    {
      rows[y][x]
    }
  }

  datatype Box = Box(x: int, y: int, width: int, height: int)

  predicate Inside(b: Box, width: int, height: int) {
    0 <= b.x && 0 <= b.y && 0 <= b.width && 0 <= b.height && b.x + b.width <= width && b.y + b.height <= height
  }

  /** The image of a size whose pixel at a place is that of `image` at another place. */
  function Rearranged<T>(image: Image<T>, width: nat, height: nat, from: (int, int) -> (int, int)): (r: Image<T>)
    requires image.Valid()
    requires forall x, y :: 0 <= x < width && 0 <= y < height ==>
               0 <= from(x, y).0 < image.width && 0 <= from(x, y).1 < image.height
    ensures r.Valid() && r.width == width && r.height == height
    ensures forall x, y :: 0 <= x < width && 0 <= y < height ==> r.At(x, y) == image.At(from(x, y).0, from(x, y).1)
  {
    Image(width, height, seq(height, y requires 0 <= y < height =>
      seq(width, x requires 0 <= x < width && 0 <= y < height => image.At(from(x, y).0, from(x, y).1))))
  }

  // the transpositions of the image library; its rotations are counter-clockwise

  function Rotate90<T>(i: Image<T>): Image<T>
    requires i.Valid()
  {
    Rearranged(i, i.height, i.width, (x: int, y: int) => (i.width - 1 - y, x))
  }

  function Rotate180<T>(i: Image<T>): Image<T>
    requires i.Valid()
  {
    Rearranged(i, i.width, i.height, (x: int, y: int) => (i.width - 1 - x, i.height - 1 - y))
  }

  function Rotate270<T>(i: Image<T>): Image<T>
    requires i.Valid()
  {
    Rearranged(i, i.height, i.width, (x: int, y: int) => (y, i.height - 1 - x))
  }

  function FlipLeftRight<T>(i: Image<T>): Image<T>
    requires i.Valid()
  {
    Rearranged(i, i.width, i.height, (x: int, y: int) => (i.width - 1 - x, y))
  }

  function Crop<T>(i: Image<T>, b: Box): Image<T>
    requires i.Valid() && Inside(b, i.width, i.height)
  {
    Rearranged(i, b.width, b.height, (x: int, y: int) => (b.x + x, b.y + y))
  }

  function Orient<T>(i: Image<T>, o: Orientation): (r: Image<T>)
    requires i.Valid()
    ensures r.Valid() && (r.width, r.height) == OrientedSize(i.width, i.height, o)
  {
    match o
    case Rotated90 => Rotate270(i)
    case Rotated180 => Rotate180(i)
    case Rotated270 => Rotate90(i)
    case Mirrored => FlipLeftRight(i)
    case _ => i
  }

  function OrientedSize(width: nat, height: nat, o: Orientation): (nat, nat) {
    if o in {Rotated90, Rotated270} then (height, width) else (width, height)
  }

  function OrientedBox(region: Box, width: int, height: int, o: Orientation): Option<Box> {
    if region.x + region.width > width || region.y + region.height > height then None
    else
      match o
      case Rotated90 => Some(Box(height - (region.y + region.height), region.x, region.height, region.width))
      case Rotated180 =>
        Some(Box(width - (region.x + region.width), height - (region.y + region.height), region.width, region.height))
      case Rotated270 => Some(Box(region.y, width - (region.x + region.width), region.height, region.width))
      case Mirrored => Some(Box(width - (region.x + region.width), region.y, region.width, region.height))
      case _ => Some(region)
  }

  // ----- pixels and boxes move together -------------------------------------------------------

  lemma SameImage<T>(a: Image<T>, b: Image<T>)
    requires a.Valid() && b.Valid() && a.width == b.width && a.height == b.height
    requires forall x, y :: 0 <= x < a.width && 0 <= y < a.height ==> a.At(x, y) == b.At(x, y)
    ensures a == b
  {
    forall y | 0 <= y < a.height ensures a.rows[y] == b.rows[y] {
      forall x | 0 <= x < a.width ensures a.rows[y][x] == b.rows[y][x] {
        assert a.At(x, y) == b.At(x, y);
      }
    }
  }

  lemma OrientedBoxFits(region: Box, width: nat, height: nat, o: Orientation)
    requires Inside(region, width, height)
    ensures OrientedBox(region, width, height, o).Some?
    ensures var size := OrientedSize(width, height, o);
      Inside(OrientedBox(region, width, height, o).value, size.0, size.1)
  {
  }

  /** Where a pixel of the oriented image comes from. */
  function Origin(width: nat, height: nat, o: Orientation, x: int, y: int): (int, int) {
    match o
    case Rotated90 => (y, height - 1 - x)
    case Rotated180 => (width - 1 - x, height - 1 - y)
    case Rotated270 => (width - 1 - y, x)
    case Mirrored => (width - 1 - x, y)
    case _ => (x, y)
  }

  lemma OrientAt<T>(image: Image<T>, o: Orientation, x: int, y: int)
    requires image.Valid()
    requires 0 <= x < Orient(image, o).width && 0 <= y < Orient(image, o).height
    ensures var from := Origin(image.width, image.height, o, x, y);
      && 0 <= from.0 < image.width && 0 <= from.1 < image.height
      && Orient(image, o).At(x, y) == image.At(from.0, from.1)
  {
    hide Rearranged;
  }

  lemma CropAt<T>(image: Image<T>, b: Box, x: int, y: int)
    requires image.Valid() && Inside(b, image.width, image.height) && 0 <= x < b.width && 0 <= y < b.height
    ensures Crop(image, b).Valid() && Crop(image, b).width == b.width && Crop(image, b).height == b.height
    ensures Crop(image, b).At(x, y) == image.At(b.x + x, b.y + y)
  {
  }

  /** Cropping the oriented image by the oriented box is orienting the cropped region. */
  lemma CroppingCommutes<T>(image: Image<T>, region: Box, o: Orientation)
    requires image.Valid() && Inside(region, image.width, image.height)
    ensures var box := OrientedBox(region, image.width, image.height, o);
      && box.Some? && Inside(box.value, Orient(image, o).width, Orient(image, o).height)
      && Crop(Orient(image, o), box.value) == Orient(Crop(image, region), o)
  {
    OrientedBoxFits(region, image.width, image.height, o);
    var box := OrientedBox(region, image.width, image.height, o).value;
    var left, right := Crop(Orient(image, o), box), Orient(Crop(image, region), o);
    hide Orient, Rearranged, Image.At;
    forall x, y | 0 <= x < left.width && 0 <= y < left.height ensures left.At(x, y) == right.At(x, y) {
      PixelCommutes(image, region, o, x, y);
    }
    SameImage(left, right);
  }

  lemma PixelCommutes<T>(image: Image<T>, region: Box, o: Orientation, x: int, y: int)
    requires image.Valid() && Inside(region, image.width, image.height)
    requires OrientedBox(region, image.width, image.height, o).Some?
    requires Inside(OrientedBox(region, image.width, image.height, o).value, Orient(image, o).width, Orient(image, o).height)
    requires var box := OrientedBox(region, image.width, image.height, o).value;
      0 <= x < box.width && 0 <= y < box.height
    ensures Orient(Crop(image, region), o).width > x && Orient(Crop(image, region), o).height > y
    ensures Crop(Orient(image, o), OrientedBox(region, image.width, image.height, o).value).At(x, y)
            == Orient(Crop(image, region), o).At(x, y)
  {
    hide Orient, Crop, Rearranged, Image.At, Image.Valid;
    var box := OrientedBox(region, image.width, image.height, o).value;
    CropAt(Orient(image, o), box, x, y);
    OrientAt(image, o, box.x + x, box.y + y);
    CropSize(image, region);
    OrientAt(Crop(image, region), o, x, y);
    var from := Origin(region.width, region.height, o, x, y);
    CropAt(image, region, from.0, from.1);
  }

  lemma CropSize<T>(image: Image<T>, b: Box)
    requires image.Valid() && Inside(b, image.width, image.height)
    ensures Crop(image, b).Valid() && Crop(image, b).width == b.width && Crop(image, b).height == b.height
  {
  }

  function Inverse(o: Orientation): Orientation {
    match o
    case Rotated90 => Rotated270
    case Rotated270 => Rotated90
    case _ => o
  }

  /** Orienting loses nothing: the opposite orientation gives the image back. */
  lemma OrientingInverts<T>(image: Image<T>, o: Orientation)
    requires image.Valid()
    ensures Orient(Orient(image, o), Inverse(o)) == image
  {
    hide Orient, Image.At;
    forall x, y | 0 <= x < image.width && 0 <= y < image.height
      ensures Orient(Orient(image, o), Inverse(o)).At(x, y) == image.At(x, y)
    {
      InvertedAt(image, o, x, y);
    }
    SameImage(Orient(Orient(image, o), Inverse(o)), image);
  }

  lemma InvertedAt<T>(image: Image<T>, o: Orientation, x: int, y: int)
    requires image.Valid() && 0 <= x < image.width && 0 <= y < image.height
    requires Orient(Orient(image, o), Inverse(o)).width == image.width
    requires Orient(Orient(image, o), Inverse(o)).height == image.height
    ensures Orient(Orient(image, o), Inverse(o)).At(x, y) == image.At(x, y)
  {
    hide Orient, Image.At, Image.Valid;
    var turned := Orient(image, o);
    OrientAt(turned, Inverse(o), x, y);
    var from := Origin(turned.width, turned.height, Inverse(o), x, y);
    OrientAt(image, o, from.0, from.1);
  }

  /** Nor do boxes: the opposite orientation gives the region back. */
  lemma BoxInverts(region: Box, width: nat, height: nat, o: Orientation)
    requires Inside(region, width, height)
    ensures var size := OrientedSize(width, height, o);
      var box := OrientedBox(region, width, height, o);
      box.Some? && OrientedBox(box.value, size.0, size.1, Inverse(o)) == Some(region)
  {
  }
}
