/**
 * `ImageConverterHelper.check_image_orientation`: reads the Orientation tag
 * (tag 274, 0x0112, a Baseline Field of section 8 of TIFF 6.0, reused by
 * Exif) and turns the image upright with one counter-clockwise rotation.
 * An image is abstract: what its Exif block reads as, and the rotations
 * applied to it so far.
 */
module Orientation {
  import opened Wrappers

  /** The id of the Orientation tag, the key `ExifTags.TAGS` gives the name 'Orientation'. */
  const OrientationTag: int := 274

  /** The exceptions reading the Exif block can raise; only the first three are caught. */
  datatype ErrorKind = AttributeError | KeyError | IndexError | OtherError

  /** What `image._getexif()` gives: `None`, a tag dictionary, or an exception. */
  datatype Exif = NoExif | Tags(tags: map<int, int>) | ReadFailed(error: ErrorKind)

  /** One call of `image.rotate(degrees, expand=...)`; PIL turns counter-clockwise. */
  datatype Rotation = Rotation(degrees: int, expand: bool)

  datatype Image = Image(exif: Exif, rotations: seq<Rotation>)

  /** The helper either returns an image or lets an exception escape. */
  datatype Outcome = Returned(image: Image) | Raised(error: ErrorKind)

  predicate IsCaught(e: ErrorKind) {
    e == AttributeError || e == KeyError || e == IndexError
  }

  /** The value of the Orientation tag, when the Exif block holds one. */
  function OrientationCode(exif: Exif): Option<int> {
    if exif.Tags? && OrientationTag in exif.tags then Some(exif.tags[OrientationTag]) else None
  }

  /** `image.rotate(degrees, expand=True)`. */
  function Rotate(image: Image, degrees: int): Image {
    image.(rotations := image.rotations + [Rotation(degrees, true)])
  }

  function CheckImageOrientation(image: Image): (r: Outcome)
    ensures r.Raised? <==> image.exif.ReadFailed? && !IsCaught(image.exif.error)
    ensures r.Returned? ==> r.image.exif == image.exif
    ensures r.Returned? && r.image != image ==>
      |r.image.rotations| == |image.rotations| + 1 &&
      r.image.rotations[..|image.rotations|] == image.rotations &&
      r.image.rotations[|image.rotations|].expand
    ensures r.Returned? ==>
      (r.image == image <==> OrientationCode(image.exif) !in {Some(3), Some(6), Some(8)})
  {
    match image.exif
    case ReadFailed(e) => if IsCaught(e) then Returned(image) else Raised(e)
    case NoExif => Returned(image)
    case Tags(tags) =>
      if OrientationTag in tags then
        if tags[OrientationTag] == 3 then Returned(Rotate(image, 180))
        else if tags[OrientationTag] == 6 then Returned(Rotate(image, 270))
        else if tags[OrientationTag] == 8 then Returned(Rotate(image, 90))
        else Returned(image)
      else Returned(image)
  }

  /** The angle chosen for each of the three codes that need a turn. */
  lemma OrientationAngles(image: Image)
    ensures OrientationCode(image.exif) == Some(3) ==> CheckImageOrientation(image) == Returned(Rotate(image, 180))
    ensures OrientationCode(image.exif) == Some(6) ==> CheckImageOrientation(image) == Returned(Rotate(image, 270))
    ensures OrientationCode(image.exif) == Some(8) ==> CheckImageOrientation(image) == Returned(Rotate(image, 90))
  {
  }

  /** A missing block, a missing tag or a caught read error leaves the image as it was. */
  lemma MissingOrientationKeepsImage(image: Image)
    requires image.exif.NoExif? || (image.exif.ReadFailed? && IsCaught(image.exif.error))
      || (image.exif.Tags? && OrientationTag !in image.exif.tags)
    ensures CheckImageOrientation(image) == Returned(image)
  {
  }

  // A small geometry of the canvas, to say what "upright" means.

  datatype Side = Top | Right | Bottom | Left

  /** Where a side of the canvas goes under one counter-clockwise quarter turn. */
  function QuarterTurn(s: Side): Side {
    match s
    case Top => Left
    case Left => Bottom
    case Bottom => Right
    case Right => Top
  }

  function QuarterTurns(s: Side, n: nat): Side
    decreases n
  {
    if n == 0 then s else QuarterTurns(QuarterTurn(s), n - 1)
  }

  /** Where a side goes when the image is turned `degrees` counter-clockwise (a multiple of 90). */
  function TurnSide(s: Side, degrees: int): Side {
    QuarterTurns(s, (degrees / 90) % 4)
  }

  /**
   * For the four unmirrored Orientation codes of TIFF 6.0, the stored side
   * that shows the visual top: 1 stores row 0 at the top, 3 upside down,
   * 6 with the visual top along column 0 (the left), 8 with the visual top
   * along the last column (the right).
   */
  function StoredVisualTop(code: int): Option<Side> {
    if code == 1 then Some(Top)
    else if code == 3 then Some(Bottom)
    else if code == 6 then Some(Left)
    else if code == 8 then Some(Right)
    else None
  }

  /** The sum of the angles of a list of rotations. */
  function TotalDegrees(rs: seq<Rotation>): int {
    if rs == [] then 0 else TotalDegrees(rs[..|rs| - 1]) + rs[|rs| - 1].degrees
  }

  /**
   * For every unmirrored code, the correction brings the visual top of the
   * picture to the top of the canvas.
   */
  lemma CorrectionIsUpright(image: Image, code: int)
    requires OrientationCode(image.exif) == Some(code) && StoredVisualTop(code).Some?
    ensures CheckImageOrientation(image).Returned?
    ensures TurnSide(StoredVisualTop(code).value,
                     TotalDegrees(CheckImageOrientation(image).image.rotations) - TotalDegrees(image.rotations)) == Top
  {
    var before := TotalDegrees(image.rotations);
    var r := CheckImageOrientation(image);
    TurnsToTop();
    if code == 1 {
      assert r == Returned(image);
    } else if code == 3 {
      assert r == Returned(Rotate(image, 180));
      RotateAddsDegrees(image, 180);
      assert TotalDegrees(r.image.rotations) - before == 180;
    } else if code == 6 {
      assert r == Returned(Rotate(image, 270));
      RotateAddsDegrees(image, 270);
      assert TotalDegrees(r.image.rotations) - before == 270;
    } else {
      assert r == Returned(Rotate(image, 90));
      RotateAddsDegrees(image, 90);
      assert TotalDegrees(r.image.rotations) - before == 90;
    }
  }

  /** Each angle the helper uses brings its stored side to the top. */
  lemma TurnsToTop()
    ensures TurnSide(Top, 0) == Top
    ensures TurnSide(Bottom, 180) == Top
    ensures TurnSide(Left, 270) == Top
    ensures TurnSide(Right, 90) == Top
  {
    assert QuarterTurns(Left, 3) == QuarterTurns(Bottom, 2) == QuarterTurns(Right, 1) == Top;
  }

  /** A turn adds its angle to the total. */
  lemma RotateAddsDegrees(image: Image, degrees: int)
    ensures TotalDegrees(Rotate(image, degrees).rotations) == TotalDegrees(image.rotations) + degrees
  {
    var rs := Rotate(image, degrees).rotations;
    assert rs[..|rs| - 1] == image.rotations;
  }
}
