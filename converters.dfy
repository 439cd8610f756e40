/**
 * The two `ImageConverter` strategies as a closed set, the factory that
 * chooses between them by file extension, and what each strategy's
 * `convert` does once its foreign calls are reduced to their outcomes.
 */
module Converters {
  import opened Wrappers
  import opened Paths
  import opened Orientation

  datatype Converter = CR3Converter | ImageFileConverter

  /** ".cr3" in any mix of upper and lower case, letter by letter. */
  predicate IsCr3Spelling(e: string) {
    |e| == 4 && e[0] == '.' && (e[1] == 'c' || e[1] == 'C') && (e[2] == 'r' || e[2] == 'R') && e[3] == '3'
  }

  /** `ImageConverterFactory.get_converter`: total, and picks the raw converter only for ".cr3" in any case. */
  function GetConverter(fileExtension: string): (c: Converter)
    ensures c == CR3Converter <==> IsCr3Spelling(fileExtension)
    ensures c == ImageFileConverter <==> !IsCr3Spelling(fileExtension)
  {
    LowerIsCr3(fileExtension);
    if Lower(fileExtension) == ".cr3" then CR3Converter else ImageFileConverter
  }

  /** Python's `e.lower() == '.cr3'` holds exactly for the case-insensitive spellings of ".cr3". */
  lemma LowerIsCr3(e: string)
    ensures Lower(e) == ".cr3" <==> IsCr3Spelling(e)
  {
    if IsCr3Spelling(e) {
      assert Lower(e) == [LowerChar(e[0]), LowerChar(e[1]), LowerChar(e[2]), LowerChar(e[3])];
    }
    if Lower(e) == ".cr3" {
      assert Lower(e)[0] == '.' && Lower(e)[1] == 'c' && Lower(e)[2] == 'r' && Lower(e)[3] == '3';
    }
  }

  /** Extensions that differ only in letter case select the same converter. */
  lemma GetConverterIgnoresCase(e1: string, e2: string)
    requires Lower(e1) == Lower(e2)
    ensures GetConverter(e1) == GetConverter(e2)
  {
  }

  lemma GetConverterExamples()
    ensures GetConverter(".cr3") == CR3Converter
    ensures GetConverter(".CR3") == CR3Converter
    ensures GetConverter(".Cr3") == CR3Converter
    ensures GetConverter(".jpg") == ImageFileConverter
    ensures GetConverter("") == ImageFileConverter
    ensures GetConverter("cr3") == ImageFileConverter
  {
  }

  /**
   * What happens around `exiftool -b -JpgFromRaw <input>`: opening the output
   * file fails (an `OSError`), the tool cannot be started (a
   * `FileNotFoundError`), or it runs, writes its standard output into the
   * file and exits with a status.
   */
  datatype ToolRun = OpenFailed | ToolMissing | Exited(exitStatus: int, stdout: seq<bv8>)

  /**
   * How `CR3Converter.convert` ends: it returns a boolean, leaving the output
   * file with some content, or an exception escapes it, leaving the file
   * created or not.
   */
  datatype Cr3Result =
    | Cr3Returned(success: bool, file: seq<bv8>)
    | Cr3Escaped(left: Option<seq<bv8>>)

  /**
   * `CR3Converter.convert`: the output file is opened before the tool runs;
   * `check=True` turns a non-zero status into `CalledProcessError`, the only
   * exception caught, which is reported as `False`.
   */
  function Cr3Convert(run: ToolRun): (r: Cr3Result)
    ensures r.Cr3Escaped? <==> !run.Exited?
    ensures r.Cr3Escaped? ==> (r.left.Some? <==> run.ToolMissing?)
    ensures r.Cr3Returned? ==> (r.success <==> run.exitStatus == 0) && r.file == run.stdout
  {
    match run
    case OpenFailed => Cr3Escaped(None)
    case ToolMissing => Cr3Escaped(Some([]))
    case Exited(status, out) =>
      if status != 0 then Cr3Returned(false, out)  // CalledProcessError, caught
      else Cr3Returned(true, out)
  }

  /**
   * `ImageFileConverter.convert`: `decoded` is what `Image.open` decoded (None
   * when it raised) and `saves` whether `save` succeeded. Every exception is
   * caught, so the result is the image written, or None for `False`.
   */
  function ImageFileConvert(decoded: Option<Image>, saves: bool): (written: Option<Image>)
    ensures written.Some? ==> decoded.Some? && CheckImageOrientation(decoded.value) == Returned(written.value)
    ensures written.Some? <==>
      decoded.Some? && saves &&
      !(decoded.value.exif.ReadFailed? && !IsCaught(decoded.value.exif.error))
    ensures written.Some? ==>
      written.value.exif == decoded.value.exif &&
      |decoded.value.rotations| <= |written.value.rotations| <= |decoded.value.rotations| + 1
    ensures written.Some? && OrientationCode(decoded.value.exif) !in {Some(3), Some(6), Some(8)} ==>
      written.value == decoded.value
  {
    if decoded.None? then None
    else
      match CheckImageOrientation(decoded.value)
      case Raised(_) => None
      case Returned(image) => if saves then Some(image) else None
  }
}
