/**
 * `ConverterApp`: the window's state (the chosen input file or folder, the
 * output folder, the labels and the status line), its three selection
 * handlers and `convert_file`, which dispatches each input to a converter.
 * Dialog results, the directory listing and the converters' outcomes are
 * parameters.
 */
module App {
  import opened Wrappers
  import opened Paths
  import opened Converters
  import Orientation

  /** The entries of the format combo box. */
  datatype Format = Jpg | Png | Jpeg | Webp {
    function Name(): (n: string)
      ensures |n| >= 3 && ExtSep !in n && Sep !in n
    {
      match this
      case Jpg => "jpg"
      case Png => "png"
      case Jpeg => "jpeg"
      case Webp => "webp"
    }
  }

  const TypeList: seq<Format> := [Jpg, Png, Jpeg, Webp]

  /**
   * `ConverterApp.get_converter`: the converter is chosen from the
   * extension of the input path; the output format plays no part.
   */
  function ConverterForPath(filePath: string, outputFormat: Format): (c: Converter)
    ensures c == CR3Converter <==> IsCr3Spelling(Splitext(filePath).1)
  {
    GetConverter(Splitext(filePath).1)
  }

  /** The raw converter is chosen exactly when the path ends in a real ".cr3" extension, in any case. */
  lemma ConverterForPathSpec(filePath: string, outputFormat: Format)
    ensures ConverterForPath(filePath, outputFormat) == CR3Converter <==>
      exists root, ext :: ExtensionSplit(filePath, root, ext) && IsCr3Spelling(ext)
  {
    var (root, ext) := Splitext(filePath);
    if ConverterForPath(filePath, outputFormat) == CR3Converter {
      SplitextSpec(filePath, root, ext);
    }
    if r, e :| ExtensionSplit(filePath, r, e) && IsCr3Spelling(e) {
      SplitextSpec(filePath, r, e);
    }
  }

  /** A hidden file named ".cr3" has no extension, so it goes to the standard converter. */
  lemma HiddenCr3FileIsNotRaw(dir: string, outputFormat: Format)
    ensures ConverterForPath(dir + "/.cr3", outputFormat) == ImageFileConverter
  {
    var p := dir + "/.cr3";
    RFindIs(p, Sep, |dir|);
    RFindIs(p, ExtSep, |dir| + 1);
    assert p[|dir| + 1..|dir| + 1] == [];
  }

  /**
   * `ConverterApp.get_output_file_path`: the base name of the input without
   * its last extension, a dot and the format, joined under the output folder.
   */
  function GetOutputFilePath(outputFolder: string, inputPath: string, outputFormat: Format): string {
    var imageName := Stem(Basename(inputPath));
    Join(outputFolder, imageName + "." + outputFormat.Name())
  }

  /**
   * The output file lies directly in the output folder (the folder, a
   * separator unless the folder is empty or already ends in one, then a
   * plain name), and its name is the input's base name without its last
   * extension, a dot and the format.
   */
  lemma OutputFilePathSpec(outputFolder: string, inputPath: string, outputFormat: Format)
    ensures var out := GetOutputFilePath(outputFolder, inputPath, outputFormat);
      Basename(out) == Stem(Basename(inputPath)) + "." + outputFormat.Name() &&
      outputFolder <= out &&
      (out == outputFolder + Basename(out) || out == outputFolder + [Sep] + Basename(out)) &&
      (out == outputFolder + Basename(out) <==> outputFolder == "" || outputFolder[|outputFolder| - 1] == Sep)
  {
    var base := Basename(inputPath);
    var imageName := Stem(base);
    var name := imageName + "." + outputFormat.Name();
    assert Sep !in name by {
      BasenameSpec(inputPath);
      SplitextJoins(base);
      assert imageName <= base;
      forall k | 0 <= k < |name| ensures name[k] != Sep {
        if k < |imageName| { assert name[k] == base[k]; }
        else if k > |imageName| { assert name[k] == outputFormat.Name()[k - |imageName| - 1]; }
      }
    }
    JoinSpec(outputFolder, name);
  }

  /** An empty output folder (a cancelled dialog) puts the output in the working directory. */
  lemma OutputInWorkingDirectory(inputPath: string, outputFormat: Format)
    ensures GetOutputFilePath("", inputPath, outputFormat) == Stem(Basename(inputPath)) + "." + outputFormat.Name()
  {
    OutputFilePathSpec("", inputPath, outputFormat);
  }

  /** The input's directory does not matter, only its base name. */
  lemma OutputIgnoresInputDirectory(outputFolder: string, dir: string, name: string, outputFormat: Format)
    requires Sep !in name
    ensures GetOutputFilePath(outputFolder, Join(dir, name), outputFormat) ==
            GetOutputFilePath(outputFolder, name, outputFormat)
  {
    JoinSpec(dir, name);
    BasenameOfPlainName(name);
  }

  /**
   * Only the last extension is replaced: splitting the output's base name
   * gives back the input's stem and the format as the extension.
   */
  lemma OutputExtensionIsFormat(outputFolder: string, inputPath: string, outputFormat: Format)
    requires HasNonDot(Basename(inputPath))
    ensures Splitext(Basename(GetOutputFilePath(outputFolder, inputPath, outputFormat))) ==
            (Stem(Basename(inputPath)), "." + outputFormat.Name())
  {
    BasenameSpec(inputPath);
    OutputFilePathSpec(outputFolder, inputPath, outputFormat);
    NameSplit(Basename(inputPath), outputFormat);
  }

  /** The output name built from a base name splits back into its stem and the format's extension. */
  lemma NameSplit(base: string, f: Format)
    requires Sep !in base && HasNonDot(base)
    ensures Splitext(Stem(base) + "." + f.Name()) == (Stem(base), "." + f.Name())
  {
    StemOfBaseName(base);
    FormatExtension(f);
    assert Stem(base) + "." + f.Name() == Stem(base) + ("." + f.Name());
    SplitextSpec(Stem(base) + ("." + f.Name()), Stem(base), "." + f.Name());
  }

  /** The stem of a base name with a non-dot character is a plain name with a non-dot character. */
  lemma StemOfBaseName(base: string)
    requires Sep !in base && HasNonDot(base)
    ensures Sep !in Stem(base) && HasNonDot(Basename(Stem(base)))
  {
    var stem := Stem(base);
    SplitextJoins(base);
    assert stem <= base;
    assert Sep !in stem by {
      forall k | 0 <= k < |stem| ensures stem[k] != Sep { assert stem[k] == base[k]; }
    }
    BasenameOfPlainName(stem);
    if Splitext(base).1 != "" {
      SplitextSound(base);
    }
  }

  lemma FormatExtension(f: Format)
    ensures IsExtension("." + f.Name())
  {
    var ext := "." + f.Name();
    forall k | 1 <= k < |ext| ensures ext[k] != ExtSep && ext[k] != Sep {
      assert ext[k] == f.Name()[k - 1];
    }
  }

  /** The output path of a plain file name with one visible extension, under a folder without a trailing separator. */
  lemma OutputOfPlainName(outputFolder: string, root: string, ext: string, outputFormat: Format)
    requires outputFolder != "" && outputFolder[|outputFolder| - 1] != Sep
    requires Sep !in root && Sep !in ext && HasNonDot(root) && IsExtension(ext)
    ensures GetOutputFilePath(outputFolder, root + ext, outputFormat) ==
            outputFolder + "/" + root + "." + outputFormat.Name()
  {
    assert Sep !in root + ext by {
      forall k | 0 <= k < |root + ext| ensures (root + ext)[k] != Sep {
        if k < |root| { assert (root + ext)[k] == root[k]; } else { assert (root + ext)[k] == ext[k - |root|]; }
      }
    }
    BasenameOfPlainName(root + ext);
    BasenameOfPlainName(root);
    SplitextSpec(root + ext, root, ext);
  }

  /**
   * Only the last extension is replaced, whatever dots the rest of the name
   * holds ("shots/a.tar.gz" becomes "a.tar.webp"), and the input's
   * directory is dropped.
   */
  lemma OutputReplacesLastExtension(outputFolder: string, dir: string, root: string, ext: string, outputFormat: Format)
    requires Sep !in root && Sep !in ext && HasNonDot(root) && IsExtension(ext)
    ensures GetOutputFilePath(outputFolder, Join(dir, root + ext), outputFormat) ==
            Join(outputFolder, root + "." + outputFormat.Name())
  {
    assert Sep !in root + ext by {
      forall k | 0 <= k < |root + ext| ensures (root + ext)[k] != Sep {
        if k < |root| { assert (root + ext)[k] == root[k]; } else { assert (root + ext)[k] == ext[k - |root|]; }
      }
    }
    OutputIgnoresInputDirectory(outputFolder, dir, root + ext, outputFormat);
    BasenameOfPlainName(root + ext);
    BasenameOfPlainName(root);
    SplitextSpec(root + ext, root, ext);
  }

  /** One invocation `converter.convert(input_path, output_path)`. */
  datatype Call = Call(converter: Converter, inputPath: string, outputPath: string)

  /** The call `convert_file` makes for one input file. */
  function PlannedCall(outputFolder: string, imageFile: string, outputFormat: Format): Call {
    Call(ConverterForPath(imageFile, outputFormat), imageFile,
         GetOutputFilePath(outputFolder, imageFile, outputFormat))
  }

  /**
   * The call made for a plain file name with one visible extension, under a
   * folder without a trailing separator: the converter its extension
   * selects, writing `folder/root.format`.
   */
  lemma PlannedCallOfPlainName(outputFolder: string, root: string, ext: string, outputFormat: Format)
    requires outputFolder != "" && outputFolder[|outputFolder| - 1] != Sep
    requires Sep !in root && Sep !in ext && HasNonDot(root) && IsExtension(ext)
    ensures PlannedCall(outputFolder, root + ext, outputFormat) ==
            Call(GetConverter(ext), root + ext, outputFolder + "/" + root + "." + outputFormat.Name())
  {
    OutputOfPlainName(outputFolder, root, ext, outputFormat);
    BasenameOfPlainName(root);
    SplitextSpec(root + ext, root, ext);
  }

  /** The calls `convert_file` makes for a folder listing, in listing order. */
  function FolderCalls(outputFolder: string, imageFolder: string, listing: seq<string>, outputFormat: Format): (calls: seq<Call>)
    ensures |calls| == |listing|
  {
    if listing == [] then []
    else FolderCalls(outputFolder, imageFolder, listing[..|listing| - 1], outputFormat) +
         [PlannedCall(outputFolder, Join(imageFolder, listing[|listing| - 1]), outputFormat)]
  }

  /** Entry `k` of the listing is converted by the `k`-th call, from `imageFolder/entry` into the output folder. */
  lemma {:induction false} FolderCallsAt(outputFolder: string, imageFolder: string, listing: seq<string>, outputFormat: Format, k: nat)
    requires k < |listing|
    ensures FolderCalls(outputFolder, imageFolder, listing, outputFormat)[k] ==
            PlannedCall(outputFolder, Join(imageFolder, listing[k]), outputFormat)
  {
    if k < |listing| - 1 {
      FolderCallsAt(outputFolder, imageFolder, listing[..|listing| - 1], outputFormat, k);
    }
  }

  /** Some call among `calls` reports success. */
  predicate AnySucceeded(calls: seq<Call>, convert: Call -> bool) {
    exists k :: 0 <= k < |calls| && convert(calls[k])
  }

  lemma AnySucceededAppend(calls: seq<Call>, call: Call, convert: Call -> bool)
    ensures AnySucceeded(calls + [call], convert) <==> AnySucceeded(calls, convert) || convert(call)
  {
    if AnySucceeded(calls, convert) {
      var k :| 0 <= k < |calls| && convert(calls[k]);
      assert (calls + [call])[k] == calls[k];
    }
    if convert(call) {
      assert (calls + [call])[|calls|] == call;
    }
  }

  /**
   * What the world does with a converter call: how the exiftool run goes for
   * a raw input, and for the others what `Image.open` decodes and whether
   * `save` succeeds.
   */
  datatype World = World(tool: Call -> ToolRun, decode: Call -> Option<Orientation.Image>, saves: Call -> bool)

  /** What `converter.convert(input, output)` returns for `call` in `world`; None when an exception escapes it. */
  function ConvertResult(call: Call, world: World): Option<bool> {
    match call.converter
    case CR3Converter =>
      (match Cr3Convert(world.tool(call))
       case Cr3Returned(success, _) => Some(success)
       case Cr3Escaped(_) => None)
    case ImageFileConverter => Some(ImageFileConvert(world.decode(call), world.saves(call)).Some?)
  }

  /** `convert` answers every call that returns as the chosen strategy does in `world`. */
  ghost predicate Realises(convert: Call -> bool, world: World) {
    forall call :: ConvertResult(call, world).Some? ==> convert(call) == ConvertResult(call, world).value
  }

  /** The status line after converting a single file: the saved message on success, otherwise as it was. */
  function SingleFileStatus(call: Call, convert: Call -> bool, status: string): string {
    if convert(call) then FileSavedMessage(call.outputPath) else status
  }

  /**
   * A single raw file whose exiftool run starts: the status names the output
   * file exactly when the tool exits with status 0, and stays as it was
   * otherwise (the `CalledProcessError` is caught inside the converter).
   */
  lemma RawFileStatus(outputFolder: string, imageFile: string, outputFormat: Format,
                      convert: Call -> bool, world: World, status: string)
    requires Realises(convert, world)
    requires IsCr3Spelling(Splitext(imageFile).1)
    requires world.tool(PlannedCall(outputFolder, imageFile, outputFormat)).Exited?
    ensures var call := PlannedCall(outputFolder, imageFile, outputFormat);
      call.converter == CR3Converter &&
      SingleFileStatus(call, convert, status) ==
        if world.tool(call).exitStatus == 0 then FileSavedMessage(GetOutputFilePath(outputFolder, imageFile, outputFormat))
        else status
  {
    var call := PlannedCall(outputFolder, imageFile, outputFormat);
    assert ConvertResult(call, world) == Some(world.tool(call).exitStatus == 0);
  }

  /**
   * A single file of any other kind: the status names the output file exactly
   * when the image decodes, its orientation is read without an uncaught
   * error and saving succeeds; every exception is caught inside the converter.
   */
  lemma ImageFileStatus(outputFolder: string, imageFile: string, outputFormat: Format,
                        convert: Call -> bool, world: World, status: string)
    requires Realises(convert, world)
    requires !IsCr3Spelling(Splitext(imageFile).1)
    ensures var call := PlannedCall(outputFolder, imageFile, outputFormat);
      call.converter == ImageFileConverter &&
      SingleFileStatus(call, convert, status) ==
        if world.decode(call).Some? && world.saves(call) &&
           !(world.decode(call).value.exif.ReadFailed? && !Orientation.IsCaught(world.decode(call).value.exif.error))
        then FileSavedMessage(GetOutputFilePath(outputFolder, imageFile, outputFormat))
        else status
  {
    var call := PlannedCall(outputFolder, imageFile, outputFormat);
    assert ConvertResult(call, world).Some?;
  }

  /**
   * A Python attribute that may not exist yet (`Unset`), may hold `None`,
   * or holds a string.
   */
  datatype Slot = Unset | NoneValue | Text(s: string) {
    /** The attribute exists and is a non-empty string. */
    predicate Truthy() { Text? && s != "" }
    /** The attribute exists and is `None` or "". */
    predicate Falsy() { NoneValue? || (Text? && s == "") }
  }

  const SelectOutputFolderMessage: string := "Please select an output folder."

  function FileSavedMessage(outputFile: string): string {
    "File converted and saved to: " + outputFile
  }

  function FolderSavedMessage(outputFolder: string): string {
    "Files are converted and saved to: " + outputFolder
  }

  class ConverterApp {
    const typeList: seq<Format>
    var imageFile: Slot
    var imageFolder: Slot
    /** None until the output dialog has run once (`hasattr` is false). */
    var outputFolder: Option<string>
    var fileLabel: string
    var outputLabel: string
    var status: string

    constructor ()
      ensures typeList == TypeList
      ensures imageFile == Unset && imageFolder == Unset && outputFolder == None
      ensures fileLabel == "Select a CR3 file or folder:"
      ensures outputLabel == "Select an output folder:"
      ensures status == ""
    {
      typeList := TypeList;
      imageFile, imageFolder, outputFolder := Unset, Unset, None;
      fileLabel := "Select a CR3 file or folder:";
      outputLabel := "Select an output folder:";
      status := "";
    }

    /** `select_file`, given the path the file dialog returned ("" when cancelled). */
    method SelectFile(chosen: string)
      modifies this`imageFile, this`imageFolder, this`fileLabel
      ensures imageFile == Text(chosen) && imageFolder == NoneValue
      ensures fileLabel == if chosen != "" then "Selected file: " + chosen else old(fileLabel)
    {
      imageFile := Text(chosen);
      imageFolder := NoneValue;
      if chosen != "" {
        fileLabel := "Selected file: " + chosen;
      }
    }

    /** `select_folder`, given the directory the dialog returned ("" when cancelled). */
    method SelectFolder(chosen: string)
      modifies this`imageFile, this`imageFolder, this`fileLabel
      ensures imageFolder == Text(chosen) && imageFile == NoneValue
      ensures fileLabel == if chosen != "" then "Selected folder: " + chosen else old(fileLabel)
    {
      imageFolder := Text(chosen);
      imageFile := NoneValue;
      if chosen != "" {
        fileLabel := "Selected folder: " + chosen;
      }
    }

    /** `select_output_folder`: even a cancelled dialog ("") makes the attribute exist. */
    method SelectOutputFolder(chosen: string)
      modifies this`outputFolder, this`outputLabel
      ensures outputFolder == Some(chosen)
      ensures outputLabel == if chosen != "" then "Selected folder: " + chosen else old(outputLabel)
    {
      outputFolder := Some(chosen);
      if chosen != "" {
        outputLabel := "Selected folder: " + chosen;
      }
    }

    /**
     * `convert_file`. `listing` is what `os.listdir` returns for the input
     * folder and `convert` the outcome of each converter invocation. Returns
     * the invocations in order, and whether an `AttributeError` escaped
     * (reading `image_file` or `image_folder` before any dialog set it).
     */
    method ConvertFile(outputFormat: Format, listing: seq<string>, convert: Call -> bool)
      returns (calls: seq<Call>, raised: bool)
      modifies this`status
      ensures old(outputFolder).None? ==>
        calls == [] && !raised && status == SelectOutputFolderMessage
      ensures old(outputFolder).Some? && old(imageFile).Unset? ==>
        calls == [] && raised && status == old(status)
      ensures old(outputFolder).Some? && old(imageFile).Truthy() ==>
        calls == [PlannedCall(old(outputFolder).value, old(imageFile).s, outputFormat)] && !raised &&
        status == SingleFileStatus(calls[0], convert, old(status))
      ensures old(outputFolder).Some? && old(imageFile).Falsy() && old(imageFolder).Unset? ==>
        calls == [] && raised && status == old(status)
      ensures old(outputFolder).Some? && old(imageFile).Falsy() && old(imageFolder).Truthy() ==>
        calls == FolderCalls(old(outputFolder).value, old(imageFolder).s, listing, outputFormat) && !raised &&
        status == if AnySucceeded(calls, convert) then FolderSavedMessage(old(outputFolder).value) else old(status)
      ensures old(outputFolder).Some? && old(imageFile).Falsy() && old(imageFolder).Falsy() ==>
        calls == [] && !raised && status == old(status)
    {
      calls, raised := [], false;
      if outputFolder.None? {
        status := SelectOutputFolderMessage;
        return;
      }
      var output, file, folder := outputFolder.value, imageFile, imageFolder;
      if file.Unset? {
        raised := true;
      } else if file.Truthy() {
        var converter := ConverterForPath(file.s, outputFormat);
        var outputFile := GetOutputFilePath(output, file.s, outputFormat);
        var call := Call(converter, file.s, outputFile);
        calls := [call];
        if convert(call) {
          status := FileSavedMessage(outputFile);
        }
      } else if folder.Unset? {
        raised := true;
      } else if folder.Truthy() {
        var anySaved;
        calls, anySaved := ConvertFolder(output, folder.s, outputFormat, listing, convert);
        if anySaved {
          status := FolderSavedMessage(output);
        }
      }
    }
  }

  /**
   * The loop of `convert_file` over the folder listing: one converter
   * invocation per entry, in listing order, and whether any of them
   * reported success (each success sets the same status message).
   */
  method ConvertFolder(outputFolder: string, imageFolder: string, outputFormat: Format,
                       listing: seq<string>, convert: Call -> bool)
    returns (calls: seq<Call>, anySaved: bool)
    ensures calls == FolderCalls(outputFolder, imageFolder, listing, outputFormat)
    ensures anySaved <==> exists k :: 0 <= k < |listing| && convert(calls[k])
  {
    calls, anySaved := [], false;
    var i := 0;
    while i < |listing|
      invariant 0 <= i <= |listing|
      invariant calls == FolderCalls(outputFolder, imageFolder, listing[..i], outputFormat)
      invariant anySaved == AnySucceeded(calls, convert)
    {
      var imagePath := Join(imageFolder, listing[i]);
      var converter := ConverterForPath(imagePath, outputFormat);
      var outputFile := GetOutputFilePath(outputFolder, imagePath, outputFormat);
      var call := Call(converter, imagePath, outputFile);
      assert listing[..i + 1][..i] == listing[..i];
      AnySucceededAppend(calls, call, convert);
      calls := calls + [call];
      if convert(call) {
        anySaved := true;
      }
      i := i + 1;
    }
    assert listing[..i] == listing;
  }

  /** The names and converters the repository's two `convert_file` tests expect. */
  lemma RepositoryTestNames()
    ensures "output_folder"[|"output_folder"| - 1] != Sep
    ensures Sep !in "test" && HasNonDot("test")
    ensures Sep !in ".cr3" && IsExtension(".cr3") && Sep !in ".jpg" && IsExtension(".jpg")
    ensures "test" + ".cr3" == "test.cr3" && GetConverter(".cr3") == CR3Converter
    ensures "output_folder" + "/" + "test" + "." + Jpg.Name() == "output_folder/test.jpg"
    ensures "test" + ".jpg" == "test.jpg" && GetConverter(".jpg") == ImageFileConverter
    ensures "output_folder" + "/" + "test" + "." + Png.Name() == "output_folder/test.png"
  {
    GetConverterExamples();
    assert "test"[0] != ExtSep;
  }

  /**
   * The repository's test of `convert_file` on a raw file: a fresh window
   * given the file "test.cr3" and the output folder "output_folder" makes
   * exactly one call, to the raw converter, writing "output_folder/test.jpg".
   */
  method RepositoryTestConvertCr3(convert: Call -> bool) returns (calls: seq<Call>)
    ensures calls == [Call(CR3Converter, "test.cr3", "output_folder/test.jpg")]
  {
    var folder, stem, ext := "output_folder", "test", ".cr3";
    var app := new ConverterApp();
    app.imageFile := Text(stem + ext);
    app.outputFolder := Some(folder);
    var raised;
    calls, raised := app.ConvertFile(Jpg, [], convert);
    RepositoryTestNames();
    PlannedCallOfPlainName(folder, stem, ext, Jpg);
  }

  /**
   * The repository's test of `convert_file` on a JPEG file: a fresh window
   * given "test.jpg" and "output_folder" makes exactly one call, to the PIL
   * converter, writing "output_folder/test.png".
   */
  method RepositoryTestConvertJpg(convert: Call -> bool) returns (calls: seq<Call>)
    ensures calls == [Call(ImageFileConverter, "test.jpg", "output_folder/test.png")]
  {
    var folder, stem, ext := "output_folder", "test", ".jpg";
    var app := new ConverterApp();
    app.imageFile := Text(stem + ext);
    app.outputFolder := Some(folder);
    var raised;
    calls, raised := app.ConvertFile(Png, [], convert);
    RepositoryTestNames();
    PlannedCallOfPlainName(folder, stem, ext, Png);
  }
}
