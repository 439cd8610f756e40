# Image format converter, modelled in Dafny

This project models the core of a small desktop tool written in Python. The tool
converts Canon raw files (`.cr3`) and ordinary image files into JPEG, PNG or WebP.
The user picks one input file or one input folder, an output folder and a format,
then presses Convert. The model covers this behaviour of `ConverterApp.py`:

- **Converter choice.** `ImageConverterFactory.get_converter` and
  `ConverterApp.get_converter` pick between two strategies (module `Converters`,
  `App.ConverterForPath`). Raw files go to `exiftool -b -JpgFromRaw`. Everything
  else goes through PIL.
- **Orientation correction.** `ImageConverterHelper.check_image_orientation`
  (module `Orientation`) reads the Exif Orientation tag (tag 274 of TIFF 6.0).
  For codes 3, 6 and 8 it turns the picture upright with one counter-clockwise
  rotation and `expand=True`. An image is abstract here: the Exif block it reads
  as, plus the list of rotations applied to it.
- **Output path.** `ConverterApp.get_output_file_path` builds the output path
  from `posixpath.basename`, `splitext` and `join`. Module `Paths` models those
  functions, `str.rfind` and `str.lower`.
- **Window state.** `ConverterApp` is a class with the window's state: the input
  file, the input folder, the output folder, two labels and the status line. Its
  handlers are `select_file`, `select_folder`, `select_output_folder` and
  `convert_file`. The file dialogs become parameters: a dialog that was cancelled
  returns "". The directory listing is a parameter. Whether each converter call
  succeeds is a function `convert` from the call to a boolean. `ConvertFile`
  returns the converter calls it made, in order. It also returns whether an
  `AttributeError` escaped.

Python attributes that may not exist yet are modelled explicitly. `Slot` covers
`image_file` and `image_folder`: each is unset, `None` or a string.
`Option<string>` covers `output_folder`, because `convert_file` tests it with
`hasattr`.

The strategies and the dispatcher are linked through a `World`. A `World`
says how each exiftool run goes, what PIL decodes and whether saving
works. `Realises(convert, world)` holds when `convert` answers every call that
returns as the chosen strategy does in that world.

Two points where the code decides and the model follows the code:

- **Cancelling the output dialog still sets the output folder.** It sets
  `output_folder` to "". The `hasattr` check then passes, and files are written
  relative to the working directory.
- **Unset attributes raise.** Once an output folder is chosen, pressing Convert
  before choosing any input raises `AttributeError`, because `image_file` was
  never assigned. Without an output folder, `convert_file` shows its prompt and
  returns before reading `image_file`.

## Model

| member | source | states |
|---|---|---|
| Converters.GetConverter | ConverterApp.py:36-40 | Total. Yields the raw converter exactly for ".cr3" in any letter case, and the PIL converter otherwise. |
| Converters.LowerIsCr3 | ConverterApp.py:37 | `e.lower() == '.cr3'` holds exactly for the case-insensitive spellings of ".cr3". |
| Converters.GetConverterIgnoresCase | ConverterApp.py:37 | Extensions that lower to the same string select the same converter. |
| Converters.GetConverterExamples | test.py:43-49 | ".cr3", ".CR3" and ".Cr3" give the raw converter. ".jpg", "" and "cr3" (no dot) give the PIL converter. |
| Converters.Cr3Convert | ConverterApp.py:14-22 | An exception escapes exactly when the output file cannot be opened or exiftool cannot be started. The file exists afterwards only in the second case. Otherwise the call returns success exactly when exiftool exits with status 0, and the file holds the tool's standard output even on failure. |
| Converters.ImageFileConvert | ConverterApp.py:25-32 | Writes an image exactly when the input decodes, saving succeeds and reading the orientation raises nothing it cannot catch. The written image is exactly what the orientation correction returns for the decoded image. It keeps the Exif block, gains at most one rotation, and is the decoded image itself unless the orientation code is 3, 6 or 8. |
| Orientation.CheckImageOrientation | ConverterApp.py:44-60 | Raises exactly when reading Exif fails with an error other than AttributeError, KeyError or IndexError. Otherwise it returns an image with the same Exif block. The image changes exactly when the Orientation code is 3, 6 or 8, and then gains one rotation with expand set, appended after the earlier ones. |
| Orientation.OrientationAngles | ConverterApp.py:50-56 | Code 3 turns by 180 degrees, code 6 by 270 and code 8 by 90. |
| Orientation.MissingOrientationKeepsImage | ConverterApp.py:45-60 | No Exif block, no Orientation tag, or a caught read error returns the image unchanged. |
| Orientation.CorrectionIsUpright | ConverterApp.py:50-57 | For each unmirrored code (1, 3, 6, 8), the total turn brings the side holding the visual top to the top of the canvas. |
| Orientation.TurnsToTop | ConverterApp.py:52-56 | Each of the three angles turns its code's stored side to the top. |
| Paths.BasenameSpec | ConverterApp.py:151 | `basename` is the suffix after the last '/'. It contains no '/'. |
| Paths.BasenameOfPlainName | ConverterApp.py:151 | A name without '/' is its own base name. |
| Paths.RFindSpec | ConverterApp.py:151 | `rfind` returns the last index of the character, or -1. |
| Paths.SplitextJoins | ConverterApp.py:147 | Root and extension concatenate back to the path. |
| Paths.SplitextSpec | ConverterApp.py:147 | `splitext` returns `(root, ext)` with `ext` non-empty exactly when `ext` is a dot followed by no dot or '/', and the last component of `root` holds a character other than a dot. So leading dots of a hidden file are not an extension. |
| Paths.JoinSpec | ConverterApp.py:153 | Joining a name without '/' keeps the folder as a prefix and makes the name the base name. It adds a '/' exactly when the folder is non-empty and does not already end in one. |
| App.ConverterForPath | ConverterApp.py:146-148 | The raw converter is chosen exactly when the `splitext` extension of the path is a spelling of ".cr3". |
| App.ConverterForPathSpec | ConverterApp.py:146-148 | The raw converter is chosen exactly when the path has a genuine ".cr3" extension in any case. |
| App.HiddenCr3FileIsNotRaw | ConverterApp.py:147 | A file named ".cr3" in any folder has no extension, so it goes to the PIL converter. |
| App.OutputFilePathSpec | ConverterApp.py:150-153 | The output lies directly in the output folder: the folder, then a '/' exactly when the folder is non-empty and does not end in one, then a name. That name is the input's base name without its last extension, a dot and the format. |
| App.OutputInWorkingDirectory | ConverterApp.py:150-153 | With an empty output folder (a cancelled dialog), the output path is just the stem, a dot and the format, so the file lands in the working directory. |
| App.OutputIgnoresInputDirectory | ConverterApp.py:151-153 | The input's directory plays no part in the output path. |
| App.OutputExtensionIsFormat | ConverterApp.py:151-152 | Splitting the output name gives the input's stem back, with the format as the extension. |
| App.OutputOfPlainName | ConverterApp.py:150-153 | For a folder without a trailing '/' and an input `root + ext`, the output is `folder/root.format`. |
| App.OutputReplacesLastExtension | ConverterApp.py:151-153 | Only the last extension is replaced, whatever dots the rest of the name holds, and the input's directory is dropped. For example "shots/a.tar.gz" to webp gives "a.tar.webp" in the output folder. |
| App.PlannedCallOfPlainName | ConverterApp.py:133-136 | A plain `root + ext` under a folder without a trailing '/' goes to the converter that `ext` selects and is written to `folder/root.format`. |
| App.RepositoryTestConvertCr3 | test.py:85-94 | A fresh window given "test.cr3" and "output_folder" converts to jpg with exactly one call: the raw converter, from "test.cr3" to "output_folder/test.jpg". |
| App.RepositoryTestConvertJpg | test.py:96-105 | A fresh window given "test.jpg" and "output_folder" converts to png with exactly one call: the PIL converter, from "test.jpg" to "output_folder/test.png". |
| App.RawFileStatus | ConverterApp.py:14-22 | For one raw file whose exiftool run starts, in a world that `convert` realises, the status names the output file exactly when exiftool exits with status 0. Otherwise the status stays as it was. |
| App.ImageFileStatus | ConverterApp.py:25-32 | For one file of any other kind, the status names the output file exactly when the image decodes, its orientation is read without an uncaught error and saving succeeds. Otherwise the status stays as it was. |
| App.FolderCalls | ConverterApp.py:139-143 | A folder gets one converter call per listing entry. |
| App.FolderCallsAt | ConverterApp.py:139-143 | Call k converts `join(folder, listing[k])` into the output folder, with the converter its extension selects. |
| App.ConvertFolder | ConverterApp.py:139-144 | The loop over the listing makes exactly the calls of `FolderCalls`, in order. It reports a success exactly when some call succeeded. |
| App.ConverterApp.constructor | ConverterApp.py:63-100 | Sets the format list to jpg, png, jpeg, webp, the two initial label texts and an empty status. No input or output is chosen. |
| App.ConverterApp.SelectFile | ConverterApp.py:107-112 | Stores the chosen file and sets the folder to None. The label changes only for a non-empty choice. |
| App.ConverterApp.SelectFolder | ConverterApp.py:114-118 | Stores the chosen folder and sets the file to None. The label changes only for a non-empty choice. |
| App.ConverterApp.SelectOutputFolder | ConverterApp.py:120-123 | Stores the choice, even "". The label changes only for a non-empty choice. |
| App.ConverterApp.ConvertFile | ConverterApp.py:125-144 | Without an output folder, only the prompt is shown. An unset file, or a falsy file with an unset folder, raises and does nothing else. A non-empty file gets exactly one call; on success the status names the output file. A non-empty folder gets the calls of `FolderCalls`; the status shows the folder message exactly when one of them succeeded. Otherwise nothing happens. |

## Left out

- The Qt user interface is not modelled: widget layout, window title, geometry, the buttons' signal wiring, `main` and `QApplication`. Labels and the status line are plain strings.
- The file dialogs and `os.listdir` are not modelled; their results are parameters.
- Exceptions from `os.listdir` are not modelled. This includes a folder that no longer exists.
- App.ConverterApp.ConvertFile does not model an exception escaping a converter. `Cr3Convert` models two such cases: the output file cannot be opened, or exiftool is not installed. In the source either one ends `convert_file` and skips the rest of a folder. The `convert` parameter of `ConvertFile` always returns.
- App.RawFileStatus: it holds for runs where exiftool starts. For the other runs the exception escapes, as the line above says.
- PIL decoding, pixel data, rotation itself and encoding are not modelled. An image is its Exif block plus the rotations applied to it, and the outcomes of `Image.open` and `save` are parameters.
- The exiftool process is not modelled. Only its exit status and standard output are.
- Exif values are modelled as integers. The source compares them with 3, 6 and 8 by Python equality. A value that compares equal to one of them, such as `3.0`, stands for that code. A value that compares unequal to all three is an unmatched code.
- The mirrored orientation codes 2, 4, 5 and 7 are left unchanged, as the source leaves them.
- Only POSIX path rules are modelled: '/' is the sole separator. The Windows rules of `ntpath` are not modelled.
- Paths.Lower: models `str.lower` for ASCII letters only. No non-ASCII character lowercases to '.', 'c', 'r' or '3', so the converter choice does not depend on this.
- The `print` calls that log errors are not modelled.
- App.ConverterApp.ConvertFile: the converters are reduced to the outcome function `convert`. The model records which calls are made and with which arguments, but not what the strategies write.
- App.ConvertFolder: success is tracked in one flag and the status is set once, after the loop. The source sets the same folder message at each success, so the final status is the same.
