# Android Drawable Importer, modelled in Dafny

The Android Drawable Importer is an IntelliJ/Android Studio plugin. It brings
drawables into an Android project at every screen density: it imports icons
from the Android Icons and Material Icons packs, scales one image to several
densities, imports one image per density, and copies the results into
`drawable-*` folders, asking whether to overwrite or skip when a file is
already there. A small Python script builds the manifest of the bundled icon
packs.

The repository holds two plugin generations side by side. The earlier one
lives under `src/de/...` and the current one under `src/main/java/...`. They
disagree in places (two `Resolution` enums, two `ImageInformation` records,
two resize-algorithm enums, two Material controllers). Each file is modelled
against its own text, in its own module: `LegacyDensities`,
`LegacyImageInfo`, `ResizeAlgorithms`, `LegacySettings`,
`LegacyMaterialIcons` and `LegacyAndroidIcons` belong to the earlier tree.
The overwrite/skip logic is the same in both trees, so one module,
`Conflicts`, covers both.

What the model covers:

- **Manifest generator** (`JsonGenerator`). Directory listings are trees of
  `Node`s given as input. The module covers file-name parsing, both pack
  scanners, the grouping of equally named Material files, and the 1-bit
  pixel remap.
- **Densities and codecs** (`Densities`, `LegacyDensities`, `ScaleFactors`,
  `RefactorHelper`, `Formats`, `ResizeAlgorithms`, `UtilResizeAlgorithms`,
  `TextUtils`, `ExportNames`):
  - the enum parsers and printers;
  - the density scale-factor tables as exact rationals;
  - the drawable-name sanitiser.
- **Records and paths** (`ImageInfo`, `LegacyImageInfo`, `ImageUtils`,
  `Icons`):
  - the image-information builders and their nine-patch implies PNG rule;
  - target and temporary file layouts;
  - the nine-patch border checks on ARGB integers;
  - the icon-pack controllers' category maps and file layouts.
- **Importer controllers** (`RefactoringTask`, `Conflicts`, `BatchScale`,
  `AddItem`, `MultiImporter`, `IconsImporter`, `Defaults`, `Settings`,
  `LegacySettings`). Each controller is a state record, and each setter
  returns the new state together with whether observers were notified.
  Stored settings are a `Store`: a map from keys to text or to lists of
  text.

Java's `null` is an `Option`. A thrown exception is the `Err` case of a
`Result` whose `Failure` names the exception class. Dialog answers, file
lookups and stored settings are plain parameters.

## Model

| member | source | states |
|---|---|---|
| JsonGenerator.ConvertImage | json_generator.py:14-28 | a 1-bit image becomes RGBA of the same size in which exactly the black pixels turn fully transparent; other images are untouched |
| JsonGenerator.ConvertImageIdempotent | json_generator.py:14-28 | normalising twice is normalising once, and a normalised 1-bit image holds no opaque black pixel |
| JsonGenerator.ListDirsOnly | json_generator.py:84-85 | listing fails with an OS error exactly on a non-directory; otherwise it gives the folder's sub-directories in listing order, every one of them and nothing else |
| JsonGenerator.ListImages | json_generator.py:88-89 | listing fails with an OS error exactly on a non-directory; otherwise it gives the entry names ending in ".png" in listing order, every one of them and nothing else |
| JsonGenerator.PngFiles | json_generator.py:88-89 | exactly the entry names of a folder that end in ".png", directories included |
| JsonGenerator.ListChild | json_generator.py:59-62 | a named entry is found exactly when the folder has a child of that name, and a missing one raises an OS error |
| JsonGenerator.AndroidAssets | json_generator.py:70-78 | one asset per image, in order, named after the file without extension, in category "all", with every resolution and colour folder and size "18dp" |
| JsonGenerator.HandleAndroidIcons | json_generator.py:56-81 | fails with an OS error on a non-directory, and with an index error exactly when there is no colour folder or the first colour folder has no resolution folder; otherwise the pack is "Android Icons" with id "android_icons", path "android_icons/" and the single category "all", with one asset per PNG entry of the first resolution folder of the first colour folder; every asset has size "18dp" and colours that are sub-folder names of the pack |
| JsonGenerator.AndroidAssetsNameTheirFiles | json_generator.py:48-81 | each asset lists every colour and resolution folder, and `get_android_icons_file` of the first colour, the first resolution and the asset's name is the path of the image the asset came from |
| JsonGenerator.ExtractData | json_generator.py:92-100 | parsing succeeds exactly when the base name holds a '_', and otherwise fails with an IndexError; the size is the last '_'-field, the colour the one before, the name the rest re-joined, so name, colour and size joined by '_' give the base name back |
| JsonGenerator.ExtractDataOfFileName | json_generator.py:92-108 | parsing the file name the generator builds for an icon gives back its name, colour and size |
| JsonGenerator.Runs | json_generator.py:128-141 | the reference grouping: non-empty pieces, none exactly when the listing is empty, the first starting with the first entry |
| JsonGenerator.RunsAreMaximal | json_generator.py:128-141 | the pieces concatenate back to the listing, each shares one name and neighbours differ in name |
| JsonGenerator.AssetsOfRuns | json_generator.py:128-141 | the pairwise loop's output for k runs holds k - 1 assets |
| JsonGenerator.GroupAssetsIsRuns | json_generator.py:126-141 | the pairwise loop emits one asset per maximal run of equally named files except the last |
| JsonGenerator.GroupAssetsCount | json_generator.py:128-141 | a listing with k runs of names yields k - 1 assets |
| JsonGenerator.OneNameYieldsNothing | json_generator.py:128-141 | a folder whose files all belong to one icon yields no asset |
| JsonGenerator.LastIconDropped | json_generator.py:128-141 | two icons with one file each yield only the first icon's asset |
| JsonGenerator.AllRunAssets | json_generator.py:128-141 | the evidently intended output: one asset per run, named after it, with its colours and sizes |
| JsonGenerator.GroupAllAssets | json_generator.py:128-141 | the corrected loop emits exactly the reference's assets, one per run, the last included |
| JsonGenerator.DensityLabels | json_generator.py:124 | every density folder's label is the second '-'-separated field of its name, one label per folder |
| JsonGenerator.CategoryInput | json_generator.py:123-125 | a category that is not a directory raises an OS error and one without sub-folders an index error; on success the resolutions are the labels of the sub-folders (at least one) and the parsed files are those of the "drawable-<first resolution>" folder; whenever those steps succeed, so does the whole |
| JsonGenerator.ExtractAll | json_generator.py:125 | every file of the listing is parsed, in order |
| JsonGenerator.MaterialCategory | json_generator.py:122-141 | fails exactly when reading the category folder fails, with the same error; otherwise the assets are those of the pairwise loop over the maximal runs of equally named files (one per run except the last); each is a Material asset of that category with sorted, distinct, non-empty colours and sizes |
| JsonGenerator.MaterialCategoryCorrected | json_generator.py:122-141 | the corrected category loop fails exactly as the written one does; otherwise it yields one asset per maximal run, the last included, each a Material asset of that category with sorted, distinct, non-empty colours and sizes |
| JsonGenerator.AssetsOfRunsAllButLast | json_generator.py:128-141 | the pairwise loop's output equals the one-asset-per-run reference over every run but the last |
| JsonGenerator.CorrectedAddsLastRun | json_generator.py:128-141 | the corrected and the written category loops succeed together; the corrected output is the written output plus one asset for the last run, and both are empty for a folder without images |
| JsonGenerator.RunAssetsShape | json_generator.py:132-137 | every asset built from non-empty runs is a Material asset of the given category with sorted, distinct, non-empty colours and sizes |
| JsonGenerator.Scan | json_generator.py:126-141 | each loop step only appends to what was emitted, at most one asset per remaining pair of neighbours |
| JsonGenerator.GroupAssets | json_generator.py:126-141 | a folder of at most one file yields no asset, and a non-empty folder yields fewer assets than files |
| JsonGenerator.RunAssetShape | json_generator.py:132-137 | a run's asset lists its colours and sizes sorted, without duplicates and non-empty |
| JsonGenerator.MaterialAssets | json_generator.py:122-141 | succeeds exactly when every category folder does; the assets are then the folders' assets one folder after another in listing order, each in one of those categories, with sorted, distinct, non-empty colours and sizes |
| JsonGenerator.HandleMaterialIcons | json_generator.py:111-144 | a missing pack folder raises an OS error, and otherwise the pack fails exactly when a category folder does; the pack is "Material Icons" with id "material_icons" and path "material_icons/"; its categories are exactly the sub-folder names in listing order, and its assets are those of the category folders in that order |
| JsonGenerator.Manifest | json_generator.py:148-150 | the manifest lists two packs, Android Icons first and Material Icons second |
| JsonGenerator.ImagesToConvert | json_generator.py:30-45 | fails with an OS error exactly on a non-directory; otherwise it gives the images of every sub-folder of every folder, folder by folder and sub-folder by sub-folder, every one a ".png" file |
| JsonGenerator.SubfolderImages | json_generator.py:34-37 | one path "<folder>/<sub>/<image>" per PNG entry of a resolution folder, in listing order |
| JsonGenerator.ImagesToConvertComplete | json_generator.py:30-45 | every PNG entry of every sub-folder of every folder of the pack is among the images converted |
| Densities.LabelIsLowerName | src/main/java/de/mprengemann/intellij/plugin/androidicons/model/Resolution.java:24-31 | a density's lower-case label is its lower-cased constant name, and no two densities share a label |
| Densities.Ordinal | src/main/java/de/mprengemann/intellij/plugin/androidicons/model/Resolution.java:24-31 | a density's declaration index locates it in the list of all densities |
| Densities.AllEnumerates | src/main/java/de/mprengemann/intellij/plugin/androidicons/model/Resolution.java:24-31 | the list of all densities holds every density exactly once |
| Densities.Enumerate | src/main/java/de/mprengemann/intellij/plugin/androidicons/model/Resolution.java:24-31 | listing a set of densities (in declaration order) holds exactly its members, without repeats |
| Densities.EnumerateSize | src/main/java/de/mprengemann/intellij/plugin/androidicons/model/Resolution.java:24-31 | the listing of a set is as long as the set is large |
| Densities.FilterSpec | src/main/java/de/mprengemann/intellij/plugin/androidicons/model/Resolution.java:24-31 | keeping the members of a set from a repeat-free list keeps exactly the common elements, without repeats |
| Densities.From | src/main/java/de/mprengemann/intellij/plugin/androidicons/model/Resolution.java:33-36 | null or empty throws IllegalArgumentException, and only they do |
| Densities.FromLowers | src/main/java/de/mprengemann/intellij/plugin/androidicons/model/Resolution.java:37-52 | a non-empty value parses to the density whose label is its lower-case form, or to null |
| Densities.FromMatchesIgnoringCase | src/main/java/de/mprengemann/intellij/plugin/androidicons/model/Resolution.java:37-52 | a non-empty value parses to a density exactly when it spells its name in any case, and to null exactly when it spells none |
| Densities.FromName | src/main/java/de/mprengemann/intellij/plugin/androidicons/model/Resolution.java:33-53 | `from(r.toString()) == r`, and so does the lower-case label |
| Densities.Deserialize | src/main/java/de/mprengemann/intellij/plugin/androidicons/model/Resolution.java:55-62 | a manifest string that is a density's label decodes to that density |
| LegacyDensities.GetName | src/de/mprengemann/intellij/plugin/androidicons/images/Resolution.java:19-21 | the name is the upper-case of the id |
| LegacyDensities.From | src/de/mprengemann/intellij/plugin/androidicons/images/Resolution.java:28-43 | null throws NullPointerException, and only null |
| LegacyDensities.FromLowers | src/de/mprengemann/intellij/plugin/androidicons/images/Resolution.java:29-42 | a value parses to the density whose id is its lower-case form, or to null |
| LegacyDensities.FromMatchesIgnoringCase | src/de/mprengemann/intellij/plugin/androidicons/images/Resolution.java:29-42 | a value parses to a density exactly when it spells its id in any case, and to null exactly when it spells none |
| LegacyDensities.FromRoundTrip | src/de/mprengemann/intellij/plugin/androidicons/images/Resolution.java:19-43 | `from(d.toString()) == d` and `from(d.getName()) == d` |
| LegacyDensities.IdIsLower | src/de/mprengemann/intellij/plugin/androidicons/images/Resolution.java:6-26 | the id is lower-case, the name lower-cases to the id, and ids are distinct |
| ScaleFactors.DensityOf | src/main/java/de/mprengemann/intellij/plugin/androidicons/util/RefactorUtils.java:20-146 | every density has a positive relative density (LDPI 1/2, MDPI 1, TVDPI 4/3, HDPI 3/2, XHDPI 2, XXHDPI 3, XXXHDPI 4) |
| ScaleFactors.ScaleFactor | src/main/java/de/mprengemann/intellij/plugin/androidicons/util/RefactorUtils.java:20-148 | each of the 49 table entries is the ratio of the target density to the baseline density, and so is positive; the exception after the table is therefore unreachable |
| ScaleFactors.ScaleFactorIdentity | src/main/java/de/mprengemann/intellij/plugin/androidicons/util/RefactorUtils.java:20-146 | scaling a density to itself is the factor 1 |
| ScaleFactors.ScaleFactorInverse | src/main/java/de/mprengemann/intellij/plugin/androidicons/util/RefactorUtils.java:20-146 | the factors a→b and b→a multiply to 1 |
| ScaleFactors.ScaleFactorChain | src/main/java/de/mprengemann/intellij/plugin/androidicons/util/RefactorUtils.java:20-146 | the factors a←b and b←c multiply to the factor a←c |
| ScaleFactors.ScaleFactorMonotone | src/main/java/de/mprengemann/intellij/plugin/androidicons/util/RefactorUtils.java:20-146 | for a fixed baseline the factor strictly increases along LDPI < MDPI < TVDPI < HDPI < XHDPI < XXHDPI < XXXHDPI |
| RefactorHelper.LegacyScaleFactorAgrees | src/de/mprengemann/intellij/plugin/androidicons/util/RefactorHelper.java:191-290 | the six-density table has an entry exactly when neither side is TVDPI, agrees with the current table there, and throws IllegalArgumentException otherwise |
| RefactorHelper.LegacyScaleFactor | src/de/mprengemann/intellij/plugin/androidicons/util/RefactorHelper.java:191-290 | the factor exists exactly when neither side is TVDPI, is then the ratio of the two densities, and otherwise an IllegalArgumentException is thrown |
| RefactorHelper.TempImageFile | src/de/mprengemann/intellij/plugin/androidicons/util/RefactorHelper.java:138-140 | the temporary file lies in the density's folder under "<tempDir>/plugin-images/" and its last component is the export name |
| RefactorHelper.TempImageFileInjective | src/de/mprengemann/intellij/plugin/androidicons/util/RefactorHelper.java:138-140 | the path string "<tempDir>/plugin-images/<resolution>/<exportName>" determines the resolution and the export name (as a string, before `java.io.File` normalises it) |
| TextUtils.AllWhitespace | src/main/java/de/mprengemann/intellij/plugin/androidicons/util/TextUtils.java:12-18 | the scan finds no non-whitespace character exactly when every character is whitespace |
| TextUtils.IsBlank | src/main/java/de/mprengemann/intellij/plugin/androidicons/util/TextUtils.java:8-19 | null is blank; a string is blank exactly when all its characters are whitespace |
| TextUtils.EmptyIsBlank | src/main/java/de/mprengemann/intellij/plugin/androidicons/util/TextUtils.java:4-19 | an empty string is blank; a blank non-empty string starts with whitespace |
| Formats.Extension | src/main/java/de/mprengemann/intellij/plugin/androidicons/model/ImageInformation.java:121-128 | the file extension is the lower-case constant name |
| Formats.NonVectorValuesAreRaster | src/main/java/de/mprengemann/intellij/plugin/androidicons/model/Format.java:10-12 | the non-vector list holds exactly the formats other than XML |
| Formats.From | src/main/java/de/mprengemann/intellij/plugin/androidicons/model/Format.java:14-26 | null or empty throws IllegalArgumentException, and nothing else throws |
| Formats.FromIgnoringCase | src/main/java/de/mprengemann/intellij/plugin/androidicons/model/Format.java:18-25 | a value parses to a format exactly when it spells its name in any case, and to null exactly when it spells none |
| Formats.FromName | src/main/java/de/mprengemann/intellij/plugin/androidicons/model/Format.java:14-26 | a format's name and its lower-case extension both parse back to it |
| Formats.ValueOf | src/main/java/de/mprengemann/intellij/plugin/androidicons/controllers/settings/SettingsController.java:236 | succeeds exactly on a constant's exact name and returns that constant; null throws NullPointerException, other names IllegalArgumentException |
| Formats.FolderName | src/main/java/de/mprengemann/intellij/plugin/androidicons/model/Destination.java:6-18 | the folder prefix is the lower-case constant name |
| Formats.DestinationValueOf | src/main/java/de/mprengemann/intellij/plugin/androidicons/controllers/settings/SettingsController.java:246 | succeeds exactly on a constant's exact name; null throws NullPointerException, other names IllegalArgumentException |
| Formats.ValueOfRoundTrip | src/main/java/de/mprengemann/intellij/plugin/androidicons/controllers/settings/SettingsController.java:236-246 | `valueOf(x.toString()) == x` for every format and destination |
| ResizeAlgorithms.GetMethods | src/de/mprengemann/intellij/plugin/androidicons/images/ResizeAlgorithm.java:31-48 | every algorithm lists at least one method, without repeats |
| ResizeAlgorithms.GetMethod | src/de/mprengemann/intellij/plugin/androidicons/images/ResizeAlgorithm.java:50-70 | Thumbnailator gives null for every name; Scalr succeeds, with a method, exactly on its listed names; failures are IllegalArgumentException |
| ResizeAlgorithms.ScalrMethodsDistinct | src/de/mprengemann/intellij/plugin/androidicons/images/ResizeAlgorithm.java:52-63 | different listed Scalr names give different methods |
| ResizeAlgorithms.From | src/de/mprengemann/intellij/plugin/androidicons/images/ResizeAlgorithm.java:77-84 | succeeds exactly on a display name and returns the algorithm with that name; otherwise IllegalArgumentException |
| ResizeAlgorithms.FromRoundTrip | src/de/mprengemann/intellij/plugin/androidicons/images/ResizeAlgorithm.java:72-84 | `from(a.toString()) == a` |
| UtilResizeAlgorithms.UtilMethods | src/de/mprengemann/intellij/plugin/androidicons/util/ResizeAlgorithm.java:21-51 | every algorithm lists at least one method, without repeats |
| UtilResizeAlgorithms.UtilMethod | src/de/mprengemann/intellij/plugin/androidicons/util/ResizeAlgorithm.java:53-96 | Thumbnailator gives null; IMAGE never throws and gives a value exactly for its listed names (fall-through); GRAPHICS succeeds exactly on its names, null exactly for "Default"; Scalr succeeds, with a method, exactly on its names |
| UtilResizeAlgorithms.OnlyScalrAndGraphicsThrow | src/de/mprengemann/intellij/plugin/androidicons/util/ResizeAlgorithm.java:53-96 | a method name throws exactly for SCALR or GRAPHICS and a name they do not list |
| UtilResizeAlgorithms.UtilFrom | src/de/mprengemann/intellij/plugin/androidicons/util/ResizeAlgorithm.java:103-114 | succeeds exactly on a display name and returns the algorithm with that name; otherwise IllegalArgumentException |
| UtilResizeAlgorithms.UtilFromRoundTrip | src/de/mprengemann/intellij/plugin/androidicons/util/ResizeAlgorithm.java:98-114 | `from(a.toString()) == a` for all four algorithms |
| ExportNames.Replaced | src/de/mprengemann/intellij/plugin/androidicons/util/ExportNameUtils.java:31-32 | the result has the name's length; each character is kept when its lower-case form is in the class, and becomes '_' exactly otherwise |
| ExportNames.Sanitize | src/de/mprengemann/intellij/plugin/androidicons/util/ExportNameUtils.java:28-32 | a name already made only of lower-case letters, digits, '_' and '.' is kept; anything else is lower-cased and replaced character by character, so every output character is allowed |
| ExportNames.GetExportNameFromFilename | src/de/mprengemann/intellij/plugin/androidicons/util/ExportNameUtils.java:26-33 | the extension is removed and the rest sanitised: same length, only allowed characters, and an already plain name is unchanged |
| ExportNames.SanitizeIdempotent | src/de/mprengemann/intellij/plugin/androidicons/util/ExportNameUtils.java:26-33 | sanitising a sanitised name changes nothing |
| ExportNames.SanitizeLetters | src/de/mprengemann/intellij/plugin/androidicons/util/ExportNameUtils.java:31-32 | upper-case ASCII letters come out lower-cased, and characters outside the class come out as '_' |
| ExportNames.FileNames | src/de/mprengemann/intellij/plugin/androidicons/util/ExportNameUtils.java:36-39 | the file names of the entries, in order; a missing file throws a null pointer |
| ExportNames.ResolutionNames | src/de/mprengemann/intellij/plugin/androidicons/util/ExportNameUtils.java:49-55 | the density names of the entries, in list order |
| ExportNames.Description | src/de/mprengemann/intellij/plugin/androidicons/util/ExportNameUtils.java:35-68 | fails exactly for an empty list or a missing file; otherwise starts with "Import of " |
| ExportNames.DescriptionOfOne | src/de/mprengemann/intellij/plugin/androidicons/util/ExportNameUtils.java:42-46 | one entry is described as its file name "in resolution" its density |
| ExportNames.DescriptionOfOneFile | src/de/mprengemann/intellij/plugin/androidicons/util/ExportNameUtils.java:42-55 | several entries of one file: the file name once, "in resolutions", then every density in list order, separated by ", " |
| ExportNames.SeveralFiles | src/de/mprengemann/intellij/plugin/androidicons/util/ExportNameUtils.java:57-65 | the several-files description starts with "Import of " and ends with " as " and the export name |
| ExportNames.SeveralFilesChosen | src/de/mprengemann/intellij/plugin/androidicons/util/ExportNameUtils.java:42-65 | entries of two different file names take the several-files form over the distinct names, which the model lists in ascending order |
| ExportNames.DescriptionOfSeveralFiles | src/de/mprengemann/intellij/plugin/androidicons/util/ExportNameUtils.java:56-66 | with several files the description ends with " as " and the first entry's export name and lists each distinct file name exactly once; the model's listing is ascending, which stands in for the hash set's order |
| LegacyImageInfo.NewBuilder | src/de/mprengemann/intellij/plugin/androidicons/images/ImageInformation.java:134-152 | a fresh builder has no file, path or name, an unset factor, XHDPI, kept target sizes, no nine-patch, Scalr with its automatic method and zero image sizes |
| LegacyImageInfo.Build | src/de/mprengemann/intellij/plugin/androidicons/images/ImageInformation.java:232-246 | the record carries the builder's file, export path, export name, density, factor and nine-patch flag, in the project's folder |
| LegacyImageInfo.CopyOf | src/de/mprengemann/intellij/plugin/androidicons/images/ImageInformation.java:74-76 | copying a record into a builder keeps its name and density, and building the copy in the record's folder gives the record back |
| LegacyImageInfo.CopyRoundTrip | src/de/mprengemann/intellij/plugin/androidicons/images/ImageInformation.java:154-167 | copying a record into a builder and building it in the same folder restores the record, and copying a built record gives back its builder |
| LegacyImageInfo.SetImageFile | src/de/mprengemann/intellij/plugin/androidicons/images/ImageInformation.java:224-230 | a null file fails with a null pointer exactly when no export name is set; otherwise the file is stored and the export name becomes the file name only when none was set |
| LegacyImageInfo.FirstFileNamesExport | src/de/mprengemann/intellij/plugin/androidicons/images/ImageInformation.java:224-230 | the first file set on an unnamed builder names the export, and a later file does not rename it |
| LegacyImageInfo.TargetFile | src/de/mprengemann/intellij/plugin/androidicons/images/ImageInformation.java:82-84 | the target file is "<path>/drawable-<density>/<name>.png" |
| LegacyImageInfo.TargetFileInjective | src/de/mprengemann/intellij/plugin/androidicons/images/ImageInformation.java:82-84 | within one export path the target path string determines the density and the name |
| LegacyImageInfo.TempImage | src/de/mprengemann/intellij/plugin/androidicons/images/ImageInformation.java:78-80 | the temporary file is "<tempDir>/plugin-images/<density>/<name>" |
| LegacyImageInfo.TempImageInjective | src/de/mprengemann/intellij/plugin/androidicons/images/ImageInformation.java:78-80 | within one temporary folder the temporary path string determines the density and the name |
| ImageInfo.NewBuilder | src/main/java/de/mprengemann/intellij/plugin/androidicons/model/ImageInformation.java:134-151 | a fresh builder has no file, path or name, factor 1, XHDPI, no nine-patch or vector flag, and the defaults controller's algorithm, method, format and destination |
| ImageInfo.WithFormat | src/main/java/de/mprengemann/intellij/plugin/androidicons/model/ImageInformation.java:215-218 | a nine-patch builder always gets PNG; any other builder gets the requested format; nothing else changes |
| ImageInfo.WithImageFile | src/main/java/de/mprengemann/intellij/plugin/androidicons/model/ImageInformation.java:207-213 | a null file fails with a null pointer exactly when no export name is set; otherwise the file is stored and the export name becomes the file name only when none was set |
| ImageInfo.Apply | src/main/java/de/mprengemann/intellij/plugin/androidicons/model/ImageInformation.java:167-223 | only setting the file can fail, and it fails as the file setter does |
| ImageInfo.ApplyAll | src/main/java/de/mprengemann/intellij/plugin/androidicons/model/ImageInformation.java:167-223 | no call leaves the builder as it was; a chain without a file setter never fails, and a failing chain fails with a null pointer at a null file |
| ImageInfo.ApplyKeepsPng | src/main/java/de/mprengemann/intellij/plugin/androidicons/model/ImageInformation.java:192-218 | every setter keeps "nine-patch implies PNG"; switching nine-patch on forces PNG, switching it off keeps the format |
| ImageInfo.ApplyAllKeepsPng | src/main/java/de/mprengemann/intellij/plugin/androidicons/model/ImageInformation.java:167-223 | any chain of setter calls from a consistent builder keeps "nine-patch implies PNG" |
| ImageInfo.BuiltFromNewIsPng | src/main/java/de/mprengemann/intellij/plugin/androidicons/model/ImageInformation.java:134-236 | every record built from a fresh builder that is nine-patch is PNG |
| ImageInfo.TargetFile | src/main/java/de/mprengemann/intellij/plugin/androidicons/model/ImageInformation.java:121-128 | the target file is "<path>/<folder>-<density>/<name>.<extension>" |
| ImageInfo.TargetFileShape | src/main/java/de/mprengemann/intellij/plugin/androidicons/model/ImageInformation.java:121-128 | the target file's fields are joined in pattern order, grouped from the right |
| ImageInfo.TargetFileInjective | src/main/java/de/mprengemann/intellij/plugin/androidicons/model/ImageInformation.java:121-128 | within one export path the target path string determines the destination folder, the density, the name and the format |
| ImageInfo.ImagesDir | src/main/java/de/mprengemann/intellij/plugin/androidicons/model/ImageInformation.java:71-73 | the temporary images folder is the "plugin-images" folder of the plugin's temporary path |
| ImageInfo.TempImage | src/main/java/de/mprengemann/intellij/plugin/androidicons/model/ImageInformation.java:75-79 | the temporary file is "<images folder>/<density>/<name>" |
| ImageInfo.TempImageInjective | src/main/java/de/mprengemann/intellij/plugin/androidicons/model/ImageInformation.java:75-79 | the temporary path string determines the density and the name |
| ImageUtils.GetExportName | src/de/mprengemann/intellij/plugin/androidicons/images/ImageUtils.java:183-191 | a prefix whose trim is non-empty is prepended with an underscore; otherwise the name is returned unchanged |
| ImageUtils.GetExportNameBlankPrefix | src/de/mprengemann/intellij/plugin/androidicons/images/ImageUtils.java:183-191 | a prefix of only spaces and control characters leaves the name alone; any other prefix is prepended |
| ImageUtils.TargetFile | src/de/mprengemann/intellij/plugin/androidicons/images/ImageUtils.java:413-415 | the target file lies in the "drawable-<density>" folder under the export path, and its last component is the export name with ".png" |
| ImageUtils.TargetFileInjective | src/de/mprengemann/intellij/plugin/androidicons/images/ImageUtils.java:413-415 | within one export path the target path string determines both the density folder and the name |
| ImageUtils.VerifyBorder | src/de/mprengemann/intellij/plugin/androidicons/images/ImageUtils.java:306-316 | a border passes exactly when every non-transparent pixel is opaque black or opaque red; otherwise it fails with a nine-patch error |
| ImageUtils.EnforceColors | src/de/mprengemann/intellij/plugin/androidicons/images/ImageUtils.java:205-222 | every non-transparent pixel becomes opaque black and transparent pixels are kept |
| ImageUtils.EnforceColorsIdempotent | src/de/mprengemann/intellij/plugin/androidicons/images/ImageUtils.java:205-222 | enforcing twice is enforcing once, and an enforced border always passes the border check |
| ImageUtils.ScanPixel | src/de/mprengemann/intellij/plugin/androidicons/images/ImageUtils.java:345-375 | one scan step keeps the scan invariant for one more pixel |
| ImageUtils.DetectRuns | src/de/mprengemann/intellij/plugin/androidicons/images/ImageUtils.java:344-375 | the start and end lists are exactly the maximal runs of non-transparent pixels, in order, a run reaching the end closing at the last index |
| ImageUtils.RescaleTarget | src/de/mprengemann/intellij/plugin/androidicons/images/ImageUtils.java:318-328 | a zero target side becomes 1, and the call fails with a nine-patch error exactly when both sides exceed 1 |
| ImageUtils.NewSize | src/de/mprengemann/intellij/plugin/androidicons/images/ImageUtils.java:98-113 | the base size is the recorded size, or the decoded size when a recorded side is not positive; a non-negative factor gives, per side, the largest whole number not above base × factor, as the `(int)` cast truncates a non-negative product; a negative factor keeps the base size |
| ImageUtils.NewSizeWholeFactor | src/de/mprengemann/intellij/plugin/androidicons/images/ImageUtils.java:98-110 | a whole factor k gives exactly k times the base size on each side |
| ImageUtils.ResizeNormal | src/de/mprengemann/intellij/plugin/androidicons/images/ImageUtils.java:115-134 | a factor of exactly 1 returns the decoded image itself; any other factor resamples to the target size |
| Conflicts.CheckFileExist | src/main/java/de/mprengemann/intellij/plugin/androidicons/images/RefactoringTask.java:116-155 | a target without a clashing file is copied silently; a clash prompts exactly when no remembered answer exists, remembers exactly the "for all" answers, and then either skips or deletes the existing file, never both |
| Conflicts.CopyLoop | src/main/java/de/mprengemann/intellij/plugin/androidicons/images/RefactoringTask.java:192-210 | the loop yields one step per source/target pair |
| Conflicts.Copy | src/main/java/de/mprengemann/intellij/plugin/androidicons/images/RefactoringTask.java:192-211 | the copy yields one step per pair, starting with no remembered answer |
| Conflicts.NoConflictCopies | src/main/java/de/mprengemann/intellij/plugin/androidicons/images/RefactoringTask.java:121-127 | an entry whose target holds no other file of that name is copied without a dialog, whatever was answered before |
| Conflicts.ForAllSticks | src/main/java/de/mprengemann/intellij/plugin/androidicons/images/RefactoringTask.java:136-146 | after "Overwrite for all" or "Skip for all" every later clash is settled the same way without a dialog |
| Conflicts.FirstConflictAsks | src/main/java/de/mprengemann/intellij/plugin/androidicons/images/RefactoringTask.java:129-152 | the first clash of a copy always shows the dialog and its answer decides that entry (Overwrite and Overwrite-for-all replace, anything else skips) |
| Conflicts.FirstConflictFrom | src/de/mprengemann/intellij/plugin/androidicons/util/RefactorHelper.java:73-89 | in the earlier generation too, the loop started with no remembered answer asks at its first clash and follows the answer, from any dialog count |
| Conflicts.Found | src/main/java/de/mprengemann/intellij/plugin/androidicons/images/RefactoringTask.java:166-190 | the handles kept are exactly the lookups that succeeded |
| Conflicts.FoundAppend | src/main/java/de/mprengemann/intellij/plugin/androidicons/images/RefactoringTask.java:166-190 | keeping the found handles distributes over concatenation, so they stay in request order and each successful lookup adds exactly one |
| Conflicts.FoundPosition | src/main/java/de/mprengemann/intellij/plugin/androidicons/images/RefactoringTask.java:166-190 | a successful lookup's handle sits at its rank, the number of successful lookups before it |
| Conflicts.PairUp | src/main/java/de/mprengemann/intellij/plugin/androidicons/images/RefactoringTask.java:192-214 | the copy proceeds iff as many sources as target folders were found and at least one; it then pairs the n-th found source with the n-th found folder, and otherwise fails with FileNotFound |
| Conflicts.PairUpByRank | src/main/java/de/mprengemann/intellij/plugin/androidicons/images/RefactoringTask.java:166-214 | a found i-th source is paired with the found folder whose rank among the folders equals the source's rank among the found sources; the i-th target's own folder plays no part |
| Conflicts.PairUpMisaligns | src/main/java/de/mprengemann/intellij/plugin/androidicons/images/RefactoringTask.java:166-214 | with sources `[a, null, c]` and targets `[null, y, z]` the copy pairs `a` with `y` and `c` with `z` |
| Conflicts.FoundAll | src/de/mprengemann/intellij/plugin/androidicons/util/RefactorHelper.java:47-71 | when every lookup succeeds nothing is dropped and the order is kept |
| Conflicts.PairUpAligned | src/de/mprengemann/intellij/plugin/androidicons/util/RefactorHelper.java:47-73 | when every source and target folder is found each source is paired with its own target |
| RefactoringTask.AddImage | src/main/java/de/mprengemann/intellij/plugin/androidicons/images/RefactoringTask.java:84-89 | a null entry leaves the list alone; any other entry is appended after the existing ones |
| RefactoringTask.AddAllKeepsFound | src/main/java/de/mprengemann/intellij/plugin/androidicons/images/RefactoringTask.java:84-89 | after any sequence of additions the task holds exactly the non-null entries, in the order they were added |
| RefactoringTask.Run | src/main/java/de/mprengemann/intellij/plugin/androidicons/images/RefactoringTask.java:94-112 | an empty task does nothing; otherwise one temporary image and one target per entry, in the entries' order: the entry's own temporary image and target file |
| RefactoringTask.RunTempFilesDistinct | src/main/java/de/mprengemann/intellij/plugin/androidicons/images/RefactoringTask.java:217-224 | two entries that differ in density or export name get different temporary image path strings |
| RefactoringTask.RunTargetsDistinct | src/main/java/de/mprengemann/intellij/plugin/androidicons/images/RefactoringTask.java:217-224 | two entries under one export path that differ in destination, density, export name or format get different target path strings |
| RefactoringTask.RunAfterAdds | src/main/java/de/mprengemann/intellij/plugin/androidicons/images/RefactoringTask.java:84-97 | a task does nothing exactly when every entry added to it was null; otherwise it moves the non-null entries, in the order they were added |
| BatchScale.EmptyIsValid | src/main/java/de/mprengemann/intellij/plugin/androidicons/controllers/batchscale/BatchScaleImporterController.java:26-40 | the new controller satisfies the invariant tying the entry map, the resolution map and the file list together |
| BatchScale.AddIfAbsent | src/main/java/de/mprengemann/intellij/plugin/androidicons/controllers/batchscale/BatchScaleImporterController.java:30-38 | the file list's `add` adds the element exactly when absent, at the end, and keeps the list duplicate-free |
| BatchScale.AddImage | src/main/java/de/mprengemann/intellij/plugin/androidicons/controllers/batchscale/BatchScaleImporterController.java:59-69 | a null or empty list changes nothing; a first entry without a file fails with a null pointer; otherwise the file is keyed with its entries and resolution and the invariant is kept |
| BatchScale.GetImage | src/main/java/de/mprengemann/intellij/plugin/androidicons/controllers/batchscale/BatchScaleImporterController.java:140-147 | null exactly outside the list; on a valid state the lookup succeeds and yields the first entry of that file |
| BatchScale.ReAddKeepsPosition | src/main/java/de/mprengemann/intellij/plugin/androidicons/controllers/batchscale/BatchScaleImporterController.java:30-38 | re-adding a listed file replaces its entries and resolution but keeps its position and the count |
| BatchScale.RemoveFirst | src/main/java/de/mprengemann/intellij/plugin/androidicons/controllers/batchscale/BatchScaleImporterController.java:129 | `List.remove` drops exactly one occurrence of a present element and nothing else from a duplicate-free list |
| BatchScale.RemoveFirstSplits | src/main/java/de/mprengemann/intellij/plugin/androidicons/controllers/batchscale/BatchScaleImporterController.java:129 | `List.remove` drops the first occurrence and keeps everything before and after it in order |
| BatchScale.RemoveImage | src/main/java/de/mprengemann/intellij/plugin/androidicons/controllers/batchscale/BatchScaleImporterController.java:123-132 | an unknown path changes nothing; otherwise the path leaves all three collections, the count drops by one, and other files keep their entries |
| BatchScale.RemoveImages | src/main/java/de/mprengemann/intellij/plugin/androidicons/controllers/batchscale/BatchScaleImporterController.java:112-120 | the loop keeps the invariant and never grows the list |
| BatchScale.RemoveImagesCount | src/main/java/de/mprengemann/intellij/plugin/androidicons/controllers/batchscale/BatchScaleImporterController.java:112-120 | indices valid against the list as it shrinks remove exactly one file each |
| BatchScale.RemoveImagesShifts | src/main/java/de/mprengemann/intellij/plugin/androidicons/controllers/batchscale/BatchScaleImporterController.java:112-120 | indices are read against the shrinking list: removing index 0 twice from [a, b, c] leaves [c] |
| BatchScale.GetTargetResolutions | src/main/java/de/mprengemann/intellij/plugin/androidicons/controllers/batchscale/BatchScaleImporterController.java:150-161 | fails exactly when the entry has no file; an unknown file gives no resolution; otherwise the stored entries' target resolutions in order |
| BatchScale.TaskOf | src/main/java/de/mprengemann/intellij/plugin/androidicons/controllers/batchscale/BatchScaleImporterController.java:164-173 | the task exists exactly when every listed file has entries, and a missing one throws a null pointer; the task is the files' entry lists one after another in list order, so it holds every entry of a listed file and nothing else |
| BatchScale.GetExportTask | src/main/java/de/mprengemann/intellij/plugin/androidicons/controllers/batchscale/BatchScaleImporterController.java:164-173 | the task exists exactly when every listed file has entries, which always holds in a valid state; it is the files' entry lists one after another in list order, every entry of a listed file and nothing else |
| BatchScale.ExportTaskGrouped | src/main/java/de/mprengemann/intellij/plugin/androidicons/controllers/batchscale/BatchScaleImporterController.java:164-173 | the entries of the k-th listed file sit together in the task, in their own order, right after those of the files listed before it |
| AddItem.FromFile | src/main/java/de/mprengemann/intellij/plugin/androidicons/controllers/batchscale/additem/AddItemBatchScaleImporterController.java:42-58 | a new item is a nine-patch exactly when the file name ends in ".9.png", and is then exported as PNG, otherwise in the default format; the export name is a sanitised file name; targets, source density, algorithm, method and destination come from the defaults; the file is kept exactly when `ImageIO.read` does not throw |
| AddItem.TargetsOf | src/main/java/de/mprengemann/intellij/plugin/androidicons/controllers/batchscale/additem/AddItemBatchScaleImporterController.java:63-66 | the target set is exactly the set of the entries' target densities |
| AddItem.FromEntries | src/main/java/de/mprengemann/intellij/plugin/androidicons/controllers/batchscale/additem/AddItemBatchScaleImporterController.java:60-81 | editing an empty list fails with an index error; otherwise the targets are those of the entries, including the first entry's |
| AddItem.SetSourceResolution | src/main/java/de/mprengemann/intellij/plugin/androidicons/controllers/batchscale/additem/AddItemBatchScaleImporterController.java:138-142 | sets the source density, touches nothing else, and always notifies |
| AddItem.AddTargetResolution | src/main/java/de/mprengemann/intellij/plugin/androidicons/controllers/batchscale/additem/AddItemBatchScaleImporterController.java:149-156 | the targets gain the density, nothing else changes, and observers hear of it iff it was new |
| AddItem.RemoveTargetResolution | src/main/java/de/mprengemann/intellij/plugin/androidicons/controllers/batchscale/additem/AddItemBatchScaleImporterController.java:158-164 | the targets lose the density, nothing else changes, and observers hear of it iff it was a target |
| AddItem.TargetOpsIdempotent | src/main/java/de/mprengemann/intellij/plugin/androidicons/controllers/batchscale/additem/AddItemBatchScaleImporterController.java:149-164 | adding or removing twice equals once and the second call is silent; removing a density just added restores the state |
| AddItem.SetTargetRoot | src/main/java/de/mprengemann/intellij/plugin/androidicons/controllers/batchscale/additem/AddItemBatchScaleImporterController.java:187-193 | a null current root throws a null pointer; otherwise the root is set and observers hear of it iff it changed |
| AddItem.SetExportName | src/main/java/de/mprengemann/intellij/plugin/androidicons/controllers/batchscale/additem/AddItemBatchScaleImporterController.java:196-202 | a null current name throws a null pointer; otherwise the name is set and observers hear of it iff it changed |
| AddItem.SetAlgorithm | src/main/java/de/mprengemann/intellij/plugin/androidicons/controllers/batchscale/additem/AddItemBatchScaleImporterController.java:205-212 | another algorithm replaces the method by its first one, which the algorithm accepts; the same algorithm changes nothing |
| AddItem.SetMethod | src/main/java/de/mprengemann/intellij/plugin/androidicons/controllers/batchscale/additem/AddItemBatchScaleImporterController.java:215-221 | sets the method; observers hear of it iff it changed |
| AddItem.SetFormat | src/main/java/de/mprengemann/intellij/plugin/androidicons/controllers/batchscale/additem/AddItemBatchScaleImporterController.java:239-245 | sets the format; observers hear of it iff it changed |
| AddItem.SetDestination | src/main/java/de/mprengemann/intellij/plugin/androidicons/controllers/batchscale/additem/AddItemBatchScaleImporterController.java:253-260 | sets the destination; observers hear of it iff it changed |
| AddItem.UnchangedValuesDoNotNotify | src/main/java/de/mprengemann/intellij/plugin/androidicons/controllers/batchscale/additem/AddItemBatchScaleImporterController.java:187-260 | setting any field to its current value leaves the state alone and notifies nobody |
| AddItem.FanOut | src/main/java/de/mprengemann/intellij/plugin/androidicons/controllers/batchscale/additem/AddItemBatchScaleImporterController.java:280-287 | exactly one copy of the record per target density, no density twice, each differing from the record only in its density and the density's real scale factor |
| AddItem.RealScaleFactor | src/main/java/de/mprengemann/intellij/plugin/androidicons/controllers/batchscale/additem/AddItemBatchScaleImporterController.java:311-315 | the factor is the ratio of the target to the source density, times the size ratio, and it is positive when the size ratio is |
| AddItem.Base | src/main/java/de/mprengemann/intellij/plugin/androidicons/controllers/batchscale/additem/AddItemBatchScaleImporterController.java:269-279 | building fails exactly when there is neither an export name nor a file, or the method name is unknown; otherwise the entry carries the file, export path, name (the file name when none is set), algorithm, method, nine-patch flag, destination and format (PNG for a nine-patch) |
| AddItem.FirstCalls | src/main/java/de/mprengemann/intellij/plugin/androidicons/controllers/batchscale/additem/AddItemBatchScaleImporterController.java:270-273 | the builder calls before the method lookup set name, file and algorithm as the builder defines them |
| AddItem.LastCalls | src/main/java/de/mprengemann/intellij/plugin/androidicons/controllers/batchscale/additem/AddItemBatchScaleImporterController.java:274-279 | the builder calls after the method lookup set method, path, nine-patch flag, format and destination |
| AddItem.GetImageInformation | src/main/java/de/mprengemann/intellij/plugin/androidicons/controllers/batchscale/additem/AddItemBatchScaleImporterController.java:269-288 | fails exactly when building fails; otherwise one entry per target density, every target once, each with its density's factor and the settings' file, name, path, algorithm, destination, nine-patch flag and format (PNG for a nine-patch) |
| AddItem.GetImageInformationFor | src/main/java/de/mprengemann/intellij/plugin/androidicons/controllers/batchscale/additem/AddItemBatchScaleImporterController.java:291-309 | no entry fails on get(0) and an unknown method fails too; otherwise one entry per target density, each with its density's factor, file, name, destination and nine-patch flag from the first entry, and path, algorithm, method and format (PNG for a nine-patch) from the settings |
| AddItem.EditUnchangedRoundTrip | src/main/java/de/mprengemann/intellij/plugin/androidicons/controllers/batchscale/additem/AddItemBatchScaleImporterController.java:60-81 | opening a dialog's entries for editing and saving them unchanged gives back the same entries, provided the algorithm reads its pretty method name back as the same method |
| AddItem.EditedState | src/main/java/de/mprengemann/intellij/plugin/androidicons/controllers/batchscale/additem/AddItemBatchScaleImporterController.java:60-81 | the edit dialog opened on a dialog's own entries holds that dialog's targets, source density, size ratio and settings |
| AddItem.ReopenedFanOut | src/main/java/de/mprengemann/intellij/plugin/androidicons/controllers/batchscale/additem/AddItemBatchScaleImporterController.java:291-309 | saving the reopened state over the entries reproduces them |
| AddItem.EditedBase | src/main/java/de/mprengemann/intellij/plugin/androidicons/controllers/batchscale/additem/AddItemBatchScaleImporterController.java:295-300 | re-saving entries whose settings the dialog already holds rebuilds the first entry unchanged |
| AddItem.SameFanOut | src/main/java/de/mprengemann/intellij/plugin/androidicons/controllers/batchscale/additem/AddItemBatchScaleImporterController.java:302-307 | two records that differ only in density and factor fan out to the same entries |
| AddItem.NinePatchFileExportsPng | src/main/java/de/mprengemann/intellij/plugin/androidicons/controllers/batchscale/additem/AddItemBatchScaleImporterController.java:55-56 | a fresh nine-patch file is exported only as PNG, whatever the default format |
| MultiImporter.Entry | src/main/java/de/mprengemann/intellij/plugin/androidicons/controllers/multi/MultiImporterController.java:57-60 | the stored record is what a fresh builder makes of the file and the density: it carries that file and that density |
| MultiImporter.AddImage | src/main/java/de/mprengemann/intellij/plugin/androidicons/controllers/multi/MultiImporterController.java:56-66 | the density's image is stored or replaced and becomes the most recent; an empty export name is seeded from the sanitised file name, a set one is kept; the invariant is kept and observers are always told |
| MultiImporter.SetTargetRoot | src/main/java/de/mprengemann/intellij/plugin/androidicons/controllers/multi/MultiImporterController.java:47-53 | the root takes the path; observers hear of it iff it changed |
| MultiImporter.SetExportName | src/main/java/de/mprengemann/intellij/plugin/androidicons/controllers/multi/MultiImporterController.java:81-87 | the name takes the value, null included; observers hear of it iff it changed |
| MultiImporter.SetMostRecentImage | src/main/java/de/mprengemann/intellij/plugin/androidicons/controllers/multi/MultiImporterController.java:103-109 | the most recent density takes the value; observers hear of it iff it changed |
| MultiImporter.GetMostRecentImage | src/main/java/de/mprengemann/intellij/plugin/androidicons/controllers/multi/MultiImporterController.java:95-100 | null when the most recent density holds no image, otherwise that image's file |
| MultiImporter.AddedIsMostRecent | src/main/java/de/mprengemann/intellij/plugin/androidicons/controllers/multi/MultiImporterController.java:56-100 | right after adding a file, the most recent image is that file |
| MultiImporter.AddReplaces | src/main/java/de/mprengemann/intellij/plugin/androidicons/controllers/multi/MultiImporterController.java:56-61 | a second image for a density replaces the first without changing the count, and other densities keep theirs |
| MultiImporter.ExportNameSeededOnce | src/main/java/de/mprengemann/intellij/plugin/androidicons/controllers/multi/MultiImporterController.java:62-64 | the first file's non-empty sanitised name stays the export name after a second file; an empty one is replaced by the second file's |
| MultiImporter.TaskOrder | src/main/java/de/mprengemann/intellij/plugin/androidicons/controllers/multi/MultiImporterController.java:69-78 | the densities are visited in an order that lists every stored density exactly once and nothing else |
| MultiImporter.GetTask | src/main/java/de/mprengemann/intellij/plugin/androidicons/controllers/multi/MultiImporterController.java:69-78 | the task holds one entry per stored image, in the visiting order of the densities, each the stored image with the current root and export name; every stored image appears |
| MultiImporter.TaskOnePerDensity | src/main/java/de/mprengemann/intellij/plugin/androidicons/controllers/multi/MultiImporterController.java:69-78 | for a valid state the task holds exactly one entry per stored density |
| MultiImporter.UnchangedValuesDoNotNotify | src/main/java/de/mprengemann/intellij/plugin/androidicons/controllers/multi/MultiImporterController.java:47-109 | setting root, name or most recent density to its current value changes nothing and notifies nobody |
| IconsImporter.ControllerFor | src/main/java/de/mprengemann/intellij/plugin/androidicons/controllers/iconimporter/IconsImporterController.java:86-96 | an id is served exactly when it is the Android or the Material controller's id, the Android one winning; any other id throws an illegal-argument error |
| IconsImporter.AssetsOf | src/main/java/de/mprengemann/intellij/plugin/androidicons/controllers/iconimporter/IconsImporterController.java:200-202 | the Android controller lists every asset, the Material one the category's list or null |
| IconsImporter.FirstAsset | src/main/java/de/mprengemann/intellij/plugin/androidicons/controllers/iconimporter/IconsImporterController.java:39-40 | the first asset of the first category exists exactly when there is a category whose list is present and non-empty; otherwise an index or null-pointer error |
| IconsImporter.New | src/main/java/de/mprengemann/intellij/plugin/androidicons/controllers/iconimporter/IconsImporterController.java:33-46 | construction succeeds exactly when the Android pack has a first asset with a size and a colour; it selects that asset consistently, with no custom name, no root and nothing to export |
| IconsImporter.UpdateColorAndSize | src/main/java/de/mprengemann/intellij/plugin/androidicons/controllers/iconimporter/IconsImporterController.java:115-122 | fails with an index error exactly when a missing colour or size has no replacement; otherwise the selection becomes consistent, only colour and size change, and offered values are kept |
| IconsImporter.SetSelectedIconPack | src/main/java/de/mprengemann/intellij/plugin/androidicons/controllers/iconimporter/IconsImporterController.java:74-83 | the current pack changes nothing; an unknown pack throws; another pack selects its first asset consistently and notifies, keeping name, root and densities |
| IconsImporter.SetSelectedCategory | src/main/java/de/mprengemann/intellij/plugin/androidicons/controllers/iconimporter/IconsImporterController.java:99-106 | the current category changes nothing; a category the Material controller does not know throws a null pointer; otherwise its first Material asset is selected consistently and observers are told |
| IconsImporter.SetSelectedAsset | src/main/java/de/mprengemann/intellij/plugin/androidicons/controllers/iconimporter/IconsImporterController.java:109-113 | succeeds exactly when the asset offers a replacement for any missing colour or size; the asset is selected consistently, offered colours are kept, and observers are always told |
| IconsImporter.SetSelectedSize | src/main/java/de/mprengemann/intellij/plugin/androidicons/controllers/iconimporter/IconsImporterController.java:125-135 | an offered size is taken, any other one falls back to the first size (an error when there is none); nothing else changes; observers hear of it unless the same offered size is chosen again |
| IconsImporter.SetSelectedColorAsWritten | src/main/java/de/mprengemann/intellij/plugin/androidicons/controllers/iconimporter/IconsImporterController.java:138-148 | an unoffered colour is stored as given and the asset's first colour is written into the selected size |
| IconsImporter.AsWrittenColorBreaksSelection | src/main/java/de/mprengemann/intellij/plugin/androidicons/controllers/iconimporter/IconsImporterController.java:138-148 | for an asset in black and white at 24dp, choosing "red" leaves "red" selected and "black" as the size, so the selection is no longer consistent |
| IconsImporter.SetSelectedColor | src/main/java/de/mprengemann/intellij/plugin/androidicons/controllers/iconimporter/IconsImporterController.java:138-148 | the corrected setter: an offered colour is taken, any other one falls back to the first colour; nothing else changes; observers hear of it unless the same offered colour is chosen again |
| IconsImporter.ChoicesKeepSelection | src/main/java/de/mprengemann/intellij/plugin/androidicons/controllers/iconimporter/IconsImporterController.java:115-148 | from a consistent selection every corrected colour choice and every size choice succeeds and keeps the selection consistent |
| IconsImporter.SetExportName | src/main/java/de/mprengemann/intellij/plugin/androidicons/controllers/iconimporter/IconsImporterController.java:151-160 | a null name throws; the asset's own name clears the custom name, any other name becomes it; observers hear of it iff the stored name changed |
| IconsImporter.GetExportName | src/main/java/de/mprengemann/intellij/plugin/androidicons/controllers/iconimporter/IconsImporterController.java:163-165 | the custom name when one is set, otherwise the asset's name |
| IconsImporter.ExportNameRoundTrip | src/main/java/de/mprengemann/intellij/plugin/androidicons/controllers/iconimporter/IconsImporterController.java:151-165 | whatever name is set is the name read back, and setting it again changes nothing |
| IconsImporter.SetExportRoot | src/main/java/de/mprengemann/intellij/plugin/androidicons/controllers/iconimporter/IconsImporterController.java:65-71 | a null root throws; otherwise the root is set and observers hear of it iff it changed |
| IconsImporter.SetExportResolution | src/main/java/de/mprengemann/intellij/plugin/androidicons/controllers/iconimporter/IconsImporterController.java:270-276 | the density is marked exactly as asked, no other density changes, and nothing else changes |
| IconsImporter.ExportResolutionIdempotent | src/main/java/de/mprengemann/intellij/plugin/androidicons/controllers/iconimporter/IconsImporterController.java:270-276 | marking twice is marking once, the last call wins, and marking a density as it already is changes nothing |
| IconsImporter.ImageFileOf | src/main/java/de/mprengemann/intellij/plugin/androidicons/controllers/iconimporter/IconsImporterController.java:189-192 | the Android controller's file with the size, or the Material controller's raster file |
| IconsImporter.ImageFileIsPng | src/main/java/de/mprengemann/intellij/plugin/androidicons/controllers/iconimporter/IconsImporterController.java:189-192 | both packs serve PNG files for a density, the Android one named after the asset |
| IconsImporter.GetSelectedImageFile | src/main/java/de/mprengemann/intellij/plugin/androidicons/controllers/iconimporter/IconsImporterController.java:189-192 | fails exactly when the selected asset's pack has no controller; otherwise the selected asset's file in the selected colour and size |
| IconsImporter.GetSelectedImageFileDefault | src/main/java/de/mprengemann/intellij/plugin/androidicons/controllers/iconimporter/IconsImporterController.java:184-186 | without a density the XHDPI file is meant |
| IconsImporter.GetThumbnailFile | src/main/java/de/mprengemann/intellij/plugin/androidicons/controllers/iconimporter/IconsImporterController.java:178-181 | fails exactly when the pack has no controller; otherwise the black file at LDPI without size for Android, or at MDPI in 24dp for Material |
| IconsImporter.GetCategories | src/main/java/de/mprengemann/intellij/plugin/androidicons/controllers/iconimporter/IconsImporterController.java:195-197 | fails exactly when the selected pack has no controller; otherwise that controller's categories |
| IconsImporter.GetAssets | src/main/java/de/mprengemann/intellij/plugin/androidicons/controllers/iconimporter/IconsImporterController.java:200-202 | fails exactly when the selected pack has no controller; otherwise that controller's assets for the selected category |
| IconsImporter.FallbackSource | src/main/java/de/mprengemann/intellij/plugin/androidicons/controllers/iconimporter/IconsImporterController.java:253-261 | a missing density is scaled from XXHDPI for "android_icons" and MDPI for "material_icons", and there is none for any other id |
| IconsImporter.TaskBase | src/main/java/de/mprengemann/intellij/plugin/androidicons/controllers/iconimporter/IconsImporterController.java:241-245 | every task entry starts from a fresh record carrying the export name read back and the export root |
| IconsImporter.TaskEntry | src/main/java/de/mprengemann/intellij/plugin/androidicons/controllers/iconimporter/IconsImporterController.java:246-264 | an entry fails exactly when the pack has no controller or the density is missing without a fallback; otherwise it carries the density, the export name and root, and either the asset's own file at factor 1 or the fallback's file scaled by the density ratio |
| IconsImporter.TaskEntries | src/main/java/de/mprengemann/intellij/plugin/androidicons/controllers/iconimporter/IconsImporterController.java:246-265 | the loop succeeds exactly when every density's entry does, and then yields those entries in order |
| IconsImporter.GetTask | src/main/java/de/mprengemann/intellij/plugin/androidicons/controllers/iconimporter/IconsImporterController.java:240-267 | no density gives an empty task; otherwise the task succeeds exactly when every marked density's entry does, and then holds exactly those entries |
| IconsImporter.EntriesCover | src/main/java/de/mprengemann/intellij/plugin/androidicons/controllers/iconimporter/IconsImporterController.java:246-265 | every density of the loop has its entry among the results |
| IconsImporter.TaskOnePerDensity | src/main/java/de/mprengemann/intellij/plugin/androidicons/controllers/iconimporter/IconsImporterController.java:240-267 | the task names every marked density exactly once |
| IconsImporter.TaskEntryScalesByDensity | src/main/java/de/mprengemann/intellij/plugin/androidicons/controllers/iconimporter/IconsImporterController.java:253-258 | an entry scaled from a fallback density times that density's factor is the target's density, so it comes out at the target's size |
| IconsImporter.TaskFailures | src/main/java/de/mprengemann/intellij/plugin/androidicons/controllers/iconimporter/IconsImporterController.java:240-267 | a pack without controller fails as soon as there is a density to export; a served pack succeeds when the asset has every density, and for an unknown id only then |
| Icons.Display | src/main/java/de/mprengemann/intellij/plugin/androidicons/model/IconPack.java:48-50 | a pack prints as its name |
| Icons.SamePackIsEquivalence | src/main/java/de/mprengemann/intellij/plugin/androidicons/model/IconPack.java:53-65 | pack equality is reflexive, symmetric and transitive, looks only at the id, and agrees with the id's hash code |
| Icons.InCategory | src/main/java/de/mprengemann/intellij/plugin/androidicons/controllers/icons/materialicons/MaterialIconsController.java:35-37 | the assets of a category are exactly the pack's assets filed under it, in pack order |
| Icons.Distribute | src/main/java/de/mprengemann/intellij/plugin/androidicons/controllers/icons/materialicons/MaterialIconsController.java:35-37 | filing succeeds exactly when every asset's category is a key, fails with a null pointer otherwise, and keeps the set of keys |
| Icons.DistributeAt | src/main/java/de/mprengemann/intellij/plugin/androidicons/controllers/icons/materialicons/MaterialIconsController.java:35-37 | filing extends one category's list by exactly that category's assets, in pack order |
| Icons.DistributeSpec | src/main/java/de/mprengemann/intellij/plugin/androidicons/controllers/icons/materialicons/MaterialIconsController.java:35-37 | when filing succeeds every list is extended by its category's assets and no list is added |
| Icons.CategoryMap | src/main/java/de/mprengemann/intellij/plugin/androidicons/controllers/icons/materialicons/MaterialIconsController.java:27-39 | a null pack gives an empty index; otherwise the index fails with a null pointer exactly when an asset's category is not listed, and else maps each listed category to its assets in pack order |
| Icons.StubCategoryMap | src/main/java/de/mprengemann/intellij/plugin/androidicons/controllers/materialicons/MaterialIconsController.java:25-34 | the older controller builds the same index but throws a null pointer for a null pack |
| Icons.CategoryMapPartitions | src/main/java/de/mprengemann/intellij/plugin/androidicons/controllers/icons/materialicons/MaterialIconsController.java:27-39 | each asset is listed under its own category and nowhere else, and its category is a key |
| Icons.AssetsOf | src/main/java/de/mprengemann/intellij/plugin/androidicons/controllers/icons/materialicons/MaterialIconsController.java:62-64 | null for an unknown category, otherwise the category's list |
| Icons.NewMaterialIcons | src/main/java/de/mprengemann/intellij/plugin/androidicons/controllers/icons/materialicons/MaterialIconsController.java:22-25 | the controller keeps the pack and its index, and construction fails exactly when the index does |
| Icons.MaterialRasterPath | src/main/java/de/mprengemann/intellij/plugin/androidicons/controllers/icons/materialicons/MaterialIconsController.java:97-104 | a raster icon lives at "<category>/drawable-<density>/…_<colour>_<size>.png" |
| Icons.RasterPath | src/main/java/de/mprengemann/intellij/plugin/androidicons/controllers/icons/materialicons/MaterialIconsController.java:97-104 | the raster layout "<category>/drawable-<folder>/<name>_<colour>_<size>.png" |
| Icons.MaterialVectorPath | src/main/java/de/mprengemann/intellij/plugin/androidicons/controllers/icons/materialicons/MaterialIconsController.java:106-111 | a vector icon lives in "<category>/drawable-anydpi-v21/" and is the black 24dp XML file |
| Icons.MaterialImageFile | src/main/java/de/mprengemann/intellij/plugin/androidicons/controllers/icons/materialicons/MaterialIconsController.java:87-95 | under the pack's path: the vector XML file for ANYDPI and the raster PNG file for every other density |
| Icons.MaterialImageFileDefault | src/main/java/de/mprengemann/intellij/plugin/androidicons/controllers/icons/materialicons/MaterialIconsController.java:82-84 | without a size the 24dp file is meant |
| Icons.MaterialRasterInjective | src/main/java/de/mprengemann/intellij/plugin/androidicons/controllers/icons/materialicons/MaterialIconsController.java:97-104 | one asset in one colour and size has a different raster file per density |
| Icons.RasterPathLabelInjective | src/main/java/de/mprengemann/intellij/plugin/androidicons/controllers/icons/materialicons/MaterialIconsController.java:97-104 | raster paths that differ only in a '/'-free density label are different paths |
| Icons.MaterialVectorIgnoresColorAndSize | src/main/java/de/mprengemann/intellij/plugin/androidicons/controllers/icons/materialicons/MaterialIconsController.java:106-111 | the vector file depends on the asset alone, not on colour or size |
| Icons.StubImageFile | src/main/java/de/mprengemann/intellij/plugin/androidicons/controllers/materialicons/MaterialIconsController.java:92-99 | the older controller returns no file, whatever is asked |
| Icons.StubSupportsResolution | src/main/java/de/mprengemann/intellij/plugin/androidicons/controllers/materialicons/MaterialIconsController.java:102-104 | the older controller supports no density |
| Icons.AndroidAssets | src/main/java/de/mprengemann/intellij/plugin/androidicons/controllers/icons/androidicons/AndroidIconsController.java:61-63 | every category yields the whole pack's asset list |
| Icons.AndroidImageFile | src/main/java/de/mprengemann/intellij/plugin/androidicons/controllers/icons/androidicons/AndroidIconsController.java:91-97 | the file is "<pack path>/<colour>/<DENSITY>/<name>.png"; the size is ignored |
| Icons.FolderFile | src/main/java/de/mprengemann/intellij/plugin/androidicons/controllers/icons/androidicons/AndroidIconsController.java:92-96 | the file is the pack root joined with "outer/inner/file" |
| Icons.AndroidImageFileInjective | src/main/java/de/mprengemann/intellij/plugin/androidicons/controllers/icons/androidicons/AndroidIconsController.java:91-97 | within one pack an asset's files differ between '/'-free colours and between densities |
| Icons.FolderFileInjective | src/main/java/de/mprengemann/intellij/plugin/androidicons/controllers/icons/androidicons/AndroidIconsController.java:92-96 | files of one name under '/'-free folder pairs of one root are the same file only in the same folders |
| Icons.AndroidImageFileDefault | src/main/java/de/mprengemann/intellij/plugin/androidicons/controllers/icons/androidicons/AndroidIconsController.java:86-88 | without a size the file is the same as with a null size |
| LegacyMaterialIcons.FolderFilterSkips | src/de/mprengemann/intellij/plugin/androidicons/controllers/materialicons/MaterialIconsController.java:42-49 | hidden entries, plain files and the blacklisted "svg" and "2x_web" folders are not category or density folders |
| LegacyMaterialIcons.FolderFilterKeeps | src/de/mprengemann/intellij/plugin/androidicons/controllers/materialicons/MaterialIconsController.java:42-49 | a visible, non-blacklisted directory is one |
| LegacyMaterialIcons.IconFiles | src/de/mprengemann/intellij/plugin/androidicons/controllers/materialicons/MaterialIconsController.java:251-272 | a listed file is kept exactly when it is a PNG whose base name starts with "ic_" and ends with "_black_48dp", or, for a named icon, starts with "ic_<name>_" and, for a given size, ends with "_<size>" |
| LegacyMaterialIcons.AssetName | src/de/mprengemann/intellij/plugin/androidicons/controllers/materialicons/MaterialIconsController.java:146-151 | the name is never longer than the base name, and a base name holding neither "_black_48dp" nor "ic_" is the name itself |
| LegacyMaterialIcons.AssetNameOfBlackIcon | src/de/mprengemann/intellij/plugin/androidicons/controllers/materialicons/MaterialIconsController.java:146-151 | the file "ic_<n>_black_48dp.png" is named n, whenever n holds neither "ic_" nor "_black_48dp" |
| LegacyMaterialIcons.SizeOf | src/de/mprengemann/intellij/plugin/androidicons/controllers/materialicons/MaterialIconsController.java:228-232 | the size read off a file name always ends in "dp" and is otherwise made of digits, '-' and '?' |
| LegacyMaterialIcons.SizeOfMaterialName | src/de/mprengemann/intellij/plugin/androidicons/controllers/materialicons/MaterialIconsController.java:228-232 | for a Material file name ending "_<digits>dp" the size read off is exactly "<digits>dp" |
| LegacyMaterialIcons.ColorOf | src/de/mprengemann/intellij/plugin/androidicons/controllers/materialicons/MaterialIconsController.java:289-293 | the colour is the trimmed second-to-last '_'-separated field, and a name with fewer than two fields throws an index error |
| LegacyMaterialIcons.ColorOfMaterialName | src/de/mprengemann/intellij/plugin/androidicons/controllers/materialicons/MaterialIconsController.java:289-293 | for a file name "<...>_<colour>_<size>" the colour read off is that colour |
| LegacyMaterialIcons.FileSize | src/de/mprengemann/intellij/plugin/androidicons/controllers/materialicons/MaterialIconsController.java:229-231 | the size read from one icon file always ends in "dp" |
| LegacyMaterialIcons.FileSizeOfIconFile | src/de/mprengemann/intellij/plugin/androidicons/controllers/materialicons/MaterialIconsController.java:229-231 | the size of a file "<...>_<digits>dp.png" is "<digits>dp" |
| LegacyMaterialIcons.FileColor | src/de/mprengemann/intellij/plugin/androidicons/controllers/materialicons/MaterialIconsController.java:290-292 | reading a colour fails with an index-out-of-bounds error exactly when the base name has fewer than two '_' fields, trailing empty fields not counted |
| LegacyMaterialIcons.FileColorOfIconFile | src/de/mprengemann/intellij/plugin/androidicons/controllers/materialicons/MaterialIconsController.java:290-292 | the colour of a file "<...>_<colour>_<size>.png" is that colour |
| LegacyMaterialIcons.FirstDensity | src/de/mprengemann/intellij/plugin/androidicons/controllers/materialicons/MaterialIconsController.java:134-139 | the density folder scanned is an accepted folder entry of the category folder; a category folder yields none only when it is not a directory or holds no accepted entry |
| LegacyMaterialIcons.FirstDensityIsFirst | src/de/mprengemann/intellij/plugin/androidicons/controllers/materialicons/MaterialIconsController.java:134-139 | the density folder scanned is the first accepted entry of the category folder, in listing order |
| LegacyMaterialIcons.AssetsOfCategory | src/de/mprengemann/intellij/plugin/androidicons/controllers/materialicons/MaterialIconsController.java:133-142 | no density folder, no icons; otherwise one icon per accepted file of that folder, in listing order, named after the file, in the folder's category and XHDPI |
| LegacyMaterialIcons.AssetsOfCategoryFiled | src/de/mprengemann/intellij/plugin/androidicons/controllers/materialicons/MaterialIconsController.java:133-142 | every icon of a category folder is filed under that category in XHDPI and is named after an accepted icon file of the density folder scanned |
| LegacyMaterialIcons.AssetsOfAll | src/de/mprengemann/intellij/plugin/androidicons/controllers/materialicons/MaterialIconsController.java:133-143 | every icon loaded belongs to one of the category folders and is XHDPI, and every icon of every category folder is loaded |
| LegacyMaterialIcons.AssetsOfAllAppend | src/de/mprengemann/intellij/plugin/androidicons/controllers/materialicons/MaterialIconsController.java:133-143 | scanning two lists of category folders yields the icons of the first followed by those of the second |
| LegacyMaterialIcons.LoadCategories | src/de/mprengemann/intellij/plugin/androidicons/controllers/materialicons/MaterialIconsController.java:153-163 | without a root nothing changes; a root that is not a directory fails; otherwise its accepted sub-folders and their names are appended |
| LegacyMaterialIcons.LoadAssets | src/de/mprengemann/intellij/plugin/androidicons/controllers/materialicons/MaterialIconsController.java:129-144 | the icons of every category folder held so far are appended, not only those of the folders just loaded |
| LegacyMaterialIcons.Load | src/de/mprengemann/intellij/plugin/androidicons/controllers/materialicons/MaterialIconsController.java:117-121 | loading fails exactly when loading the categories does, and otherwise scans the icons of the result |
| LegacyMaterialIcons.SetPath | src/de/mprengemann/intellij/plugin/androidicons/controllers/materialicons/MaterialIconsController.java:111-115 | setting a root loads it on top of what is held |
| LegacyMaterialIcons.Reset | src/de/mprengemann/intellij/plugin/androidicons/controllers/materialicons/MaterialIconsController.java:100-109 | a reset forgets the root, the folders, the categories and the icons |
| LegacyMaterialIcons.New | src/de/mprengemann/intellij/plugin/androidicons/controllers/materialicons/MaterialIconsController.java:56-60 | a controller without a saved root starts empty; with one it loads it |
| LegacyMaterialIcons.SetPathAppends | src/de/mprengemann/intellij/plugin/androidicons/controllers/materialicons/MaterialIconsController.java:111-163 | setting a directory appends its accepted folders and their names, and the icons of all folders held afterwards |
| LegacyMaterialIcons.LoadTwiceRepeats | src/de/mprengemann/intellij/plugin/androidicons/controllers/materialicons/MaterialIconsController.java:129-163 | loading the same root twice without a reset lists every category twice and every icon three times |
| LegacyMaterialIcons.GetPath | src/de/mprengemann/intellij/plugin/androidicons/controllers/materialicons/MaterialIconsController.java:166-171 | the root's path, or the empty string without a root |
| LegacyMaterialIcons.ResetForgetsEverything | src/de/mprengemann/intellij/plugin/androidicons/controllers/materialicons/MaterialIconsController.java:331-333 | after a reset the path is empty and the controller is not initialised |
| LegacyMaterialIcons.CategoryFolder | src/de/mprengemann/intellij/plugin/androidicons/controllers/materialicons/MaterialIconsController.java:200-203 | the folder listed is a directory named "drawable-xhdpi" inside a child of the root named after the category; there is none when no child of the root has that name; and when the root's first entry with the category's name is a folder whose first "drawable-xhdpi" entry is a folder, that entry is exactly the one listed |
| LegacyMaterialIcons.CategoryFolderNotAFile | src/de/mprengemann/intellij/plugin/androidicons/controllers/materialicons/MaterialIconsController.java:200-203 | a regular file named "drawable-xhdpi" is not a folder to list |
| LegacyMaterialIcons.GetAssets | src/de/mprengemann/intellij/plugin/androidicons/controllers/materialicons/MaterialIconsController.java:194-212 | nothing without initialisation, a selected category or an XHDPI folder; otherwise one asset per accepted icon file of that folder in listing order, named after the file, all in the selected category and XHDPI |
| LegacyMaterialIcons.GetAssetsOffersBlackIcon | src/de/mprengemann/intellij/plugin/androidicons/controllers/materialicons/MaterialIconsController.java:194-212 | every "ic_<n>_black_48dp.png" in the selected category's XHDPI folder is offered as the icon n of that category |
| LegacyMaterialIcons.SizesIn | src/de/mprengemann/intellij/plugin/androidicons/controllers/materialicons/MaterialIconsController.java:227-237 | the sizes of the files, each once, in ascending order |
| LegacyMaterialIcons.GetSizes | src/de/mprengemann/intellij/plugin/androidicons/controllers/materialicons/MaterialIconsController.java:215-238 | nothing without initialisation, a category or an icon; a missing XHDPI folder, and only that, fails on its null listing; otherwise the distinct sizes of the icon's files, in ascending order |
| LegacyMaterialIcons.ColorsIn | src/de/mprengemann/intellij/plugin/androidicons/controllers/materialicons/MaterialIconsController.java:288-298 | fails with an index error exactly when some file name has no colour field; otherwise the colours of the files, each once, in ascending order |
| LegacyMaterialIcons.GetColors | src/de/mprengemann/intellij/plugin/androidicons/controllers/materialicons/MaterialIconsController.java:275-299 | nothing without initialisation, a category, an icon or a size; a missing XHDPI folder fails on its null listing; otherwise the distinct colours of the icon's files in that size, in ascending order |
| LegacyMaterialIcons.IsSupportedResolution | src/de/mprengemann/intellij/plugin/androidicons/controllers/materialicons/MaterialIconsController.java:302-304 | a density of the imported `model.Resolution` is supported exactly when it is in `SUPPORTED_RESOLUTIONS`, i.e. neither LDPI nor TVDPI |
| LegacyMaterialIcons.ImageFile | src/de/mprengemann/intellij/plugin/androidicons/controllers/materialicons/MaterialIconsController.java:307-315 | the file is "<root>/<category>/drawable-<density>/ic_<name>_<colour>_<size>.png" |
| LegacyMaterialIcons.ImageFileDefault | src/de/mprengemann/intellij/plugin/androidicons/controllers/materialicons/MaterialIconsController.java:318-320 | without a choice the black 24dp MDPI file is meant |
| LegacyMaterialIcons.ImageFileInjective | src/de/mprengemann/intellij/plugin/androidicons/controllers/materialicons/MaterialIconsController.java:307-315 | different densities of an icon never share a file |
| LegacyAndroidIcons.ByName | src/de/mprengemann/intellij/plugin/androidicons/controllers/androidicons/AndroidIconsController.java:30-38 | sorting orders files by name and keeps every file |
| LegacyAndroidIcons.ColorName | src/de/mprengemann/intellij/plugin/androidicons/controllers/androidicons/AndroidIconsController.java:183 | a colour's shown name has no '_' and as many characters as its folder's name |
| LegacyAndroidIcons.ColorDirs | src/de/mprengemann/intellij/plugin/androidicons/controllers/androidicons/AndroidIconsController.java:176-182 | the colour folders are exactly the visible directories of the root, in name order |
| LegacyAndroidIcons.FilterKeepsOrder | src/de/mprengemann/intellij/plugin/androidicons/controllers/androidicons/AndroidIconsController.java:177-182 | skipping entries keeps a list sorted by name |
| LegacyAndroidIcons.ColorNames | src/de/mprengemann/intellij/plugin/androidicons/controllers/androidicons/AndroidIconsController.java:182-183 | each colour folder gives the colour in the same position |
| LegacyAndroidIcons.LoadColorsAsWritten | src/de/mprengemann/intellij/plugin/androidicons/controllers/androidicons/AndroidIconsController.java:171-185 | without a root the controller throws a null pointer; with one it loads as intended |
| LegacyAndroidIcons.LoadColors | src/de/mprengemann/intellij/plugin/androidicons/controllers/androidicons/AndroidIconsController.java:171-185 | the corrected loader: without a root nothing changes; a root that is not a directory fails; otherwise the colour folders and their names are appended |
| LegacyAndroidIcons.ExtensionOf | src/de/mprengemann/intellij/plugin/androidicons/controllers/androidicons/AndroidIconsController.java:163 | the extension holds no '.' and ends the name; a name without '.' is its own extension, and otherwise the extension is what follows the last '.' |
| LegacyAndroidIcons.ExtensionOfAppended | src/de/mprengemann/intellij/plugin/androidicons/controllers/androidicons/AndroidIconsController.java:163 | the extension of "<stem>.<ext>" is ext, for every ext without a '.' |
| LegacyAndroidIcons.AssetName | src/de/mprengemann/intellij/plugin/androidicons/controllers/androidicons/AndroidIconsController.java:167 | the icon name is never longer than the base name, and a plain base name without "ic_action_" is the icon name itself |
| LegacyAndroidIcons.AssetNameOfActionIcon | src/de/mprengemann/intellij/plugin/androidicons/controllers/androidicons/AndroidIconsController.java:167 | the file "ic_action_<n>.png" is offered as the icon n, for every plain n without "ic_action_" |
| LegacyAndroidIcons.PngAssets | src/de/mprengemann/intellij/plugin/androidicons/controllers/androidicons/AndroidIconsController.java:158-168 | a name is listed exactly when some file that is a PNG (in any case) and not a directory gives it |
| LegacyAndroidIcons.FirstDensity | src/de/mprengemann/intellij/plugin/androidicons/controllers/androidicons/AndroidIconsController.java:141-152 | the density folder scanned is a visible entry of the first colour folder; a first colour folder that is a directory yields none only when it holds no visible entry, and there is none without colour folders |
| LegacyAndroidIcons.FirstDensityIsFirst | src/de/mprengemann/intellij/plugin/androidicons/controllers/androidicons/AndroidIconsController.java:141-152 | the density folder scanned is the first visible entry of the first colour folder, in listing order |
| LegacyAndroidIcons.AssetFiles | src/de/mprengemann/intellij/plugin/androidicons/controllers/androidicons/AndroidIconsController.java:148-158 | with no density folder, or one that is not a folder, nothing is scanned; otherwise the scan covers the density folder's visible entries, each as often as listed, sorted by name |
| LegacyAndroidIcons.LoadAssets | src/de/mprengemann/intellij/plugin/androidicons/controllers/androidicons/AndroidIconsController.java:137-169 | the icon names of the scanned files are appended, and nothing changes without colour folders |
| LegacyAndroidIcons.Load | src/de/mprengemann/intellij/plugin/androidicons/controllers/androidicons/AndroidIconsController.java:125-129 | without a root, loading throws a null pointer; with a root it fails exactly when the root is not a directory, and otherwise the colours are loaded and then the icons |
| LegacyAndroidIcons.LoadCorrected | src/de/mprengemann/intellij/plugin/androidicons/controllers/androidicons/AndroidIconsController.java:125-129 | with a root it is the written load; without one it re-scans only the icons of the colour folders already held |
| LegacyAndroidIcons.NewAsWritten | src/de/mprengemann/intellij/plugin/androidicons/controllers/androidicons/AndroidIconsController.java:43-47 | constructing without a saved root throws a null pointer; with one it succeeds exactly when the root is a directory, and it keeps that root |
| LegacyAndroidIcons.New | src/de/mprengemann/intellij/plugin/androidicons/controllers/androidicons/AndroidIconsController.java:43-47 | the corrected constructor is empty without a saved root; with one it is the constructor as written |
| LegacyAndroidIcons.NewWithoutRoot | src/de/mprengemann/intellij/plugin/androidicons/controllers/androidicons/AndroidIconsController.java:43-47 | the written constructor cannot be built without a saved root while the corrected one starts empty |
| LegacyAndroidIcons.SetPath | src/de/mprengemann/intellij/plugin/androidicons/controllers/androidicons/AndroidIconsController.java:92-95 | clearing the path throws a null pointer; a new root fails exactly when it is not a directory, and otherwise it is kept and the colours and icons under it are added to what is held |
| LegacyAndroidIcons.NoRootThrows | src/de/mprengemann/intellij/plugin/androidicons/controllers/androidicons/AndroidIconsController.java:92-129 | clearing the path, or loading after a reset, throws a null pointer |
| LegacyAndroidIcons.Reset | src/de/mprengemann/intellij/plugin/androidicons/controllers/androidicons/AndroidIconsController.java:69-78 | a reset forgets the root, the colour folders, the colours and the icons |
| LegacyAndroidIcons.GetPath | src/de/mprengemann/intellij/plugin/androidicons/controllers/androidicons/AndroidIconsController.java:97-103 | the root's path, or the empty string without a root |
| LegacyAndroidIcons.LoadFromEmpty | src/de/mprengemann/intellij/plugin/androidicons/controllers/androidicons/AndroidIconsController.java:125-185 | loading a root into an empty controller gives its visible sub-folders in name order as colours, with blanks for '_', and exactly the PNG icons of the scanned folder |
| LegacyAndroidIcons.LoadAppends | src/de/mprengemann/intellij/plugin/androidicons/controllers/androidicons/AndroidIconsController.java:125-185 | loading a second root without a reset keeps the first root's colours and icons in front |
| Store.ValuesRoundTrip | src/main/java/de/mprengemann/intellij/plugin/androidicons/controllers/settings/SettingsController.java:96-126 | a non-empty list of non-empty values without line breaks, stored as an array, reads back as the same list |
| Store.EmptyValuesReadBack | src/main/java/de/mprengemann/intellij/plugin/androidicons/controllers/settings/SettingsController.java:96-126 | an empty array is stored as "" and reads back as a single empty value |
| Store.GetValue | src/main/java/de/mprengemann/intellij/plugin/androidicons/controllers/settings/SettingsController.java:72-76 | a key reads back null exactly when it is not set, and otherwise the text stored under it |
| Store.SetValue | src/main/java/de/mprengemann/intellij/plugin/androidicons/controllers/settings/SettingsController.java:56-60 | after setting, the key reads back the value (null unsets it) and every other key is unchanged |
| Store.Unset | src/main/java/de/mprengemann/intellij/plugin/androidicons/controllers/settings/SettingsController.java:257-263 | after unsetting, the key is not set and every other key is unchanged |
| Store.SetValues | src/main/java/de/mprengemann/intellij/plugin/androidicons/controllers/settings/SettingsController.java:96-105 | after storing a list, the key reads back the values joined by line breaks, and every other key is unchanged |
| Store.GetValues | src/main/java/de/mprengemann/intellij/plugin/androidicons/controllers/settings/SettingsController.java:107-113 | a list reads back null exactly when the key is not set; no element holds a line break, and a text without a line break reads back as itself alone |
| Strings.Split | json_generator.py:94 | Python's `split`: at least one field, none holding the separator, and the fields joined by the separator give the text back |
| Strings.SplitOfJoin | json_generator.py:94-99 | splitting separator-free fields joined by the separator gives the fields back |
| Strings.JavaSplit | src/de/mprengemann/intellij/plugin/androidicons/controllers/materialicons/MaterialIconsController.java:291 | no part holds the separator; a text without the separator comes back whole, and otherwise the last part kept is not empty |
| Strings.JavaSplitKeepsLast | src/de/mprengemann/intellij/plugin/androidicons/controllers/materialicons/MaterialIconsController.java:291 | a text holding the separator and not ending in an empty field splits as Python's `split` does |
| Strings.RemoveAll | src/de/mprengemann/intellij/plugin/androidicons/controllers/materialicons/MaterialIconsController.java:148-149 | removing never lengthens the text, and an empty target changes nothing |
| Strings.RemoveAllAbsent | src/de/mprengemann/intellij/plugin/androidicons/controllers/materialicons/MaterialIconsController.java:148-149 | a text not holding the target is unchanged |
| Strings.RemoveAllAtEnd | src/de/mprengemann/intellij/plugin/androidicons/controllers/materialicons/MaterialIconsController.java:148 | a target that occurs only at the very end is removed and nothing else is |
| Strings.RemoveAllPrefix | src/de/mprengemann/intellij/plugin/androidicons/controllers/materialicons/MaterialIconsController.java:149 | a leading occurrence of the target is removed and the rest is treated alone |
| Listing.ListFiles | src/de/mprengemann/intellij/plugin/androidicons/controllers/androidicons/AndroidIconsController.java:148-153 | a listing exists exactly for a directory and is then its entries, in order; anything else lists as null |
| Settings.KeysDistinct | src/main/java/de/mprengemann/intellij/plugin/androidicons/controllers/settings/SettingsController.java:27-37 | the eleven keys are pairwise different, so each setting has its own entry |
| Settings.GetOrDefault | src/main/java/de/mprengemann/intellij/plugin/androidicons/controllers/settings/SettingsController.java:249-255 | an unset key gives the default; a set key gives its stored text |
| Settings.UpdateOrDelete | src/main/java/de/mprengemann/intellij/plugin/androidicons/controllers/settings/SettingsController.java:257-264 | a value is stored as its text and null removes the entry; no other key changes |
| Settings.SaveResolutions | src/main/java/de/mprengemann/intellij/plugin/androidicons/controllers/settings/SettingsController.java:96-105 | the set's names, in iteration order, are stored under the resolutions key and nothing else changes |
| Settings.UsableParses | src/main/java/de/mprengemann/intellij/plugin/androidicons/controllers/settings/SettingsController.java:115-122 | an entry is accepted exactly when it names a density |
| Settings.ParseAll | src/main/java/de/mprengemann/intellij/plugin/androidicons/controllers/settings/SettingsController.java:114-125 | the loop succeeds iff every entry is non-empty and names a density, and then yields exactly the densities named |
| Settings.GetResolutions | src/main/java/de/mprengemann/intellij/plugin/androidicons/controllers/settings/SettingsController.java:108-126 | nothing stored, or any unusable entry, gives the default; otherwise the set of densities named |
| Settings.NamesParse | src/main/java/de/mprengemann/intellij/plugin/androidicons/controllers/settings/SettingsController.java:96-126 | the names of densities parse back to exactly those densities |
| Settings.SavedNamesReadBack | src/main/java/de/mprengemann/intellij/plugin/androidicons/controllers/settings/SettingsController.java:96-110 | a non-empty set is stored so that its names read back unchanged |
| Settings.ResolutionsRoundTrip | src/main/java/de/mprengemann/intellij/plugin/androidicons/controllers/settings/SettingsController.java:96-126 | saving a non-empty set and reading it back gives the same set, whatever the default |
| Settings.EmptyResolutionsGiveDefault | src/main/java/de/mprengemann/intellij/plugin/androidicons/controllers/settings/SettingsController.java:96-126 | saving the empty set stores one empty entry, so the default is read back |
| Settings.SaveSourceResolution | src/main/java/de/mprengemann/intellij/plugin/androidicons/controllers/settings/SettingsController.java:129-131 | only the source-density entry changes, and it is removed exactly when the value is null |
| Settings.GetSourceResolution | src/main/java/de/mprengemann/intellij/plugin/androidicons/controllers/settings/SettingsController.java:134-136 | nothing stored gives the default density; a stored text is parsed by `Resolution.from`: an empty one throws an illegal-argument error, and only that; any other gives the density whose label is its lower-case form, or null when there is none |
| Settings.SourceResolutionRoundTrip | src/main/java/de/mprengemann/intellij/plugin/androidicons/controllers/settings/SettingsController.java:129-136 | a saved density reads back as itself, and a saved null reads back as the default |
| Settings.SaveAlgorithm | src/main/java/de/mprengemann/intellij/plugin/androidicons/controllers/settings/SettingsController.java:139-141 | only the algorithm entry changes, and it is removed exactly when the value is null |
| Settings.GetAlgorithm | src/main/java/de/mprengemann/intellij/plugin/androidicons/controllers/settings/SettingsController.java:144-146 | nothing stored gives the default; a stored text is parsed by `ResizeAlgorithm.from`, so an unknown stored name throws an illegal-argument error |
| Settings.AlgorithmRoundTrip | src/main/java/de/mprengemann/intellij/plugin/androidicons/controllers/settings/SettingsController.java:139-146 | a saved algorithm reads back as itself, and a saved null reads back as the default |
| Settings.SaveMethod | src/main/java/de/mprengemann/intellij/plugin/androidicons/controllers/settings/SettingsController.java:149-151 | only the method entry changes and reads back as the value saved |
| Settings.GetMethod | src/main/java/de/mprengemann/intellij/plugin/androidicons/controllers/settings/SettingsController.java:154-156 | nothing stored gives the default, otherwise the stored text |
| Settings.SaveColor | src/main/java/de/mprengemann/intellij/plugin/androidicons/controllers/settings/SettingsController.java:159-161 | only the colour entry changes and reads back as the value saved |
| Settings.GetColor | src/main/java/de/mprengemann/intellij/plugin/androidicons/controllers/settings/SettingsController.java:164-166 | a colour is read exactly when one is stored, and it is the stored text itself |
| Settings.SaveSize | src/main/java/de/mprengemann/intellij/plugin/androidicons/controllers/settings/SettingsController.java:169-171 | only the size entry changes and reads back as the value saved |
| Settings.GetSize | src/main/java/de/mprengemann/intellij/plugin/androidicons/controllers/settings/SettingsController.java:174-176 | a size is read exactly when one is stored, and it is the stored text itself |
| Settings.TextSettingsRoundTrip | src/main/java/de/mprengemann/intellij/plugin/androidicons/controllers/settings/SettingsController.java:149-176 | method, colour and size read back as saved; a saved null gives the default (null for colour and size) |
| Settings.SaveImageAsset | src/main/java/de/mprengemann/intellij/plugin/androidicons/controllers/settings/SettingsController.java:179-205 | only the asset entry changes, and it is set exactly when the asset is non-null and the encoder writes it |
| Settings.GetImageAsset | src/main/java/de/mprengemann/intellij/plugin/androidicons/controllers/settings/SettingsController.java:208-227 | nothing stored gives null; otherwise whatever the decoder makes of the stored text |
| Settings.ImageAssetRoundTrip | src/main/java/de/mprengemann/intellij/plugin/androidicons/controllers/settings/SettingsController.java:179-227 | with a decoder that inverts the encoder, a saved asset reads back as itself |
| Settings.SaveFormat | src/main/java/de/mprengemann/intellij/plugin/androidicons/controllers/settings/SettingsController.java:230-232 | only the format entry changes, and it is removed exactly when the value is null |
| Settings.GetFormat | src/main/java/de/mprengemann/intellij/plugin/androidicons/controllers/settings/SettingsController.java:235-237 | nothing stored gives the default; a stored text is parsed by `Format.valueOf`, so an unknown stored name throws an illegal-argument error |
| Settings.SaveDestination | src/main/java/de/mprengemann/intellij/plugin/androidicons/controllers/settings/SettingsController.java:240-242 | only the destination entry changes, and it is removed exactly when the value is null |
| Settings.GetDestination | src/main/java/de/mprengemann/intellij/plugin/androidicons/controllers/settings/SettingsController.java:245-247 | nothing stored gives the default; a stored text is parsed by `Destination.valueOf`, so an unknown stored name throws an illegal-argument error |
| Settings.FormatDestinationRoundTrip | src/main/java/de/mprengemann/intellij/plugin/androidicons/controllers/settings/SettingsController.java:230-247 | a saved format or destination reads back as itself, and a saved null reads back as the default |
| Settings.SaveLeavesOthers | src/main/java/de/mprengemann/intellij/plugin/androidicons/controllers/settings/SettingsController.java:257-264 | saving one setting does not change what another one reads |
| Settings.SaveResRoot | src/main/java/de/mprengemann/intellij/plugin/androidicons/controllers/settings/SettingsController.java:57-76 | the resource root is stored under its key, reads back as saved, and nothing else changes |
| Settings.SaveLastImageFolder | src/main/java/de/mprengemann/intellij/plugin/androidicons/controllers/settings/SettingsController.java:79-88 | the last image folder is stored under its key, reads back as saved, and nothing else changes |
| Defaults.DefaultConstants | src/main/java/de/mprengemann/intellij/plugin/androidicons/controllers/defaults/DefaultsController.java:16-25 | the default densities are every density but LDPI and TVDPI, and the default method is Scalr's "Automatic", which Scalr accepts |
| Defaults.SetResolutions | src/main/java/de/mprengemann/intellij/plugin/androidicons/controllers/defaults/DefaultsController.java:51-54 | after a tear-down the save throws a null-pointer error, and only then; otherwise the field takes the value, the settings save it, and every other field is left as it was |
| Defaults.SetSourceResolution | src/main/java/de/mprengemann/intellij/plugin/androidicons/controllers/defaults/DefaultsController.java:73-76 | after a tear-down the save throws a null-pointer error, and only then; otherwise the field takes the value, the settings save it, and every other field is left as it was |
| Defaults.SetImageAsset | src/main/java/de/mprengemann/intellij/plugin/androidicons/controllers/defaults/DefaultsController.java:62-65 | after a tear-down the save throws a null-pointer error, and only then; otherwise the field takes the value, the settings save it, and every other field is left as it was |
| Defaults.SetAlgorithm | src/main/java/de/mprengemann/intellij/plugin/androidicons/controllers/defaults/DefaultsController.java:106-109 | after a tear-down the save throws a null-pointer error, and only then; otherwise the field takes the value, the settings save it, and every other field is left as it was |
| Defaults.SetMethod | src/main/java/de/mprengemann/intellij/plugin/androidicons/controllers/defaults/DefaultsController.java:117-120 | after a tear-down the save throws a null-pointer error, and only then; otherwise the field takes the value, the settings save it, and every other field is left as it was |
| Defaults.SetFormat | src/main/java/de/mprengemann/intellij/plugin/androidicons/controllers/defaults/DefaultsController.java:128-131 | after a tear-down the save throws a null-pointer error, and only then; otherwise the field takes the value, the settings save it, and every other field is left as it was |
| Defaults.SetDestination | src/main/java/de/mprengemann/intellij/plugin/androidicons/controllers/defaults/DefaultsController.java:139-142 | after a tear-down the save throws a null-pointer error, and only then; otherwise the field takes the value, the settings save it, and every other field is left as it was |
| Defaults.SetSize | src/main/java/de/mprengemann/intellij/plugin/androidicons/controllers/defaults/DefaultsController.java:84-87 | after a tear-down the save throws a null-pointer error, and only then; otherwise the field takes the value, the settings save it, and every other field is left as it was |
| Defaults.SetColor | src/main/java/de/mprengemann/intellij/plugin/androidicons/controllers/defaults/DefaultsController.java:95-98 | after a tear-down the save throws a null-pointer error, and only then; otherwise the field takes the value, the settings save it, and every other field is left as it was |
| Defaults.Restore | src/main/java/de/mprengemann/intellij/plugin/androidicons/controllers/defaults/DefaultsController.java:145-155 | after a tear-down it throws a null-pointer error; otherwise the store is untouched; each field is what the settings read, with the constant as default; restoring fails exactly when the stored source density, algorithm, format or destination cannot be read, with the error of the first of these that fails |
| Defaults.RestoreEmpty | src/main/java/de/mprengemann/intellij/plugin/androidicons/controllers/defaults/DefaultsController.java:145-155 | restoring from an empty store yields the constants, with no asset, colour or size |
| Defaults.SetThenRestore | src/main/java/de/mprengemann/intellij/plugin/androidicons/controllers/defaults/DefaultsController.java:51-155 | a density set, source density or method set through a setter is what the next restore reads |
| Defaults.ResolutionsThenRestore | src/main/java/de/mprengemann/intellij/plugin/androidicons/controllers/defaults/DefaultsController.java:51-155 | a non-empty density set saved through `setResolutions` is what the next restore reads, and the restore still succeeds |
| Defaults.SourceThenRestore | src/main/java/de/mprengemann/intellij/plugin/androidicons/controllers/defaults/DefaultsController.java:51-155 | a source density saved through `setSourceResolution` is what the next restore reads, and the restore still succeeds |
| Defaults.MethodThenRestore | src/main/java/de/mprengemann/intellij/plugin/androidicons/controllers/defaults/DefaultsController.java:51-155 | a method saved through `setMethod` is what the next restore reads, and the restore still succeeds |
| Defaults.TearDown | src/main/java/de/mprengemann/intellij/plugin/androidicons/controllers/defaults/DefaultsController.java:158-169 | every field becomes null and the settings controller is dropped; the IDE's store keeps its values |
| Defaults.TornDownThrows | src/main/java/de/mprengemann/intellij/plugin/androidicons/controllers/defaults/DefaultsController.java:51-169 | after a tear-down every setter and `restore` throws a null-pointer error, since each calls the nulled settings controller |
| LegacySettings.AssetPathKey | src/de/mprengemann/intellij/plugin/androidicons/settings/SettingsHelper.java:23-60 | the key is "assetPath_" followed by the pack's text, and differs from the legacy, resource-root and folder keys |
| LegacySettings.AssetPathKeyInjective | src/de/mprengemann/intellij/plugin/androidicons/settings/SettingsHelper.java:58-60 | packs with different texts use different keys |
| LegacySettings.SaveAssetPath | src/de/mprengemann/intellij/plugin/androidicons/settings/SettingsHelper.java:37-40 | the pack's path is stored under its key and nothing else changes |
| LegacySettings.GetAssetPathString | src/de/mprengemann/intellij/plugin/androidicons/settings/SettingsHelper.java:46-56 | for the Android icons pack a legacy value wins and is copied under the pack's key; otherwise the pack's stored path |
| LegacySettings.SaveThenGet | src/de/mprengemann/intellij/plugin/androidicons/settings/SettingsHelper.java:37-56 | without a legacy value that applies, a saved path reads back |
| LegacySettings.LegacyOverrides | src/de/mprengemann/intellij/plugin/androidicons/settings/SettingsHelper.java:46-54 | a legacy value keeps overriding whatever is later saved for the Android icons pack, since it is never removed |
| LegacySettings.ClearAssetPath | src/de/mprengemann/intellij/plugin/androidicons/settings/SettingsHelper.java:62-65 | the pack's key is removed and nothing else changes |
| LegacySettings.ClearThenGet | src/de/mprengemann/intellij/plugin/androidicons/settings/SettingsHelper.java:46-65 | after clearing, the path reads as null unless a legacy value applies |
| LegacySettings.SaveResRootForProject | src/de/mprengemann/intellij/plugin/androidicons/settings/SettingsHelper.java:67-84 | the project's resource root is stored under its key and nothing else changes |
| LegacySettings.SaveLastImageFolder | src/de/mprengemann/intellij/plugin/androidicons/settings/SettingsHelper.java:86-94 | the project's last image folder is stored under its key and nothing else changes |
| LegacySettings.ProjectValuesIndependent | src/de/mprengemann/intellij/plugin/androidicons/settings/SettingsHelper.java:67-94 | the two project values do not disturb each other |

## Left out

- Image resampling and all floating-point maths:
  - Scalr/Thumbnailator resizing, `resizeBorder`'s nearest-neighbour mapping and `rescaleBorder`'s spline interpolation;
  - `getScaleFactorToFit`/`updateImage`;
  - `setTargetWidth`/`setTargetHeight`, `getScaledSize` and `getOriginalTargetSize` in the add-item controller. `getRealScaleFactor` is modelled by `AddItem.RealScaleFactor`, with its `double` arithmetic replaced by the exact `sizeRatio`.

  The add-item controller's size ratio stands in for the pixel sizes, and scale factors are exact rationals without float rounding.
- Reading, writing and decoding images: the PIL codec in the generator, `ImageIO`, and the `ResourceLoader` lookups. Images are lists of ARGB integers or of pixels.
- The file system, PSI and IDE plumbing:
  - copying and deleting files, write commands, `FileUtils.forceMkdir`;
  - `getAbsolutePath()` and `getCanonicalPath()`: a path is taken to be its own absolute and canonical form;
  - `PropertiesComponent` and `VirtualFileManager`, which are an abstract key-value store;
  - `restorePath`/`savePath` of the icon controllers: the restored root is a parameter of their constructors.
- The manifest's JSON dump and file write, and the directory walk's I/O. Listings are inputs, in `os.listdir` order.
- Swing and IDE UI: dialogs, forms, `editImages` in the batch controller, `openHelp` and `openBrowser`.
- Observers: only whether a setter notifies is modelled, not who is notified or in which order.
- Iteration order of `HashSet` and `HashMap`: over enum constants it is modelled as the declaration order, and over strings as ascending order. Tasks built from such sets are therefore stated up to order where the source leaves order open.
- Case mapping: `toLowerCase`, `toUpperCase` and `equalsIgnoreCase` map ASCII letters only.
- Java serialisation of `ImageAsset` in the settings controller. The stored asset is modelled by its identity.
- `Resolution.ANYDPI` and `ImageAsset.getIconPack()` are used by some files but declared by none of the modelled ones. The asset's pack is an input, and ANYDPI is not a density of the model.
- `ImageInformation.Builder.setResolution`, called by the multi importer, is not declared by the builder shown. It is read as `setTargetResolution`.
- `getPrettyMethod` of the resize algorithms is a parameter, because its declaration is not part of this model.
- `ExportNameUtils` of the current tree is not part of this model. Both trees' export names use the earlier tree's sanitiser.
- Null string arguments are modelled only where the source checks for them. Elsewhere strings are never null.
- The old `controllers/iconimporter/IconsImporterController.java` calls collaborator methods its interfaces do not declare, so it is not modelled. The old settings controller is a bare get/set wrapper and is not modelled either.
- Whether the files a controller names exist on disk. For example, the earlier Material controller's `getImageFile` names the density folder with `resolution.getName()`, which the imported `model.Resolution` does not declare. The model reads it as the upper-case constant name and does not check that against any folder.
- RefactorHelper.TempImageFileInjective: paths are compared as strings. The Java builds `java.io.File` objects, which drop repeated and trailing '/' characters, so export names such as "a" and "/a" (or "a/") name the same file although their strings differ. The lemma promises distinct strings only, not distinct files; export names with a '/' are not excluded.
- LegacyImageInfo.TargetFileInjective: distinct path strings only, not distinct `java.io.File` objects, as for `RefactorHelper.TempImageFileInjective`.
- LegacyImageInfo.TempImageInjective: distinct path strings only, not distinct `java.io.File` objects, as for `RefactorHelper.TempImageFileInjective`.
- ImageInfo.TargetFileInjective: distinct path strings only, not distinct `java.io.File` objects, as for `RefactorHelper.TempImageFileInjective`.
- ImageInfo.TempImageInjective: distinct path strings only, not distinct `java.io.File` objects, as for `RefactorHelper.TempImageFileInjective`.
- ImageUtils.TargetFileInjective: distinct path strings only, not distinct `java.io.File` objects, as for `RefactorHelper.TempImageFileInjective`.
- RefactoringTask.RunTempFilesDistinct: distinct path strings only, not distinct `java.io.File` objects, as for `RefactorHelper.TempImageFileInjective`.
- RefactoringTask.RunTargetsDistinct: distinct path strings only, not distinct `java.io.File` objects, as for `RefactorHelper.TempImageFileInjective`.
- ExportNames.Description: with several files the Java lists the distinct names in the iteration order of a `HashSet<String>`, which follows the strings' hash codes. The model lists them in ascending order instead, so the exact text of a several-files description is not the program's; its prefix, its suffix and the set of names listed are.
- ExportNames.SeveralFilesChosen: the names are passed on in ascending order, as for `ExportNames.Description`; the Java's hash-set order is not modelled.
- ExportNames.DescriptionOfSeveralFiles: the ascending order it states is the model's choice, as for `ExportNames.Description`; only that each distinct name is listed once holds for the program.
- ImageUtils.NewSize: the product is exact. The Java multiplies in `double` and its `(int)` cast saturates at 2^31 - 1; neither rounding nor saturation is modelled.
- ResizeAlgorithms.GetMethods: the contract states that every list is non-empty and free of repeats, not the literal names. `GetMethod` pins the names down: it succeeds exactly on the listed ones.
- UtilResizeAlgorithms.UtilMethods: the same as `ResizeAlgorithms.GetMethods`, for the four-algorithm enum.
- AddItem.FromFile: the controller's target set is a copy of the defaults' set. In Java it is the same `Set` object: the one `DefaultsController.getResolutions()` returns, and right after a restore from an empty store that is the static `DEFAULT_RESOLUTIONS` itself. The model does not track object identity, so it does not promise anything about that sharing.
- AddItem.AddTargetResolution: only the controller's own targets gain the density. Through the shared `Set` the Java also changes the defaults controller's resolutions, and possibly `DEFAULT_RESOLUTIONS`, for later dialogs; that effect is not modelled.
- AddItem.RemoveTargetResolution: the same as `AddItem.AddTargetResolution`, for removal.
- LegacyAndroidIcons.SetPath: a failing call returns only the error. The Java has already stored the new root when `loadColors` throws, and the model does not carry that half-updated state.
- LegacyMaterialIcons.SetPath: a failing call returns only the error. The Java has already stored the new `assetRoot` when `loadCategories` throws on a folder whose listing is null, and the model does not carry that half-updated state.
- IconsImporter.UpdateColorAndSize: a failing call returns only the index error. When the asset offers colours but no sizes, the Java has already replaced `selectedColor` before `getSizes().get(0)` throws; the model does not carry that replacement.
- IconsImporter.SetSelectedIconPack: a failing call returns only the error. The Java has already assigned `selectedAsset` when `updateColorAndSize` throws, and the model does not carry that assignment.
- IconsImporter.SetSelectedCategory: a failing call returns only the error. The Java has already assigned `selectedAsset` when `updateColorAndSize` throws, and the model does not carry that assignment.
- IconsImporter.SetSelectedAsset: a failing call returns only the error. The Java has already assigned `selectedAsset` when `updateColorAndSize` throws, and the model does not carry that assignment.
- IconsImporter.SetSelectedSize: a failing call returns only the index error. The Java has already stored the size the asset does not offer before `getSizes().get(0)` throws; the model does not carry it.
- IconsImporter.SetSelectedColorAsWritten: a failing call returns only the index error. The Java has already stored the colour before `getColors().get(0)` throws; the model does not carry it.
- IconsImporter.SetSelectedColor: the same as `IconsImporter.SetSelectedColorAsWritten`; the colour stored before the throwing `get(0)` is dropped.
- Defaults.SetResolutions: after a tear-down a setter returns only the null-pointer error. The Java has assigned the field before the save throws; the model does not carry that assignment.
- Defaults.SetSourceResolution: the field assigned before the throwing save after a tear-down is dropped, as for `Defaults.SetResolutions`.
- Defaults.SetImageAsset: the field assigned before the throwing save after a tear-down is dropped, as for `Defaults.SetResolutions`.
- Defaults.SetAlgorithm: the field assigned before the throwing save after a tear-down is dropped, as for `Defaults.SetResolutions`.
- Defaults.SetMethod: the field assigned before the throwing save after a tear-down is dropped, as for `Defaults.SetResolutions`.
- Defaults.SetFormat: the field assigned before the throwing save after a tear-down is dropped, as for `Defaults.SetResolutions`.
- Defaults.SetDestination: the field assigned before the throwing save after a tear-down is dropped, as for `Defaults.SetResolutions`.
- Defaults.SetSize: the field assigned before the throwing save after a tear-down is dropped, as for `Defaults.SetResolutions`.
- Defaults.SetColor: the field assigned before the throwing save after a tear-down is dropped, as for `Defaults.SetResolutions`.
- Defaults.Restore: a failing restore returns only the error. The Java has already assigned the asset, the densities and every field read before the getter that throws, and the model does not carry those assignments.

## Findings

| source | as written | input that shows it | evidently intended | confidence | as-written member | corrected member |
|---|---|---|---|---|---|---|
| src/main/java/de/mprengemann/intellij/plugin/androidicons/controllers/iconimporter/IconsImporterController.java:138-148 | when the chosen colour is not offered, the fallback colour `getColors().get(0)` is written into `selectedSize`, and the unoffered colour stays selected | an asset offered in black and white at 24dp, with "red" chosen: the selection becomes colour "red", size "black" | the fallback colour is written into `selectedColor`, as `setSelectedSize` does for sizes | medium, not executed | IconsImporter.SetSelectedColorAsWritten, IconsImporter.AsWrittenColorBreaksSelection | IconsImporter.SetSelectedColor, IconsImporter.ChoicesKeepSelection |
| src/de/mprengemann/intellij/plugin/androidicons/controllers/androidicons/AndroidIconsController.java:171-185 | `loadColors` dereferences `assetRoot` without a null check, and the constructor calls it when no root was ever saved | a first start, with no saved asset path: the constructor throws NullPointerException | without a root nothing is loaded, as the Material controller's `loadCategories` does | medium, not executed | LegacyAndroidIcons.LoadColorsAsWritten, LegacyAndroidIcons.Load, LegacyAndroidIcons.NewAsWritten, LegacyAndroidIcons.NewWithoutRoot, LegacyAndroidIcons.NoRootThrows | LegacyAndroidIcons.LoadColors, LegacyAndroidIcons.LoadCorrected, LegacyAndroidIcons.New |
| json_generator.py:128-141 | the loop over adjacent pairs emits an asset only when a pair's names differ, so the last run of each category folder is never emitted | a category holding `ic_add_black_24dp.png` and `ic_alarm_black_24dp.png`: only `ic_add` reaches the manifest | every icon of the folder is emitted, the last one included: the pending run is emitted once the loop ends | medium, not executed | JsonGenerator.MaterialCategory, JsonGenerator.GroupAssets, JsonGenerator.LastIconDropped, JsonGenerator.GroupAssetsCount | JsonGenerator.MaterialCategoryCorrected, JsonGenerator.GroupAllAssets, JsonGenerator.AllRunAssets, JsonGenerator.CorrectedAddsLastRun |
