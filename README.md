# Wallpaper changer: a Dafny model

Two near-identical scripts make up the wallpaper changer.
- `govnowalKDE.py` targets KDE Plasma.
- `main.py` targets Windows.

Each runs `main_loop`, which repeats the same steps on every pass:
1. It asks a web service for an image URL.
2. It names the download after the last segment of the URL.
3. It deletes every other regular file from its wallpapers directory, but only once a wallpaper has been set, and keeping that wallpaper's file.
4. It downloads the image.
5. It letterboxes the image onto a black canvas of exactly the screen size. The result is saved next to the download with the suffix `.jpg` (KDE) or `.bmp` (Windows).
6. It installs the new file as the wallpaper.

Any exception is caught and printed, and the loop waits and tries again.

The model covers the logic inside that plumbing:

- `pystr.dfy` (module `PyStr`) holds the Python string built-ins the scripts rely on:
  - `str.split()`, with Python's whitespace set;
  - `list.index`;
  - `str.replace(',', '')`;
  - `int()` on a token;
  - `str.split('/')`.
- `resolution.dfy` (module `Resolution`) is the screen-size query of the KDE `resize_image`. It takes the first line of the `xrandr` output that contains `*` and reads the tokens one and three places after the first `current`. It falls back to 1920x1080 when anything goes wrong.
- `letterbox.dfy` (module `Letterbox`) holds the scaling and centring arithmetic shared by `resize_image` and `convert_to_bmp_with_padding`. It uses exact rationals compared by cross-multiplication, and it truncates to whole pixels as Python's `int()` does.
- `naming.dfy` (module `Naming`) has two parts:
  - the download's name, `url.split("/")[-1]`;
  - `pathlib`'s `suffix` and `with_suffix`.
- `wallpaper_dir.dfy` (module `WallpaperDir`) is the wallpapers directory, modelled as a map from entry names to regular file or subdirectory. It has two methods:
  - `Directory.Write`: writing a file.
  - `Directory.Cleanup`: `cleanup_old_wallpapers`, one loop over the entries, where an unlink that raises is reported and skipped.
- `kde.dfy` (module `Kde`) and `windows.dfy` (module `Windows`) each model one pass of a variant's `main_loop`:
  - as a function `Iteration` on the loop's state, which is the current wallpaper plus the directory;
  - as a class `WallpaperLoop`, whose method `Step` updates its `current` field and its `Directory` in place and is proved to agree with `Iteration`.

  Whatever the outside world does during the pass is an `Outcome` argument:
  - whether the URL request, the download and the image encoding succeed;
  - the size PIL decodes;
  - the `xrandr` output or the screen size;
  - the exit status of the setting commands;
  - which unlinks fail.

The two variants differ in how they end a pass:
- In the KDE variant, a failed setting command raises, so the current wallpaper changes only when every step succeeds. The exit status of the preliminary clearing command is ignored.
- In the Windows variant, `set_wallpaper` only prints when `SystemParametersInfoW` fails. So the BMP becomes current whether or not Windows accepted it.

Some consequences of the code's order of steps:
- The cleanup keeps the current wallpaper's file. So after an update, the previous fitted file, the new download and the new fitted file all exist. After two updates whose fitted files have different names, both fitted files are in the directory (`Kde.TwoUpdatesKeepTwoWallpapers`).
- The cleanup runs before the download, not after it.
- The screen size is read from the tokens one and three places after `current`, not from the two integers that follow it.
- The Windows setter never raises; a failed call is only printed.

## Model

| member | source | states |
|---|---|---|
| PyStr.Split | govnowalKDE.py:30 | `line.split()`: every token is non-empty and free of Python whitespace |
| PyStr.SplitSpaced | govnowalKDE.py:30 | splitting words laid out with any whitespace runs between them (at least one character each) and any whitespace before and after gives back exactly those words, in order |
| PyStr.SplitAvoids | govnowalKDE.py:30 | a character absent from the line is absent from every token |
| PyStr.IndexOf | govnowalKDE.py:31 | `parts.index('current')`: None exactly when the token is absent (Python raises); otherwise the first position holding it |
| PyStr.Without | govnowalKDE.py:32 | `replace(',', '')`: no comma is left, every other character is kept with its multiplicity, and text without commas is unchanged |
| PyStr.WithoutConcat | govnowalKDE.py:32 | removing the character from a concatenation removes it from each part, so the characters kept stay in their order |
| PyStr.WithoutTrailing | govnowalKDE.py:32 | a token such as `1080,` loses exactly its trailing comma |
| PyStr.ParseInt | govnowalKDE.py:31-32 | `int(token)`: succeeds only on an optional sign followed by at least one ASCII digit (a lone `+` or `-` fails) and always on plain digits; the sign decides the sign of the value |
| PyStr.ParseSigned | govnowalKDE.py:31-32 | an optional sign followed by digits reads as the digits' decimal value, negated after `-` |
| PyStr.LeadingZeros | govnowalKDE.py:31-32 | leading zeros do not change the value of a digit string |
| PyStr.ParsePadded | govnowalKDE.py:31-32 | a sign, any run of zeros and the decimal digits of `n` read as `n` or `-n`, so `+7` and `007` read as 7 |
| PyStr.ParseShow | govnowalKDE.py:31-32 | reading the decimal text of any integer gives that integer back |
| PyStr.SplitOn | main.py:81 | `url.split("/")`: at least one part, no part contains the separator, and joining the parts with it restores the URL |
| Resolution.FirstStarred | govnowalKDE.py:28-29 | None exactly when no line contains `*`; otherwise the first line that does |
| Resolution.ParseModeLine | govnowalKDE.py:30-33 | the starred line can be read only if it has a `current` token |
| Resolution.ParseResolution | govnowalKDE.py:26-39 | a missing or failing `xrandr`, or output without a starred line, gives exactly 1920x1080 |
| Resolution.OnlyFirstStarredLineCounts | govnowalKDE.py:28-35 | the result depends only on the first starred line; later lines are ignored and a line that does not parse gives 1920x1080 |
| Resolution.ReadsTokensAfterCurrent | govnowalKDE.py:30-32 | width is the token right after the first `current`, height the token three after it with its commas removed |
| Resolution.CommaInWidthFails | govnowalKDE.py:31 | a comma in the width token, which is not stripped, makes the line unreadable |
| Resolution.TooFewTokensFails | govnowalKDE.py:31-32 | fewer than three tokens after `current` make the line unreadable |
| Resolution.NoCurrentWithoutU | govnowalKDE.py:30-32 | a line without the letter `u` cannot hold a `current` token |
| Resolution.StarredModeLineFallsBack | govnowalKDE.py:26-37 | when the first starred line is a mode line (no `u`), as in real `xrandr` output, the result is 1920x1080 |
| Letterbox.TruncDiv | govnowalKDE.py:48-49 | `int()` of a quotient truncates toward zero: bounds on either side of the exact value |
| Letterbox.Fit | govnowalKDE.py:44-56 | canvas of exactly the screen size; on a positive screen the scaled image lies inside it and the bars are centred (left/top equal to right/bottom or one pixel less) |
| Letterbox.FitFillsOneSide | main.py:33-39 | the side with the smaller ratio fills the screen exactly; on a tie both do |
| Letterbox.FitKeepsAspect | main.py:36-39 | the side with the smaller screen-to-image ratio is the screen's and the other is its exact scaled length truncated down to whole pixels, so the source's aspect ratio is kept |
| Letterbox.FitIsLargest | govnowalKDE.py:46-49 | no larger image of the same aspect ratio fits the screen |
| Letterbox.FitEnlargesSmallImages | main.py:36 | the scale is not capped at 1: a smaller image is enlarged |
| Letterbox.TruncatedSideExample | govnowalKDE.py:48-49 | a 3x2 image on a 10x7 screen becomes 10x6: the height is rounded down, not up |
| Letterbox.WideImageExample | main.py:33-45 | a 4000x2000 image on 1920x1080 becomes 1920x960 with 60-pixel bars above and below |
| Naming.UrlFileName | govnowalKDE.py:109 | the URL text after the last `/` (all of it when there is none); never contains `/` |
| Naming.UrlFileNameAfterLastSlash | main.py:81-82 | for any base, the name of `base + "/" + name` is `name` |
| Naming.LastDot | govnowalKDE.py:58 | the position of the last dot of the name, None when there is none |
| Naming.Suffix | main.py:47 | `PurePath.suffix`: empty, or the part from the last dot on; it is non-empty exactly when the last dot neither starts nor ends the name |
| Naming.SuffixExample | govnowalKDE.py:58 | the suffix of `photo.png` is `.png` |
| Naming.WithSuffix | govnowalKDE.py:58 | `with_suffix`: ends with the new suffix, keeps the non-empty stem before the old suffix, adds no `/` |
| Naming.SuffixOfWithSuffix | main.py:47-48 | the converted file's suffix is the one it was given |
| Naming.WithOwnSuffix | govnowalKDE.py:58-59 | a download that already ends in `.jpg` is its own fitted path, so the fitted image overwrites it |
| Naming.WithSuffixIdempotent | govnowalKDE.py:58 | replacing the same extension twice changes nothing more |
| WallpaperDir.AfterCleanup | govnowalKDE.py:90-97 | only entries are removed, with kinds unchanged; the file to keep, subdirectories and files whose unlink fails stay; every other regular file goes |
| WallpaperDir.CleanupIdempotent | main.py:62-69 | a second cleanup with the same file to keep removes nothing more |
| WallpaperDir.CleanupLeavesOnlyKeep | main.py:62-66 | when every unlink succeeds, the only regular file left is the one to keep |
| WallpaperDir.Directory.constructor | main.py:73-74 | the directory starts with the given entries |
| WallpaperDir.Directory.Write | govnowalKDE.py:18-22 | writing succeeds exactly when the path is not a directory; the file then exists as a regular file and nothing else changes |
| WallpaperDir.Directory.Cleanup | main.py:62-69 | the loop over the entries leaves exactly `AfterCleanup` of the old entries |
| Kde.ResizeImage | govnowalKDE.py:25-61 | succeeds exactly when the image decodes with positive sides and encodes; the result is the `.jpg` path of the source, drawn for the size `xrandr` reported from the decoded source size |
| Kde.SavedImageIsLetterboxed | govnowalKDE.py:39-59 | the saved JPEG is drawn on a canvas of the screen size; on a positive screen the image is not cropped and the bars are centred |
| Kde.Iteration | govnowalKDE.py:104-122 | the wallpaper is replaced only when fetch, download, resize and the checked setting command all succeed, and then by the `.jpg` path of the download; otherwise it is unchanged |
| Kde.AfterDownload | govnowalKDE.py:117-120 | after the download, success writes the fitted file and makes it current; failure keeps the current wallpaper |
| Kde.UpdatedState | govnowalKDE.py:113-120 | an update leaves the cleaned directory plus the download and the fitted file |
| Kde.UpdatesWhenAllSucceed | govnowalKDE.py:107-120 | when every step succeeds and neither name is a subdirectory, the wallpaper is updated |
| Kde.ClearingStatusIgnored | govnowalKDE.py:80-81 | the clearing script's exit status changes nothing |
| Kde.FetchFailureChangesNothing | govnowalKDE.py:108 | a failed URL request leaves the state as it was; the cleanup has not run |
| Kde.NoCleanupBeforeFirstWallpaper | govnowalKDE.py:104-114 | before a wallpaper is set no entry is deleted |
| Kde.CleanupBeforeDownload | govnowalKDE.py:113-117 | the cleanup runs before the download: after an update the download, the new fitted file and the previous wallpaper are all present |
| Kde.KeptAcrossIteration | govnowalKDE.py:113-120 | whatever survives the cleanup is still there at the end of the pass, whichever later step fails |
| Kde.NextIterationOnlyAdds | govnowalKDE.py:113-120 | a file the cleanup removed is back only if the pass writes it again |
| Kde.SetFailureKeepsFiles | govnowalKDE.py:79-87 | when only the setting script fails, the cleaned directory gains the download and the fitted JPEG and the current wallpaper is unchanged |
| Kde.RegularFilesAfterUpdate | govnowalKDE.py:90-120 | after an update the regular files are the previous wallpaper, the download, the fitted file and the files that could not be unlinked |
| Kde.TwoUpdatesKeepTwoWallpapers | govnowalKDE.py:113-120 | after two updates both fitted files are in the directory; they are two files whenever the two fitted names differ |
| Kde.CurrentIsJpeg | govnowalKDE.py:58 | the current wallpaper always has the suffix `.jpg` |
| Kde.WallpaperLoop.constructor | govnowalKDE.py:101-104 | the loop starts with no current wallpaper |
| Kde.WallpaperLoop.Step | govnowalKDE.py:106-122 | one pass updates the current wallpaper and the directory exactly as `Kde.Iteration` says |
| Windows.ConvertToBmp | main.py:24-50 | succeeds exactly when the image decodes with positive sides and encodes; the result is the `.bmp` path of the source, drawn for the screen size from the decoded source size |
| Windows.SavedImageIsLetterboxed | main.py:28-48 | the saved BMP is drawn on a canvas of the screen size; on a positive screen the image is not cropped and the bars are centred |
| Windows.Iteration | main.py:76-93 | `current_bmp` is replaced when fetch, download and conversion succeed, whatever `SystemParametersInfoW` returns; on any earlier failure it is unchanged |
| Windows.AfterDownload | main.py:88-91 | after the download, conversion writes the BMP and makes it current; failure keeps the previous one |
| Windows.ConvertedState | main.py:84-91 | a conversion leaves the cleaned directory plus the download and the BMP |
| Windows.ConvertsWhenAllSucceed | main.py:79-91 | when fetch, download and conversion succeed and neither name is a subdirectory, the BMP becomes current |
| Windows.ApplyResultOnlyReported | main.py:53-59 | whether Windows accepts the wallpaper changes only the reported status |
| Windows.FetchFailureChangesNothing | main.py:80 | a failed URL request leaves the state as it was |
| Windows.NoCleanupBeforeFirstConversion | main.py:76-85 | before a BMP has been made current no entry is deleted |
| Windows.RejectedBmpIsKept | main.py:84-91 | a BMP that Windows rejected is still current, so the next cleanup keeps it |
| Windows.NextIterationOnlyAdds | main.py:84-88 | a file the cleanup removed is back only if the pass writes it again |
| Windows.RegularFilesAfterConversion | main.py:62-91 | after a conversion the regular files are the previous BMP, the download, the new BMP and the files that could not be unlinked |
| Windows.CurrentIsBmp | main.py:47 | `current_bmp` always has the suffix `.bmp` |
| Windows.WallpaperLoop.constructor | main.py:73-76 | the loop starts with no current BMP |
| Windows.WallpaperLoop.Step | main.py:78-93 | one pass updates `current_bmp` and the directory exactly as `Windows.Iteration` says |

## Left out

- Network and JSON: `get_new_wallpaper_url` and `download_image` (govnowalKDE.py:9-22, main.py:8-21) are I/O. They become the `url` and `downloadOk` inputs.
- A download that fails after its file was opened would leave a partial file. The model writes nothing on failure.
- PIL is a foreign library. Decoding, `convert("RGB")`, LANCZOS resampling, pasting pixels and JPEG or BMP encoding are left out. Only the decoded size, the geometry and whether encoding succeeds are kept.
- Letterbox.Fit: the program computes the ratios and their product in floating point. The model uses exact rationals, so where a product lands a hair below an integer, the program can make either side one pixel short: the filled side, or the other side when its exact scaled length is a whole number.
- The `xrandr` command, the `qdbus` scripts and the Win32 calls are foreign calls. Their outputs or exit statuses are inputs: the text as lines, since `splitlines` and `decode` are left out, and the screen size as two integers. The shell quoting of the path inside the `qdbus` script is left out.
- PyStr.ParseInt covers only an optional sign followed by at least one ASCII digit. Underscores, non-ASCII digits and surrounding whitespace, which Python's `int()` also accepts, are left out; tokens from `split()` carry no whitespace anyway.
- The parsed width and height are not checked to be positive, exactly as in the program.
- Kde.ResizeImage, Windows.ConvertToBmp: `Fit` can give a scaled side of zero pixels (a 4000x1 image on 1920x1080), and a parsed screen size can be negative. Pillow's `resize` and `Image.new` raise on these, so the pass fails; the model leaves that to the `encodeOk` input, which must then be false.
- `Path.resolve()` and absolute paths are left out. Files are names inside the single wallpapers directory.
- Path comparison in the Windows variant is case-insensitive (`PureWindowsPath`). So is the Windows file system, and backslashes in a URL's last segment act as separators there. The model compares names exactly.
- Other entry kinds: the directory holds only regular files and subdirectories. Symbolic links and other special files are left out.
- Creating the directory (`mkdir`), the sleep between passes, the endless `while True` and the `KeyboardInterrupt` handler are left out. One pass is modelled, and lemmas chain passes where it matters.
- Neither script detects the desktop environment or supports GNOME; each variant is modelled as the script that implements it.
- Printed messages are left out.
