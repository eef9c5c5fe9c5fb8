# Palette service model

A Dafny model of the exact, non-floating-point core of Iris-img-to-palette. The service takes an image upload, extracts its dominant colours with k-means and stores each result in a sqlite table. It serves results through a GraphQL schema.

The model has one module per source file, plus two shared modules:

- `Common` (`common.dfy`): `Option`, `Result`, the Python exceptions the core raises, and `Traverse`. `Traverse` is the "map f over a list, stop at the first exception" shape shared by every loop that builds a list.
- `PyText` (`pytext.dfy`): the Python string built-ins the core relies on: `str.strip`, `str.lstrip(c)`, `str.lower`, slicing, `repr` of a string, `int(t, 16)` and `"{:02x}"`.
- `ColorHex` (`color_hex.dfy`): `HEX_PATTERN`/`is_valid_hex`, `normalize_hex` and `hex_to_rgb`.
- `ColorOklch` (`color_oklch.dfy`): the string front end of `_hex_to_linear_rgb` and the composition order of `hex_to_oklch`. The floating-point stages are function parameters.
- `ExtractColors` (`extract_colors.dfy`):
  - the `_resize_for_speed` dimension rule;
  - `np.bincount` as a counting loop over an array, and the descending `argsort` as a selection sort that produces an index permutation;
  - the `#rrggbb` formatting of the cluster centres;
  - `extract_dominant_colors` with image reading and clustering passed in as one function.
- `Storage` (`storage.dfy`):
  - `_load_palette` over an abstract JSON value;
  - the `palette_results` table as a `RecordStore` class holding a row sequence and an AUTOINCREMENT counter, with `save_result`, `get_result`, `list_results` and `clear_results`;
  - the `list_image_paths` filter.
- `GraphqlSchema` (`graphql_schema.dfy`):
  - the clamps, filename sanitisation, `Path.name` and the upload URL;
  - the content-addressed upload name;
  - `_build_result` and `extract_and_store_upload`;
  - `_to_result_node`;
  - the error mapping of the `history`, `result`, `extract_palette` and `clear_history` resolvers.

These external facilities become parameters:

- the SHA-256 hex digest (`Services.sha256Hex`);
- `cv2.imread` + resize + `KMeans` (`Services.cluster`: `None` for an unreadable image, an exception, or labels and centres);
- `json.dumps`/`json.loads` (`Services.dumps`/`loads`; the assumption that they round-trip is the predicate `Storage.Decodes`);
- the UTC clock (`Services.now`);
- `str()` of numbers, lists and dicts, `float()` of a string, and `_palette_json_pretty` (a `Conversions` record);
- the gamma power and the OKLab/OKLCH float stages.

The upload directory is a `UploadDir` object whose `files` map receives `write_bytes`.

## Model

| member | source | states |
|---|---|---|
| ColorHex.IsValidHexIff | scripts/color_hex.py:4-9 | `is_valid_hex(s)` holds exactly when the stripped input, minus at most one leading `#`, is 3 or 6 hex digits of either case |
| ColorHex.IsValidHexUnpadded | scripts/color_hex.py:4-9 | on an input with no surrounding whitespace, validity is exactly a full match of `HEX_PATTERN` |
| ColorHex.IsValidHexAcceptsSamples | scripts/color_hex.py:31 | the sample inputs `#abc`, `abc`, `#A1B2C3` and `A1B2C3` are valid |
| ColorHex.IsValidHexRejectsSamples | scripts/color_hex.py:31 | `#12FG34`, `12345` and `##abc` are invalid |
| ColorHex.NormalizeHex | scripts/color_hex.py:12-21 | fails exactly when the check on `strip().lstrip("#")` fails, and then with `ValueError("Invalid hex color: " + input)`; a success starts with `#` |
| ColorHex.NormalizeHexOfValid | scripts/color_hex.py:12-21 | on a valid input it returns `#` plus the lowercased, expanded digits, in canonical `#rrggbb` form |
| ColorHex.NormalizeCanonical | scripts/color_hex.py:12-21 | a canonical `#rrggbb` string is a fixed point |
| ColorHex.NormalizeShort | scripts/color_hex.py:18-19 | three digits `abc` normalise to `#aabbcc` (each digit doubled) |
| ColorHex.NormalizeHexExpandsShorthand | scripts/color_hex.py:18-19 | `#abc` normalises to `#aabbcc` |
| ColorHex.NormalizeHexExpandsBareShorthand | scripts/color_hex.py:18-19 | `abc` normalises to `#aabbcc` |
| ColorHex.NormalizeHashesShort | scripts/color_hex.py:13 | any number of leading `#` before three digits is removed |
| ColorHex.NormalizeHexStripsEveryHash | scripts/color_hex.py:13 | `##abc` is not valid for `is_valid_hex`, yet `normalize_hex("##abc")` is `#aabbcc` |
| ColorHex.DoubleHashInvalid | scripts/color_hex.py:4-9 | `##abc` fails the validity check |
| ColorHex.NormalizeHexKeepsInnerSpace | scripts/color_hex.py:13-21 | for `"# " + digits`, the input is invalid, and normalisation nonetheless succeeds and returns it unchanged, space included |
| ColorHex.NormalizeHexIdempotent | scripts/color_hex.py:12-21 | normalising a successful result again gives the same result |
| ColorHex.FormatRgb | scripts/extract_colors.py:48 | `#{:02x}{:02x}{:02x}` of three bytes is a canonical `#rrggbb` string |
| ColorHex.FirstFailure | scripts/color_hex.py:27 | the channel tuple succeeds iff all three `int(_, 16)` calls do; otherwise the first exception propagates |
| ColorHex.HexToRgb | scripts/color_hex.py:24-27 | a failed normalisation propagates its `ValueError` |
| ColorHex.HexToRgbInByteRange | scripts/color_hex.py:24-27 | every successful result has all three channels in [0,255] |
| ColorHex.HexToRgbRoundTrip | scripts/color_hex.py:24-27 | on a valid input, formatting the channels back as `#%02x%02x%02x` reproduces `normalize_hex` of the input |
| ColorHex.HexToRgbOfFormat | scripts/color_hex.py:24-27 | parsing a formatted byte triple gives the triple back |
| ColorHex.FormatInjective | scripts/extract_colors.py:48 | distinct byte triples format to distinct strings |
| ColorHex.HexToRgbMisreadsInnerSpace | scripts/color_hex.py:13-27 | for `"# " + six digits` the channels are read shifted by one character, and formatting them does not give back the normalised string |
| ColorHex.HexToRgbMisreadsSample | scripts/color_hex.py:13-27 | `hex_to_rgb("# a1b2c3")` is `(10, 27, 44)` although the input is invalid |
| ColorHex.FormatMisreadSample | scripts/color_hex.py:24-27 | `(10, 27, 44)` formats as `#0a1b2c`, not the input's digits |
| ColorHex.NormalizeHexChecked | scripts/color_hex.py:12-21 | corrected `normalize_hex`: fails exactly when the stripped remainder is not 3 or 6 hex digits |
| ColorHex.NormalizeHexCheckedCanonical | scripts/color_hex.py:12-21 | every success of the corrected version is canonical and agrees with the original |
| ColorHex.NormalizeHexCheckedOfValid | scripts/color_hex.py:12-21 | on valid inputs the corrected and original versions agree |
| ColorHex.NormalizeHexCheckedRejectsInnerSpace | scripts/color_hex.py:12-21 | the corrected version rejects `"# " + digits` |
| ColorHex.HexToRgbCheckedRoundTrip | scripts/color_hex.py:24-27 | with the corrected normalisation, `hex_to_rgb` succeeds iff normalisation does, and its channels always format back to the normalised string |
| ColorOklch.DigitsPart | scripts/color_oklch.py:10-12 | the digits part is the stripped input with at most one leading `#` removed |
| ColorOklch.DigitsPartOfHashed | scripts/color_oklch.py:10-12 | `#` + digits and bare digits give the same digits part |
| ColorOklch.DigitsPartKeepsSecondHash | scripts/color_oklch.py:11-12 | only one `#` is removed: `##` + digits keeps the second `#` |
| ColorOklch.HexToChannels | scripts/color_oklch.py:13-18 | fails with `ValueError("hex_str must be in RRGGBB format")` exactly when the digits part is not 6 characters long; any other failure comes from `int(_, 16)` |
| ColorOklch.HexToChannelsOfSix | scripts/color_oklch.py:16-18 | for six hex digits the channels are the base-16 values of slices [0:2], [2:4] and [4:6], each in [0,255] |
| ColorOklch.HexToChannelsInByteRange | scripts/color_oklch.py:16-18 | every sign-free successful parse gives channels in [0,255] |
| ColorOklch.ShorthandRejected | scripts/color_oklch.py:13-14 | 3-digit shorthand is rejected here although `is_valid_hex` accepts it |
| ColorOklch.SecondHashRejected | scripts/color_oklch.py:11-14 | `##` + six digits is rejected here but normalised by `normalize_hex` |
| ColorOklch.NegativeChannelAccepted | scripts/color_oklch.py:16 | a leading `-` passes the length check and parses as a negative channel, whose scaled value is below 0 |
| ColorOklch.NegativeChannelSample | scripts/color_oklch.py:16-18 | `-a1b2c` parses as channels (-10, 27, 44) |
| ColorOklch.Scaled | scripts/color_oklch.py:21-23 | each byte divided by 255 lies in [0,1] and times 255 gives the byte back |
| ColorOklch.SrgbToLinear | scripts/color_oklch.py:3-6 | below the 0.04045 threshold the linear value lies in [0, c] |
| ColorOklch.HexToLinearRgb | scripts/color_oklch.py:9-24 | fails exactly when the string front end fails, with the same exception |
| ColorOklch.HexToLinearRgbInUnit | scripts/color_oklch.py:20-24 | on success the channels passed to the gamma decode lie in the unit cube |
| ColorOklch.HexToOklchParsesFirst | scripts/color_oklch.py:48-51 | a malformed string fails with the parse error before any numeric stage runs; otherwise the result is the composition linearise, then OKLab, then OKLCH |
| ColorOklch.LavenderSample | scripts/color_oklch.py:55-56 | `#929cf9` parses as (146, 156, 249) |
| ColorOklch.BlackSample | scripts/color_oklch.py:60 | `#000000` linearises to (0, 0, 0) |
| PyText.Strip | scripts/color_hex.py:9 | `str.strip()` has no whitespace at either end and is no longer than its input |
| PyText.StripIsMiddle | scripts/color_hex.py:9 | `strip()` is a contiguous middle slice after the leading whitespace |
| PyText.StripRemovesTrailing | scripts/color_hex.py:9 | everything after the stripped slice is whitespace |
| PyText.LStripChar | scripts/color_hex.py:13 | `lstrip("#")` is a suffix of its input that does not start with `#`, and only `#` characters were removed |
| PyText.StripLower | scripts/color_hex.py:13-21 | stripping and lowercasing commute |
| PyText.PyInt16OfPair | scripts/color_hex.py:27 | `int(t, 16)` of two hex digits is 16*first + second, in [0,255] |
| PyText.PyInt16Bounded | scripts/color_oklch.py:16-18 | `int(t, 16)` of at most two sign-free characters is in [0,255] |
| PyText.PyRepr | scripts/color_hex.py:27 | `repr(t)` as `int(t, 16)` quotes it in its error message: double quotes exactly when `t` holds a `'` and no `"`, single quotes otherwise, with backslash, quote, tab, newline, carriage return and other unprintable Latin-1 characters escaped |
| PyText.PyReprOfPlain | scripts/color_hex.py:27 | a string of printable characters without quotes or backslashes is quoted unchanged in single quotes |
| PyText.PyInt16 | scripts/color_hex.py:27 | every failure of `int(t, 16)` is `ValueError("invalid literal for int() with base 16: " + repr(t))` |
| PyText.PyInt16OfTabHash | scripts/color_hex.py:27 | `int("\t#", 16)` fails with the tab escaped as `\t` in the message |
| PyText.PyReprOfQuoteLetter | scripts/color_oklch.py:16 | `repr("'a")` is `"'a"`, in double quotes |
| PyText.HexByte | scripts/extract_colors.py:48 | `{:02x}` gives two lowercase hex digits whose value is the byte |
| PyText.HexByteOfPair | scripts/extract_colors.py:48 | `{:02x}` of a parsed lowercase pair gives the pair back |
| ExtractColors.TargetWidth | scripts/extract_colors.py:16 | the target width lies in [1,100] and equals max(1, min(100, width div 10)) |
| ExtractColors.PlanResize | scripts/extract_colors.py:15-22 | the image is kept exactly when the target width is at least the width; otherwise the new width is the target width, below the old one, and the height is at least 1 |
| ExtractColors.KeepIffNarrow | scripts/extract_colors.py:18-19 | the image is kept exactly when it is at most 1 pixel wide |
| ExtractColors.NeverUpscales | scripts/extract_colors.py:18-22 | a resize never widens the image or makes it taller than max(1, height) |
| ExtractColors.HeightTruncates | scripts/extract_colors.py:21 | the new height is 1 or height * target / width truncated, not rounded |
| ExtractColors.CountersNeeded | scripts/extract_colors.py:43 | the counts array has length max(minlength, largest label + 1) |
| ExtractColors.Bincount | scripts/extract_colors.py:43 | `counts[k]` is the number of labels equal to k, and the counts sum to the number of labels |
| ExtractColors.SumIncrement | scripts/extract_colors.py:43 | incrementing one counter raises the total by one |
| ExtractColors.LargestFrom | scripts/extract_colors.py:45 | finds a position whose count dominates every later position |
| ExtractColors.ArgsortDescending | scripts/extract_colors.py:45 | the order is a permutation of 0..n-1 along which counts never increase |
| ExtractColors.DominantColors | scripts/extract_colors.py:43-50 | the palette has `n_colors` entries; entry i is the 7-character `#rrggbb` of `centers[order[i]]`; `order` is a permutation ranked by descending label count |
| ExtractColors.ExtractDominantColors | scripts/extract_colors.py:25-50 | an unreadable image raises `FileNotFoundError("Cannot read image: " + path)`, a clustering exception propagates, and labels and centres give the ranked palette |
| Common.TraverseSucceeds | app/graphql_schema.py:219-231 | building a list in a loop succeeds iff every element converts; the result has one converted entry per element, in order |
| Common.TraverseFails | app/storage.py:114-127 | a failed loop raised the exception of the first failing element, after all earlier elements succeeded |
| Common.TraverseFailedPrefix | app/storage.py:114-127 | once a prefix raises, later elements do not change the outcome |
| Storage.LoadPalette | app/storage.py:20-28 | a list is returned unchanged; a string is parsed as JSON, giving the parsed list or `[]` when it is not a list, and a parse error propagates; anything else gives `[]` |
| Storage.LoadPaletteRoundTrip | app/storage.py:20-25 | a palette stored with `json.dumps` loads back unchanged |
| Storage.LoadPaletteOfNonList | app/storage.py:21-25 | a string that parses to a non-list gives `[]` |
| Storage.RecordOf | app/storage.py:89-98 | a record copies each column of the row, and its palette is the row's decoded `palette_json` |
| Storage.FindRow | app/storage.py:77-84 | `WHERE id = ?` finds a row with that id, or none exactly when no row has it |
| Storage.FindNewRow | app/storage.py:69-71 | the newest row is found by its freshly assigned id |
| Storage.Newest | app/storage.py:104-112 | `ORDER BY id DESC LIMIT ?`: the last `limit` rows newest first, and all rows for a negative limit |
| Storage.NewestIdsDecrease | app/storage.py:108 | the selected rows have strictly decreasing ids |
| Storage.NewestAreLatest | app/storage.py:108-109 | every row left out is older than every row selected |
| Storage.RecordStore.constructor | app/storage.py:31-48 | a new table is empty, and its counter is 0 |
| Storage.RecordStore.SaveResult | app/storage.py:51-71 | appends a row with the next AUTOINCREMENT id, the `json.dumps` of the palette and the given fields, and returns that id |
| Storage.RecordStore.GetResult | app/storage.py:74-98 | gives `None` exactly when no row has the id; otherwise the stored row's record, or the palette decoding error |
| Storage.RecordStore.ListResults | app/storage.py:101-127 | the loop yields the records of the newest `limit` rows, stopping at the first decoding error |
| Storage.ListedNewestFirst | app/storage.py:101-127 | a listing has at most `limit` records, record i is the i-th newest row's record, and ids strictly decrease |
| Storage.RecordStore.ClearResults | app/storage.py:130-133 | deletes every row; the AUTOINCREMENT counter is not reset |
| Storage.ListAfterClear | app/storage.py:101-133 | `clear_results` followed by `list_results` with any limit gives an empty listing, whatever the table held, and the AUTOINCREMENT counter is kept |
| Storage.ImagePaths | app/storage.py:136-139 | there are at most as many paths as rows |
| Storage.ImagePathsMembers | app/storage.py:139 | a path is listed iff it is non-empty and some row holds it |
| Storage.ImagePathsAppend | app/storage.py:139 | the filter keeps row order: the paths of concatenated rows are the concatenated paths |
| GraphqlSchema.Clamp | app/graphql_schema.py:40 | `max(lo, min(hi, v))` lies in [lo, hi], is the identity inside and saturates at each end |
| GraphqlSchema.ClampNColors | app/graphql_schema.py:39-40 | the colour count lies in [1,12] and is the identity on values already in range |
| GraphqlSchema.HistoryLimit | app/graphql_schema.py:176 | the history limit lies in [1,100] and is the identity on values already in range |
| GraphqlSchema.SafeChars | app/graphql_schema.py:44 | every character is kept when alphanumeric or one of `- _ .` and space, and otherwise becomes `_` |
| GraphqlSchema.SanitizeFilename | app/graphql_schema.py:43-45 | the result is non-empty, all safe, without a space at either end, and `upload` exactly when the mapped string strips to empty |
| GraphqlSchema.StripKeepsSafe | app/graphql_schema.py:44 | stripping a safe string keeps it safe |
| GraphqlSchema.SanitizeKeepsSafe | app/graphql_schema.py:43-45 | a safe name without surrounding spaces is left unchanged |
| GraphqlSchema.SanitizeIdempotent | app/graphql_schema.py:43-45 | sanitising twice is the same as sanitising once |
| GraphqlSchema.SanitizedHasNoSlash | app/graphql_schema.py:43-45 | a sanitised name has no `/`, so it cannot leave the upload directory |
| GraphqlSchema.NameStart | app/graphql_schema.py:49 | the final path component starts just after the last `/` |
| GraphqlSchema.Basename | app/graphql_schema.py:49 | `Path(p).name` has no `/` and is never `.` |
| GraphqlSchema.BasenameOfJoin | app/graphql_schema.py:49 | the name of `dir/ + name` is `name` |
| GraphqlSchema.BasenameOfName | app/graphql_schema.py:85 | a plain name is its own basename |
| GraphqlSchema.BasenameIdempotent | app/graphql_schema.py:49 | taking the name twice is the same as once |
| GraphqlSchema.BasenameIgnoresTrailing | app/graphql_schema.py:49 | trailing `/` and `/.` components do not change the name |
| GraphqlSchema.ToUploadUrl | app/graphql_schema.py:48-49 | the URL is `/uploads/` followed by the basename of the image path |
| GraphqlSchema.StoredName | app/graphql_schema.py:65 | the stored name is the first 16 digest characters, `_`, then the sanitised name |
| GraphqlSchema.JoinPath | app/graphql_schema.py:65 | `upload_dir / name` is `name` for `.`, and otherwise begins with the directory |
| GraphqlSchema.BasenameOfJoinPath | app/graphql_schema.py:65 | the name of `upload_dir / name` is `name` |
| GraphqlSchema.StoredNameIsName | app/graphql_schema.py:61-65 | the stored name is a single non-empty path component |
| GraphqlSchema.UploadUrlOfStored | app/graphql_schema.py:48-49 | the URL of a stored upload is `/uploads/` + its stored name, whatever the directory |
| GraphqlSchema.OriginalName | app/graphql_schema.py:85 | the original name is the basename of the declared filename, or `upload` when it is `None` or empty |
| GraphqlSchema.ColorNode | app/graphql_schema.py:220-231 | a palette entry that is not a dict, or whose `oklch` is neither falsy nor a dict, raises `AttributeError` for `.get` |
| GraphqlSchema.ColorNodeDefaults | app/graphql_schema.py:221-229 | a missing `hex` becomes `""`, a missing `L`, `c` or `h` becomes 0.0, and a string `hex` is kept |
| GraphqlSchema.ColorNodeWithoutOklch | app/graphql_schema.py:221 | a missing or falsy `oklch` gives coordinates (0, 0, 0) |
| GraphqlSchema.ColorNodeOfStoredColor | app/graphql_schema.py:221-229 | a well-formed colour dict converts to exactly its hex and coordinates |
| GraphqlSchema.ResultNodeShape | app/graphql_schema.py:218-242 | the node exists iff every entry converts; it has one colour per entry in order, copies the record's fields, has `/uploads/` + basename as its URL and the pretty JSON; otherwise the first failing entry's exception escapes |
| GraphqlSchema.StringPaletteHasNoNode | app/graphql_schema.py:220-221 | a palette whose first entry is a string raises `'str' object has no attribute 'get'` |
| GraphqlSchema.ToResultNode | app/graphql_schema.py:218-242 | the appending loop yields the node of `ResultNodeShape` |
| GraphqlSchema.UploadDir.WriteBytes | app/graphql_schema.py:66 | writes the content at the path and leaves every other file as it was |
| GraphqlSchema.HexList | app/graphql_schema.py:68-76 | the extracted colours are saved as a JSON list of the same strings |
| GraphqlSchema.SaveAndReload | app/graphql_schema.py:69-81 | one row is appended with the next id, and the result is that row reloaded |
| GraphqlSchema.ExtractAndSave | app/graphql_schema.py:68-81 | an extraction failure leaves the table untouched and propagates; success saves the ranked palette with the clamped `n` and returns it reloaded |
| GraphqlSchema.BuildResult | app/graphql_schema.py:56-81 | empty content raises `ValueError("Empty upload.")` before any write; otherwise the file is written at `upload_dir/sha[:16]_safe`, extraction errors propagate with the table unchanged, and extracted colours are saved with the clamped `n` and reloaded |
| GraphqlSchema.ExtractAndStoreUpload | app/graphql_schema.py:84-87 | with the original name taken from the declared filename: empty content raises `ValueError("Empty upload.")` and writes nothing; otherwise the bytes are written at `upload_dir/sha[:16]_safe`, an unreadable image or a clustering error propagates with the table unchanged, and a successful clustering appends one row with the clamped `n` and the ranked palette and returns it reloaded |
| GraphqlSchema.ExtractPaletteResponse | app/graphql_schema.py:196-207 | `ValueError` becomes `BAD_REQUEST` with its message; any other exception becomes `INTERNAL_ERROR` "Failed to extract palette."; a record becomes its node, and a node error escapes the resolver |
| GraphqlSchema.RespondToExtraction | app/graphql_schema.py:203-207 | computes `ExtractPaletteResponse` through `ToResultNode` |
| GraphqlSchema.ExtractPalette | app/graphql_schema.py:195-207 | an empty upload answers `BAD_REQUEST` "Empty upload." and writes nothing; an unreadable image answers `INTERNAL_ERROR`; a clustering exception is mapped by its class; on every non-empty upload the bytes are written at the content-addressed path, and the table is unchanged unless clustering succeeds; a successful clustering appends one row with the declared file's basename, the digest, the clamped `n` and the ranked palette, and then the resolver raises, because the saved palette is a list of strings |
| GraphqlSchema.SavedPaletteHasNoNode | app/graphql_schema.py:68-81 | a saved, non-empty list of hex strings reloads as strings, and it has no result node |
| GraphqlSchema.ExtractionEscapes | app/graphql_schema.py:207 | after a successful extraction, `_to_result_node` raises `AttributeError` outside the resolver's `try` |
| GraphqlSchema.ResultResponse | app/graphql_schema.py:182-189 | a store error becomes `INTERNAL_ERROR` "Failed to load result.", a missing id `NOT_FOUND` "Result not found.", and a record its node, or the node's exception escapes |
| GraphqlSchema.UnknownIdNotFound | app/graphql_schema.py:187-188 | querying an id that no row has answers `NOT_FOUND` |
| GraphqlSchema.HistoryResponse | app/graphql_schema.py:174-179 | a store error becomes `INTERNAL_ERROR` "Failed to load history."; otherwise the answer succeeds iff every record converts to a node, and a failure is the first failing record's exception |
| GraphqlSchema.History | app/graphql_schema.py:174-179 | answers with the nodes of the newest rows, under the limit clamped to [1,100] |
| GraphqlSchema.HistoryNewestFirst | app/graphql_schema.py:176-179 | an answered history holds min(clamped limit, row count) nodes, at most 100, with strictly decreasing ids |
| GraphqlSchema.ClearHistory | app/graphql_schema.py:209-215 | deletes every row and answers `ok = true` |
| GraphqlSchema.HistoryAfterClear | app/graphql_schema.py:174-215 | `clear_history` followed by `history` with any limit answers `ok = true` and then an empty history, whatever the table held |

## Left out

- Python's `str.isalnum`, `str.strip` and `str.lower` are modelled for ASCII only. A non-ASCII letter is treated as unsafe in a filename and becomes `_`, and Unicode spaces are not stripped.
- PyText.PyInt16: `int(t, 16)` is modelled for surrounding whitespace, an optional sign and ASCII hex digits. Non-ASCII decimal digits are not modelled, and they can occur: `int("１２", 16)` is 18, so `_hex_to_linear_rgb("#１２３４５６")` succeeds in Python while `HexToChannels` fails. Underscores between digits and a `0x` prefix are not modelled either; they cannot parse in the slices of at most two characters the core passes, so leaving them out changes nothing.
- PyText.PyRepr: `repr` is exact for characters up to U+00FF. Above that, every character is written unescaped, while Python escapes the non-printable ones (such as U+2028) as `\u` or `\U` sequences.
- ExtractColors.TargetWidth: `int(width * 0.1)` is modelled as `width / 10` and `int(height * (tw / width))` as `height * tw / width` in integer division. Float rounding near exact multiples is not modelled.
- ExtractColors.ArgsortDescending: the order among clusters with equal counts is whatever the selection sort picks. NumPy's `argsort` is not stable, so the source leaves it unspecified too.
- Image reading, colour conversion, resizing and `KMeans` are one function parameter returning labels and centres. The centres are assumed to be already rounded to bytes (`np.rint(...).astype(np.uint8)`). `random_state=42` determinism belongs to the library.
- The floating-point stages of `scripts/color_oklch.py` (the gamma power, matrices, cube roots, `sqrt`, `atan2` and degrees mod 360) are function parameters. Reals stand in for floats.
- `scripts/color_oklab.py` and `app/main.py` are not part of this model: the first is all floating point, the second is FastAPI routing and templates.
- `json.dumps`/`json.loads` are an abstract codec pair; that they round-trip is a hypothesis (`Storage.Decodes`). `_palette_json_pretty` is the `Conversions.pretty` parameter, and a value it cannot serialise is not modelled.
- GraphqlSchema.PyStr: `str()` is modelled for strings, `None` and booleans only; `str()` of an int, a float, a list or a dict is the `Conversions.repr` parameter. GraphqlSchema.PyFloat: `float()` is modelled for numbers and booleans, `float()` of a string is the `Conversions.parseFloat` parameter.
- Default arguments are not modelled: `history(limit=20)` (app/graphql_schema.py:174), `extract_palette(n_colors=3)` (app/graphql_schema.py:195) and `extract_dominant_colors(n_colors=3)` (scripts/extract_colors.py:25) take their argument as a parameter the caller always supplies.
- sqlite is an in-memory row sequence. Connection errors, locking and a full disk are not modelled, so the `Failed to clear history.` branch of `clear_history` is unreachable. The `created_at` index and the 64-bit id limit are not modelled either.
- `hashlib.sha256` is a parameter; only the shape of its digest matters (`IsDigest`: 64 lowercase hex digits).
- `datetime.now(timezone.utc).isoformat()` is the `Services.now` parameter.
- File system effects other than `write_bytes` are not modelled: `mkdir`, permission errors and a failing write are out. Paths are POSIX paths.
- Reading the upload (`await upload.read()`), `run_in_threadpool`, async scheduling and concurrent requests are not modelled; each resolver runs to completion on its own.
- `format_result_for_template`, the strawberry types, `context_getter` and `init_db` are plumbing; the nodes are plain datatypes.
- ColorOklch.HexToChannels: a sign inside a pair (`-a1b2c`) is accepted as written, giving a negative channel (`NegativeChannelAccepted`). This is kept as the code behaves, not listed as a finding.
- GraphqlSchema.ExtractPalette: `extract_dominant_colors` returns hex strings, which are saved as such, while `_to_result_node` expects dicts. A successful extraction therefore makes the resolver raise (`ExtractionEscapes`). Both functions are modelled as written, without reconciling them.
- ColorHex.NormalizeHex: the property "an input of only `#` and hex digits normalises to `#` plus six lowercase digits" holds only when the remainder after the `#`s has 3 or 6 digits (`#abcd` raises); the model proves it for valid inputs and for any run of leading `#`s before three digits.

## Findings

| source | as written | input that shows it | evidently intended | confidence | as-written member | corrected member |
|---|---|---|---|---|---|---|
| scripts/color_hex.py:13-27 | `normalize_hex` checks `is_valid_hex(value)`, which strips `value` again, but returns `value` unstripped, so an inner space after `#` survives normalisation and `hex_to_rgb` reads shifted pairs | `"# a1b2c3"` normalises to `"# a1b2c3"` and `hex_to_rgb` gives `(10, 27, 44)` | reject any remainder that is not exactly 3 or 6 hex digits, so that `hex_to_rgb` always formats back to the normalised string | not executed | ColorHex.HexToRgbMisreadsInnerSpace | ColorHex.HexToRgbCheckedRoundTrip |
