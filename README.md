# Image processing web app: decision layer of the request handlers

This project models, in Dafny, the logic of the two request handlers of a
small Flask application that transforms uploaded images (`app.py`):

- `/process` takes an uploaded image, an operation name (`resize`, `aspect`,
  `compress`, `resolution`, `grayscale`, `crop`, `removebg`) and form fields.
  It runs the matching branch and sends the output stream back as the download
  `processed_<operation>.png` with MIME type `image/png`. A few cases return a
  fixed error text with a status instead.
- `/preview` reports an uploaded image's size, format, mode, a DPI display
  string and the file size in KB rounded to two decimals.

The decoded image is an input of the handlers: `Imaging.Image` gives its
size, mode, format and DPI entry. The image library's operations (resize,
crop, mode conversion, PNG/JPEG encoding) and the optional background
remover are foreign code. They enter the model as function values: `Imaging.Codec` and `Imaging.Rembg`. Every encoder, the
crop and the resize are partial (`Option`), because the library raises for
some inputs: a JPEG of an RGBA image, a PNG of a CMYK image, a resize to a
zero width or height. The in-memory stream
`io.BytesIO` is the class `Imaging.ByteBuffer`, with its bytes, position,
`write`, `tell`, `seek(0)` and `read`.

Files:

- `wrappers.dfy`: `Option`.
- `text.dfy`: Python's `str.split` on one character, `int()` on a base-10
  string, decimal rendering of integers, and their round trips.
- `imaging.dfy`: images, crop boxes, the library oracles, the byte stream class.
- `params.dfy`: form fields, the crop text `x,y,w,h`, the DPI list, the
  aspect height.
- `compress.dfy`: the target-size JPEG quality search (a `while` loop proved
  against the specification function `FirstFit`).
- `preview.dfy`: the DPI display string and the rounded size.
- `process.dfy`: the specification `Outcome` of `/process`, branch by branch.
  The imperative handler `Process` writes into the output stream and is
  proved equal to it. Lemmas state what each operation promises.

Behaviour of the code worth knowing:

- When no quality meets the compression target, nothing is ever written to
  `output`, so the download is empty (`Process.CompressSentBody`).
- `resize` with a non-positive width or height, and `aspect` with a
  non-positive width, write nothing, so the download is empty.
- `aspect` to a width so small that the proportional height truncates to 0
  always fails with a server error, because the library refuses to resample
  to a zero height (`Process.AspectFlattenedFails`).
- `resolution` with a single DPI value hands the one-element tuple `(d,)` to
  the PNG writer, and so does the default `'72'`. A PNG writer that reads
  both `dpi[0]` and `dpi[1]` raises on it, so the request then fails with a
  server error (`Process.ResolutionSingleValueFails`).
- A number field that is present but empty (the HTML form submits empty
  inputs) makes `int('')` raise, so the request fails with a server error.
  Only an absent field reads as 0 (`Process.BlankNumberFieldFails`).

## Model

| member | source | states |
|---|---|---|
| `Text.JoinSplit` | app.py:232 | joining the pieces of `s.split(',')` with `,` gives back `s` |
| `Text.SplitJoin` | app.py:242 | splitting the join of comma-free pieces gives back exactly those pieces |
| `Text.ParseIntToString` | app.py:205-206 | `int(str(n)) == n` for every integer `n` |
| `Text.ParseIntCharset` | app.py:242 | `int()` accepts only white space, signs, digits and underscores; in particular no token holding `,` |
| `Text.ParseIntBlank` | app.py:205 | `int('')`, and `int` of white space alone, raises |
| `Imaging.ByteBuffer.constructor` | app.py:201 | a new stream is empty, at position 0 |
| `Imaging.ByteBuffer.Write` | app.py:209 | `write` overwrites from the position on, extending the stream, and advances the position by the length written |
| `Imaging.ByteBuffer.Tell` | app.py:225 | `tell` returns the position |
| `Imaging.ByteBuffer.Rewind` | app.py:258 | `seek(0)` moves to the start and keeps the bytes |
| `Imaging.ByteBuffer.Read` | app.py:254-255 | `read` returns everything from the position to the end and moves to the end |
| `Params.FormIntReadsRendered` | app.py:205-206 | a field holding a rendered integer `n` reads as `n`; an absent field reads as 0 |
| `Params.ParseAllSpec` | app.py:232 | `map(int, tokens)` succeeds exactly when every token is an integer, and then holds their values in order |
| `Params.ParseDpi` | app.py:231-232 | the DPI tuple is never empty (a split has at least one piece) |
| `Params.ParseDpiRoundTrip` | app.py:231-232 | a comma-separated list of rendered integers parses to exactly that list |
| `Params.ParseCropRefusedIff` | app.py:241-246 | the crop text is refused exactly when it has other than four pieces or a piece is not an integer |
| `Params.ParseCropRoundTrip` | app.py:242-243 | `"x,y,w,h"` of rendered integers gives the box `(x, y, x + w, y + h)` |
| `Params.ParseCropExamples` | app.py:240-246 | `"10,10"` is refused and `"10,10,200,200"` gives the box (10, 10, 210, 210) |
| `Params.AspectHeight` | app.py:213-215 | the new height is the largest `h'` with `h' * width <= height * newWidth`, so the ratio is kept up to truncation |
| `Compress.QualitiesShape` | app.py:221-228 | exactly 17 qualities are tried, 95, 90, ..., 15, strictly descending; 10 is never tried |
| `Compress.FitsIsKilobyteComparison` | app.py:225 | `size <= target * 1024` is the comparison `size / 1024 <= target` |
| `Compress.FirstFitSpec` | app.py:222-227 | a found quality was tried and its encoding fits; a failure names a tried quality whose encoder raised; nothing is found exactly when every quality encodes too large |
| `Compress.AttemptedSpec` | app.py:222-228 | the attempts are a prefix of the quality order; every attempt before the last was too large; the search stops at the found or failed quality, or after all qualities |
| `Compress.FitIsHighest` | app.py:222-227 | over descending qualities the found quality is the highest whose encoding fits |
| `Compress.FitIsHighestQuality` | app.py:221-227 | in the full search every quality above the one found encoded too large |
| `Compress.FirstFitFindsFit` | app.py:224-227 | if the quality at position `k` fits and all before it are too large, the search returns that encoding |
| `Compress.NonPositiveTargetNeverFits` | app.py:220-228 | with a negative target, or a zero target and non-empty encodings, nothing fits |
| `Compress.EncodeJpeg` | app.py:223-225 | one attempt writes the JPEG at the quality into a fresh stream and measures its length |
| `Compress.CompressSearch` | app.py:219-228 | the loop's result is `FirstFit` over the 17 qualities, and the qualities it tries are exactly `Attempted` |
| `Preview.DpiDisplayDefault` | app.py:172-175 | an image without DPI information shows `72 × 72` |
| `Preview.DpiDisplayNotAvailable` | app.py:173-181 | `N/A` is shown exactly when the DPI value is not a tuple of one or two numbers |
| `Preview.DpiPairReadBack` | app.py:174-175 | the pair display splits into the two numbers around `×`, and each parses back to its DPI value |
| `Preview.DpiSingleReadBack` | app.py:176-177 | a one-element tuple is shown as its number, which parses back |
| `Preview.SizeCentiKb` | app.py:182-183 | the size in hundredths of a KB is the nearest integer to `length * 100 / 1024`, ties to even |
| `Preview.Describe` | app.py:185-193 | the descriptor carries the upload's filename, the image's size, format and mode, the DPI display string of the image's DPI (`72 × 72` when it has none), and the file size in hundredths of a KB rounded to nearest with ties to even |
| `Process.ResizeBranch` | app.py:204-209 | the `resize` branch's early return or written bytes agree with `ResizeOutcome` |
| `Process.AspectBranch` | app.py:211-217 | the `aspect` branch agrees with `AspectOutcome` |
| `Process.CompressBranch` | app.py:219-228 | the `compress` branch agrees with `CompressOutcome`; the stream sent is the chosen buffer or the untouched output |
| `Process.ResolutionBranch` | app.py:230-233 | the `resolution` branch agrees with `ResolutionOutcome` |
| `Process.GrayscaleBranch` | app.py:235-237 | the `grayscale` branch agrees with `GrayscaleOutcome` |
| `Process.CropBranch` | app.py:239-246 | the `crop` branch agrees with `CropOutcome` |
| `Process.RemoveBackgroundBranch` | app.py:248-256 | the `removebg` branch agrees with `RemoveBackgroundOutcome`; the remover receives the RGBA PNG read back from its stream |
| `Process.Process` | app.py:196-259 | the handler's response is `Outcome` of its inputs |
| `Process.SentNameAndType` | app.py:202 | every download is named `processed_<operation>.png` and typed `image/png`, whatever the branch or encoded format |
| `Process.FailureCases` | app.py:246 | the only failures are the crop error (400), the missing-remover error (500) and an uncaught exception (500); an unknown operation never fails |
| `Process.CropRefusedIff` | app.py:239-246 | a crop fails with `Invalid crop values`, 400 exactly when the text does not parse or the library raises; otherwise the cropped PNG is sent |
| `Process.CropFieldMissing` | app.py:240 | without a crop field the crop is refused with 400 |
| `Process.CropUsesBox` | app.py:242-244 | a crop text `x,y,w,h` crops the box `(x, y, x + w, y + h)` |
| `Process.RemoveBackgroundUnavailable` | app.py:249-250 | without the remover, `removebg` returns the fixed install message with status 500 |
| `Process.UnknownOperationSendsNothing` | app.py:201-202 | an operation no branch matches gets an empty download |
| `Process.ResizeNonPositiveSendsNothing` | app.py:204-209 | `resize` with a width or height of zero or less gets an empty download |
| `Process.AspectNonPositiveSendsNothing` | app.py:211-217 | `aspect` with a width of zero or less gets an empty download |
| `Process.AspectFlattenedFails` | app.py:213-216 | when the library refuses zero sizes, `aspect` to a new width `w` with `height * w < width` (the proportional height truncates to 0) fails with a server error |
| `Process.AspectFlattenedExample` | app.py:213-216 | a 1000 by 10 image asked for width 50 fails with a server error |
| `Process.AspectRequestedSize` | app.py:213-216 | `aspect` asks the library for exactly the new width and a height keeping the ratio up to truncation |
| `Process.BlankNumberFieldFails` | app.py:205-206 | a present but empty number field (`width` or `height` of `resize`, `width` of `aspect`, `filesize` of `compress`) makes the request fail with a server error |
| `Process.CompressSendsHighestFit` | app.py:221-227 | `compress` sends the encoding at the highest quality that fits, when every higher quality encoded too large |
| `Process.CompressSentBody` | app.py:219-228 | a `compress` download is either empty, when every quality is too large, or the encoding at the highest fitting quality |
| `Process.CompressNonPositiveTarget` | app.py:220-228 | a target of zero KB or less gives an empty download (or a server error if the encoder raises) |
| `Process.ResolutionDefault` | app.py:231-233 | without a DPI field the PNG writer gets the one-element tuple `(72,)` |
| `Process.ResolutionSingleValueFails` | app.py:231-233 | when the PNG writer needs two DPI values, a single value (the default `72` included) fails with a server error |
| `Process.ResolutionUsesDpi` | app.py:231-233 | a comma-separated DPI text hands exactly its integers to the PNG writer |

## Left out

- HTTP routing, reading `request.files` and `request.form`, `send_file`, `jsonify` and the HTML page are left out. Form fields are a `map<string, string>`; a response is the datatype `Process.Response`.
- A missing `operation` field or `image` upload is left out. The framework answers those with 400 before the handler's logic runs.
- Decoding is left out: the decoded image is an input. Resampling (LANCZOS), cropping, mode conversion, PNG/JPEG encoding and the background remover are left out. They are function values the model knows nothing about. So properties such as "grayscale output has one channel" or "resize output has the requested size" are out of reach. The model states which arguments the library receives instead.
- Whether the background remover could be imported is a parameter, `Imaging.Rembg`, not an import-time flag. An exception raised inside `remove` is not modelled.
- Params.AspectHeight: computes the exact floor of `height * newWidth / width`. Python computes `int(float(height) * (newWidth / float(width)))` in floating point, which can fall one below the exact floor when the quotient is a whole number. Nor does it model a width too large for a float (above about 1.8e308): there `newWidth / float(width)` raises `OverflowError` and the request fails with a server error before any resize, while `Process.AspectRequestedSize` says the resize is called.
- Text.ParseInt: accepts ASCII white space, signs, ASCII digits and single underscores between digits. Python's `int()` also accepts non-ASCII white space and digits.
- Text.ParseInt: has no limit on the number of digits. Python 3.11 and later refuses `int()` of a decimal string longer than 4300 digits, so `Text.ParseIntToString` and the handler's number fields hold only below that length there.
- Preview.DpiDisplay: DPI entries are integers. The library may report them as floats, which Python renders with a decimal point.
- Preview.Describe: does not model the stream reads behind `Image.open` and `seek`/`tell`. The file length is a parameter.
- Exceptions other than the ones named (out of memory, I/O errors) are left out. An uncaught exception is the response `Failed("Internal Server Error", 500)`.
