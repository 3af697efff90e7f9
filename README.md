# Pixel sorting kernel, modelled in Dafny

The page in `static/js/main.js` loads an image into a canvas and then recolours it
pass after pass. Each pass walks the RGBA byte buffer row by row. It compares
every pixel with its neighbour below it (vertical scanning) or to its right
(horizontal scanning). When the brightness difference passes the threshold, the
two pixels are blended toward each other's colour by the configured strength.
The buffer is a `Uint8ClampedArray`, so every value written is clamped to
[0, 255] and rounded.

The model has five modules:

- `Bytes` (`bytes.dfy`): the clamped byte store. `ToByte` is ECMAScript's
  ToUint8Clamp on a real number: it clamps, rounds to nearest and sends ties to
  the even neighbour.
- `Threshold` (`threshold.dfy`): the remap `floor(t^7 * 3 * 255)` that `rebuild`
  applies to the threshold, and its properties.
- `Scan` (`scan.dfy`): the geometry stored when an image loads (`rWidth`,
  `maxRow`, `maxColumn`). It also gives the list of (source, target) byte-offset
  pairs that one pass visits, in visiting order: `ColumnPairs` for one row and
  `RowPairs` for the rows. `ScanPairs` is that list for an image whose geometry
  matches the orientation, with its closed form, count and bounds proved.
- `Kernel` (`kernel.dfy`): `setPixel`, `compare`, `compareAndRecolor` and one
  pass as functions on the value of the buffer (`Blended`, `Compare`,
  `Recolored`, `Apply`), with their laws.
- `Sorter` (`sorter.dfy`): the page's shared state as a class. It holds the
  `array` of bytes, the image size, the live configuration (strength,
  threshold, orientation) and the stored geometry. Its methods change the array
  in place, as the source does. Each method is proved to leave exactly the
  buffer that the matching `Kernel` function describes. `Iterate` and
  `RecolorRow` are the two nested loops of `iterate`. Their invariant states
  that recolouring the rest of the pair list from the current buffer gives the
  same result as recolouring the whole list from the original buffer.

Real numbers stand in for JavaScript doubles: `strength`, `threshold`, the
blend step and `Math.pow`.

A read past the end of the buffer yields `undefined` in JavaScript, so the sums
in `compare` become NaN and both of its tests are false. The model says the
same: `Compare` is false for any pair not wholly inside the buffer, and
`CompareAndRecolor` then returns without writing.

The geometry is derived from the orientation at load time, but `iterate` reads
the orientation afresh on every pass. If the two disagree, the pass goes wrong
in one of two ways. With horizontal geometry and vertical scanning, it pairs a
pixel of the last row with an offset past the end of the buffer
(`StaleGeometryOverruns`). With vertical geometry and horizontal scanning, it
pairs the last pixel of each row with the first pixel of the next row and never
takes a source from the last row (`StaleGeometryWraps`).
`Iterate` is therefore specified for any stored geometry, via `PassPairs`.
`PassPairs` equals `ScanPairs` whenever the geometry matches the current
orientation.

`rebuild` runs after every settings change and every window resize. Each run
overwrites the threshold with the remap of the value it finds there. A change
made with the threshold control first stores a fresh slider value in [0, 1], and
`Remap` sends that into [0, 765]. A change of strength or orientation, or a
resize, leaves the stored value as it is, so the remap is applied to an
already remapped threshold. When the first two runs after loading come from
such changes, the initial 0.45 becomes 2 and then 97920
(`RemapNotIdempotent`). From then on a pass changes nothing
(`SecondRebuildStopsSorting`) until the threshold control is moved again.

## Model

| member | source | states |
|---|---|---|
| `Bytes.ToByte` | static/js/main.js:72-74 | The stored byte is 0 for values at or below 0 and 255 at or above 255. In between it is within 0.5 of the value, with an exact tie going to the even byte. |
| `Bytes.ToByteExact` | static/js/main.js:72-74 | Storing a value that is already a byte stores it unchanged. |
| `Bytes.ToByteBetween` | static/js/main.js:72-74 | Storing never moves a value out of a byte interval that contains it. |
| `Kernel.Blend` | static/js/main.js:72-74 | One channel `old + strength * (new - old)` as stored: strength 0 keeps the old byte and strength 1 gives the new one. A strength in [0, 1] lands between the two. |
| `Kernel.Blended` | static/js/main.js:64-75 | `setPixel` keeps the buffer length and changes no byte other than index, index+1 and index+2, so alpha is untouched. |
| `Kernel.BlendedNoOp` | static/js/main.js:64-75 | With strength 0, `setPixel` leaves the whole buffer unchanged. |
| `Kernel.BlendedExact` | static/js/main.js:64-75 | With strength 1, `setPixel` stores exactly r, g and b. |
| `Kernel.Brightness` | static/js/main.js:77-82 | The R+G+B sum of a pixel lies in [0, 765]. |
| `Kernel.Compare` | static/js/main.js:76-89 | `compare`, with a read past the buffer giving NaN sums that fail both tests: a pair qualifies only when both pixels lie inside the buffer. |
| `Kernel.CompareDirection` | static/js/main.js:85-89 | Inside the buffer, with a positive threshold it qualifies iff the target is brighter than the source by more than the threshold. With any other threshold, zero included, it qualifies iff the target is darker by more than the threshold's magnitude. |
| `Kernel.CompareSignFlip` | static/js/main.js:85-89 | Threshold -d asks of (source, target) exactly what d asks of (target, source). |
| `Kernel.CompareAtZero` | static/js/main.js:85-89 | A zero threshold takes the second branch: only a strictly darker target qualifies. |
| `Kernel.CompareAsymmetric` | static/js/main.js:76-89 | A pair never qualifies in both directions. |
| `Kernel.CompareOutOfReach` | static/js/main.js:76-89 | A threshold of 765 or more, or of -765 or less, rejects every pair. |
| `Kernel.Recolored` | static/js/main.js:96-109 | `compareAndRecolor` keeps the buffer length. |
| `Kernel.RecolorRejected` | static/js/main.js:97-99 | When `compare` fails, the buffer is unchanged. |
| `Kernel.RecolorAccepted` | static/js/main.js:101-108 | For two pixels that do not overlap, when `compare` holds, each RGB byte of the target is blended toward the source's byte from before the call, and each RGB byte of the source toward the target's. Every other byte, alpha included, is unchanged. |
| `Kernel.RecolorSwaps` | static/js/main.js:101-108 | With strength 1, an accepted pair exchanges its two RGB colours exactly. |
| `Kernel.RecolorStrengthZero` | static/js/main.js:96-109 | With strength 0, `compareAndRecolor` changes nothing, whatever `compare` says. |
| `Kernel.Apply` | static/js/main.js:111-120 | A pass over a list of pairs keeps the buffer length. |
| `Kernel.ApplyOutOfReach` | static/js/main.js:111-120 | A pass with a threshold out of reach of any brightness difference changes nothing. |
| `Kernel.ApplyStrengthZero` | static/js/main.js:111-120 | A pass with strength 0 changes nothing. |
| `Kernel.ApplyConcat` | static/js/main.js:111-120 | Recolouring two lists one after the other is recolouring their concatenation. |
| `Kernel.BlackWhiteSwap` | static/js/main.js:110-122 | A 2x1 black-then-white image, scanned horizontally with threshold 10 and strength 1, has its two pixels swapped by one pass. |
| `Kernel.BlackWhiteNegativeThreshold` | static/js/main.js:110-122 | The same image with threshold -10 is unchanged by a pass. |
| `Scan.Derive` | static/js/main.js:164-170 | The row width is 4 * width. For a non-empty image, the neighbour of the last scanned pixel is the last pixel of the buffer, and the scanned span of a row ends at the last pixel that has a neighbour. |
| `Scan.GeometryCounts` | static/js/main.js:164-166 | The derived bounds are (rows with a neighbour) * rWidth and 4 * (columns with a neighbour). The last row's last pair ends inside the buffer. |
| `Scan.ScanPairs` | static/js/main.js:111-119 | A pass with matching geometry visits (height-1)*width pairs (vertical) or height*(width-1) pairs (horizontal). Every offset it reads or writes addresses a whole pixel in [0, 4*width*height), and every source is a multiple of 4. Column x of row y comes at position y*columns + x, paired with the pixel below or to the right. |
| `Scan.ScanPairsAscending` | static/js/main.js:111-119 | Sources strictly increase along a pass, so no pair is visited twice. |
| `Scan.ColumnPairsShape` | static/js/main.js:112-113 | `ColumnPairs`, the inner loop's visiting order: from offset j up to j + 4n it visits n pairs, the m-th with source j + 4m and target `off` bytes further on. |
| `Scan.RowPairsAt` | static/js/main.js:111-119 | `RowPairs`, the outer loop's visiting order: the pair for column x of the y-th row after offset i comes at position y*columns + x, with source i + y*rWidth + 4x and target `off` bytes further on. |
| `Scan.StaleGeometryOverruns` | static/js/main.js:113-117 | With horizontal geometry and vertical scanning, some pair's target is the offset just past the buffer. |
| `Scan.StaleGeometryWraps` | static/js/main.js:113-117 | With vertical geometry and horizontal scanning, a pass visits (height-1)*width pairs, the k-th being pixel k with pixel k + 1 in buffer order. So the last pixel of each row but the last is paired with the first pixel of the next row, and every source lies before the last row. |
| `Threshold.RemapEnds` | static/js/main.js:137 | The remap sends 0 to 0 and 1 to 765. |
| `Threshold.Remap` | static/js/main.js:137 | `floor(t^7 * 3 * 255)`: a slider value in [0, 1] remaps to an integer in [0, 765]. |
| `Threshold.PowUnitInterval` | static/js/main.js:137 | `Pow`, standing in for `Math.pow`: a power of a number in [0, 1] stays in [0, 1]. |
| `Threshold.RemapMonotone` | static/js/main.js:137 | The remap is monotone non-decreasing on [0, 1]. |
| `Threshold.RemapNotIdempotent` | static/js/main.js:137 | Remapping 0.45 gives 2, and remapping that again gives 97920. |
| `Sorter.PixelSorter.constructor` | static/js/main.js:159-170 | The first load stores the pixels and the initial configuration (0.75, 0.45, vertical). The geometry is derived for that orientation. |
| `Sorter.PixelSorter.Load` | static/js/main.js:159-173 | A later load replaces the buffer and derives the geometry from the orientation current at that moment. The configuration is kept. |
| `Sorter.PixelSorter.Rebuild` | static/js/main.js:137 | The stored threshold becomes the remap of the threshold found there. |
| `Sorter.PixelSorter.SetPixel` | static/js/main.js:64-75 | The array afterwards is `Blended` of the array before. |
| `Sorter.PixelSorter.CompareAt` | static/js/main.js:76-89 | The two R+G+B sums read from the array and the threshold test give exactly `Compare` of the array. |
| `Sorter.PixelSorter.CompareAndRecolor` | static/js/main.js:96-109 | The array afterwards is `Recolored` of the array before, out-of-buffer pairs included. |
| `Sorter.PixelSorter.RecolorRow` | static/js/main.js:112-119 | The inner loop leaves `Apply` of the row's pairs on the array it started from. |
| `Sorter.PixelSorter.Iterate` | static/js/main.js:110-120 | One pass leaves `Apply` of `PassPairs` on the array it started from. |
| `Sorter.PixelSorter.PassPairs` | static/js/main.js:111-119 | When the stored geometry was derived for the current orientation, the pairs a pass visits are `ScanPairs`. |
| `Sorter.SecondRebuildStopsSorting` | static/js/main.js:136-139 | After a second rebuild from the initial threshold, a pass over any pairs leaves the buffer unchanged. |

## Left out

- The animation-frame and `setImmediate` fallbacks, `draw` with `putImageData`, and the `setImmediate(iterate)` tail that schedules the next pass. These are host scheduling, so one pass is modelled.
- Image loading: `new Image`, `crossOrigin`, `drawImage`, `getImageData` and the fallback to the default image. These are browser I/O. The loaded pixels and the image size are parameters of the constructor and of `Load`, which keep only the geometry arithmetic of `onload`.
- The asynchronous timing of `onload`: a pass may run between an orientation change and the reload that re-derives the geometry. The model covers this by specifying `Iterate` for any stored geometry (`PassPairs`, `StaleGeometryOverruns`, `StaleGeometryWraps`), not by modelling the timing.
- The `constants` object with its canvas and live getters. This is DOM plumbing, replaced by the class's fields.
- The dat.GUI panel, `alertChange` and the `window.onresize` wiring. These are UI callbacks. A control writes the changed field of the configuration and `alertChange` runs `rebuild`; a resize runs `rebuild` directly. `rebuild` remaps the threshold (`Rebuild`) and then starts a reload whose `onload` is `Load`.
- `start` and its `running` flag. It only guards the first calls to `draw` and `iterate`.
- The code after the `return` in `compare`, which can never run.
- `console` logging.
- IEEE-754 rounding of `Math.pow`, of the strength multiplication and of the subtraction. Reals are used instead. The store into the clamped array is modelled exactly on that real value.
- Sorter.PixelSorter.Iterate: requires a positive row width. An image of width zero, on which the source's loop does nothing, is excluded.
