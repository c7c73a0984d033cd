# Auto-crop: border detection and crop selection

A Dafny model of the analysis core of the Auto-crop macro (`Auto-crop.py`), which detects black or uniform borders in the frames of a video script and proposes a `Crop(left, top, -right, -bottom)` call. The model has four modules:

- `FrameScan` (`framescan.dfy`) models `autocrop_frame`. A frame is a `width x height` grid of colour triples, indexed `[y][x]`. Two reference colours are read, the top-left and the bottom-right pixel. A pixel differs from a reference when one of its channels is more than `tol` away from the same channel. The crop value of a side is the index of the first line, counted inwards from that side, that holds a differing pixel. A side with no differing line gets 0. Top and left compare with the top-left colour; bottom and right compare with the bottom-right colour. `IsBorder` states this, and `ScanPass` proves that the source's nested loops compute it. Those loops have done-flags and an early exit, and they walk two sides at once. The source writes the row pass and the column pass out separately, with the same structure. Here one method `ScanPass` serves both, parameterised by `Pass` (`Rows` or `Columns`).
- `CropValue` (`cropvalue.dfy`) models `get_crop_value`. It counts the samples in a dictionary and takes a key with the highest count. It returns that key if it occurs in more than half of the samples; otherwise it returns the smallest sample. `CropValueOf` is the specification. It gives the majority value when there is one and the minimum otherwise, and it is independent of how ties in count are broken.
- `Subsampling` (`subsampling.dfy`) models `check_subsampling`. It aligns a crop value to the colorspace's chroma block: 2 horizontally for yuy2 and yv16, 4 horizontally for yv411, and 2 in both directions for yv12. It rounds up when overcropping and down otherwise. Colorspace names are matched without regard to case.
- `AutoCrop` (`autocrop.dfy`) models the glue in `autocrop`. It measures every sampled frame, transposes the measurements, chooses one value per component and aligns it. Components 0 and 2 (left and right) are the horizontal ones.

Python integers are unbounded, so they are modelled as `int`. Python's `%` and `divmod` by a positive constant are floor-based and agree with Dafny's Euclidean `%` and `/`. Python 2 floor division `len(seq) / 2` is written as `|s| / 2` on a `nat`.

## Model

| member | source | states |
|---|---|---|
| FrameScan.ScanPass | Auto-crop.py:130-172 | The nested row (or column) loops with done-flags and early exit yield, for the near and the far side, the least line index whose line holds a pixel differing from that side's reference colour by more than `tol` in some channel, or 0 if no line does. |
| FrameScan.AutocropFrame | Auto-crop.py:110-174 | Returns `(left, top, right, bottom)`, each value the border of its side as above, with left and right below the width and top and bottom below the height. |
| FrameScan.BorderUnique | Auto-crop.py:128-174 | A side has exactly one crop value, so the result does not depend on the order of the search. |
| FrameScan.BorderLinesUniform | Auto-crop.py:132-150 | When a side's value is r, every pixel of the first r lines from that side is within `tol` of the side's reference colour in all channels. |
| FrameScan.ScanPixel | Auto-crop.py:134-147 | Examining one pixel marks its side as found at the current line exactly when the side was not yet found and that pixel differs. |
| FrameScan.NextLine | Auto-crop.py:132-149 | Finishing a line without finding a side puts that line among the lines known not to differ. |
| CropValue.GetCropValue | Auto-crop.py:176-190 | Returns the value that occurs on more than half of the samples if there is one, otherwise the minimum of the samples (`CropValueOf`). |
| CropValue.CountSamples | Auto-crop.py:179-181 | The counting dictionary has exactly the samples as keys, each mapped to its number of occurrences. |
| CropValue.MostFrequent | Auto-crop.py:182 | Returns a key of the dictionary whose count is at least every other key's count. |
| CropValue.SmallestFrom | Auto-crop.py:186-190 | The minimum loop started from the chosen key returns a value no larger than that key and no larger than any sample, which is that key or a sample. |
| CropValue.MajorityByFloorDivision | Auto-crop.py:183 | `count > len / 2` with floor division holds exactly when the count is more than half of the length. |
| CropValue.MajorityUnique | Auto-crop.py:182-184 | At most one value occurs on more than half of the samples. |
| CropValue.MajorityWins | Auto-crop.py:182-184 | If a value occurs on more than half of the samples, the crop value is that value. |
| CropValue.MinimumOtherwise | Auto-crop.py:185-190 | If no value is a majority, the crop value is a sample no larger than any sample. |
| CropValue.CropValueIsSample | Auto-crop.py:176-190 | The crop value is always one of the samples. |
| CropValue.Minimum | Auto-crop.py:186-190 | The minimum is a sample and is no larger than any sample. |
| CropValue.TwoCountsBounded | Auto-crop.py:179-183 | The counts of two distinct values add up to at most the number of samples. |
| Subsampling.CheckSubsampling | Auto-crop.py:192-210 | The result is a multiple of the colorspace's block size in the given direction. With overcrop it lies in `[value, value + block)`; without, in `(value - block, value]`. |
| Subsampling.CheckSubsamplingUnique | Auto-crop.py:192-210 | Any multiple of the block size in that window is the result, so the contract determines the function. |
| Subsampling.CheckSubsamplingIdempotent | Auto-crop.py:192-210 | Applying the alignment to an aligned value returns it unchanged. |
| Subsampling.CheckSubsamplingIgnoresCase | Auto-crop.py:194 | Lower-casing the colorspace name first does not change the result. |
| Subsampling.HorizontalHalving | Auto-crop.py:195-200 | For yuy2 and yv16, an odd horizontal value becomes value + 1 with overcrop and value - 1 without; every other value is unchanged. |
| Subsampling.HorizontalQuartering | Auto-crop.py:201-204 | For yv411, a horizontal value that is not a multiple of 4 becomes the next multiple of 4 above (overcrop) or below; every other value is unchanged. |
| Subsampling.BothWaysHalving | Auto-crop.py:205-210 | For yv12, an odd value in either direction moves by one to an even value, up with overcrop and down without, and an even value is unchanged. Any colorspace other than yuy2, yv16, yv411 and yv12 leaves the value unchanged. |
| AutoCrop.CombineCropValues | Auto-crop.py:97-102 | With samples, the result has exactly four values, and value k is `check_subsampling(get_crop_value(column k), colorspace, k even, overcrop)`. Without samples, the result is empty. |
| AutoCrop.Autocrop | Auto-crop.py:89-102 | One measurement per sampled frame, each the frame's `(left, top, right, bottom)` borders, and the final values combined from them as above. |
| AutoCrop.UnanimousSamples | Auto-crop.py:97-102 | When every sampled frame measures the same crop, each final value is that crop's component, aligned to the colorspace. |
| AutoCrop.FinalValueBounds | Auto-crop.py:97-102 | The value chosen for a component is one some frame measured. The final value is at least that value with overcrop and at most it without. |

## Left out

- Sample-frame selection (`float_range`, Auto-crop.py:83-87) steps through the clip with floating-point arithmetic and `round`. The model takes the sampled frames, or their measurements, as given.
- Pixel acquisition (Auto-crop.py:112-124) reads pixels from the host's clip (`GetPixelRGB`/`GetPixelYUV`) or from a rendered wx bitmap. The model takes a frame as a grid of colour triples. It does not bound channel values to 0-255; the scan does not depend on that bound.
- Options, the settings prompt and saving the settings (Auto-crop.py:54-75) are host preferences and UI. `tol`, `overcrop` and the colorspace are parameters.
- The error message for an unloadable script (Auto-crop.py:78-82) and the progress box with its cancellation (Auto-crop.py:88-95) are host UI.
- Inserting the `Crop(...)` text and refreshing the preview (Auto-crop.py:103-107) are editor I/O. The order of the final values, left, top, right and bottom, is modelled. The negation of right and bottom happens only in that text.
- CropValue.MostFrequent: among keys with equal highest count, the source takes the first in the dictionary's order, which Python leaves unspecified. The model takes the first in sample order. `GetCropValue` proves that the choice cannot change the result.
- Subsampling.ToLower lower-cases ASCII letters only, as `str.lower()` does on a Python 2 byte string. Other characters cannot turn a name into one of the four colorspace names anyway.
- The source reads width and height from the clip for each frame. The model takes them from each frame value, which `Frame.Valid` requires to be at least 1 and consistent with the grid.
