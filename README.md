# Image Date Editor — display normalisation and navigation, in Dafny

This project models the logic of `image_date_editor.py`, a small Tk viewer
that walks through the images of a folder and rewrites their EXIF date.
Two parts of it are modelled:

* **The display-normalisation pipeline** (`_to_displayable_rgb` and its
  helpers). Any decoded image becomes an RGB image of its upright size. The
  pipeline reads the TIFF hints from the image's two tag tables
  (`tag_v2` first, then `tag`): PhotometricInterpretation (tag 262, section 3
  of TIFF 6.0) and MinSampleValue / MaxSampleValue (tags 280 and 281,
  section 8 of TIFF 6.0). The source comment at line 104 calls these tags
  SMinSampleValue / SMaxSampleValue, which are tags 340 and 341 (section 19);
  the model reads 280 and 281, as the code does. It then dispatches on the mode. Palette, alpha, colour-space,
  16-bit, 32-bit integer or float, bilevel and 8-bit gray images each take
  their own branch, and every other mode takes a fallback. Wide samples are
  rescaled linearly to 0..255. Alpha is composited onto white. WhiteIsZero
  8-bit gray and RGB images are inverted (`255 - v`).
* **The navigation state** of the viewer. This covers the list of image
  files filtered by extension, the index moved by Previous and Next, the
  image on screen and the enabled state of the two buttons.

An image is a mode string, a width, a height, one sequence of samples per
band, and the two optional tag tables (`Raster.Image`). Samples are `real`,
so float images and the exact rescale need no special encoding. The
imaging-library calls that the pipeline does not interpret are the fields of
`Raster.Pillow`: `exif_transpose`, and `convert('RGB')` on palette, CMYK,
YCbCr and unnamed modes. `Raster.Sound` requires that the transpose returns
a well-formed image of the same mode and size (a quarter turn swaps width
and height), and that a conversion yields a well-formed RGB image of the
same size. A `None` result from either stands for an exception.

Modules: `Options`, `TiffTags` (tag tables and the lookup loop), `Raster`
(image, shape, conversions), `TiffMeta` (the TIFF hints), `Polarity`,
`Rescale`, `Alpha`, `Display` (the pipeline and the RGB safety net of
`show_image`) and `Viewer` (file filter, navigation, the
`ImageDateEditor` class).

Two details of the code that the model keeps:

* `_get_tiff_smin_smax` keeps an absent tag as `None` beside a parsed one,
  and the rescale trusts only a pair with both present
  (`TiffMeta.SampleBounds`, `Rescale.Bounds`).
* Rounding is left to the library's float-to-8-bit cast, and the model
  keeps only that cast's clipping (`Rescale.Clip8`).

## Model

| member | source | states |
|---|---|---|
| `TiffTags.TagGetFirstUsable` | image_date_editor.py:85-97 | The first table that exists, is non-empty and does not raise decides the lookup. Its answer is the value, the first element of a sequence, or None for an absent code. |
| `TiffTags.TagGetNoneUsable` | image_date_editor.py:85-97 | When no table is usable the lookup gives None. |
| `TiffMeta.TiffGetPrefersV2` | image_date_editor.py:85-97 | A usable `tag_v2` answers alone, and an absent code there gives None without consulting `tag`. |
| `TiffMeta.TiffGetFallsBack` | image_date_editor.py:85-97 | A missing, empty or raising `tag_v2` hands the lookup to `tag`. When neither table is usable the result is None. |
| `TiffMeta.SampleBounds` | image_date_editor.py:103-112 | An absent tag stays None. A bound is returned only when its own value parsed and the other did not fail. If either fails to parse, both are None. |
| `Polarity.InvertIfWhiteIsZero` | image_date_editor.py:114-121 | The image is unchanged unless the photometric value is 0 and the mode is L or RGB. An inverted image keeps mode and size, and each sample v becomes 255 - v. |
| `Polarity.InvertTwice` | image_date_editor.py:114-121 | Applying the polarity step twice restores the original samples. |
| `Rescale.LinearEndpoints` | image_date_editor.py:135-136 | The exact map sends lo to 0 and hi to 255. |
| `Rescale.LinearMonotone` | image_date_editor.py:135-136 | The exact map preserves order, strictly for distinct samples. |
| `Rescale.LinearRange` | image_date_editor.py:135-136 | A sample between lo and hi maps into 0..255. |
| `Rescale.Clip8` | image_date_editor.py:133-137 | The 8-bit cast returns a value in 0..255. It leaves such values alone and sends values below 0 to 0 and above 255 to 255. |
| `Rescale.SeqMin` | image_date_editor.py:128 | The data minimum is a sample and no sample is smaller. |
| `Rescale.SeqMax` | image_date_editor.py:128 | The data maximum is a sample and no sample is larger. |
| `Rescale.Bounds` | image_date_editor.py:127-130 | Declared bounds are used exactly when both are present and smax > smin. Otherwise the data's minimum and maximum are used, and an image with no pixels has none. The lower bound never exceeds the upper one. |
| `Rescale.ScaleSample` | image_date_editor.py:132-137 | Every output sample lies in 0..255. A missing or flat range is cast directly, so the map never divides by zero. |
| `Rescale.RescaleToGray` | image_date_editor.py:123-142 | The result is a well-formed one-band L image of the same size, with one scaled sample per input sample. |
| `Rescale.RescaleFromExtrema` | image_date_editor.py:127-137 | With data-derived bounds and a non-flat image, each output is the exact linear image of its sample, so clipping never applies. The minimum maps to 0 and the maximum to 255. |
| `Rescale.RescaleFromDeclared` | image_date_editor.py:127-137 | With trusted declared bounds, smin and anything below it map to 0, smax and anything above it map to 255, and samples between are mapped linearly. |
| `Rescale.RescaleFlat` | image_date_editor.py:132-133 | A flat image with value v takes the guard, and every output is the direct cast of v. |
| `Rescale.RescaleMonotone` | image_date_editor.py:123-137 | Whichever bounds are chosen, a smaller sample never yields a larger output. |
| `Alpha.OverProperties` | image_date_editor.py:146-153 | Compositing onto white turns alpha 0 into 255 and leaves alpha-255 colour unchanged. 8-bit inputs give an 8-bit result. |
| `Alpha.FlattenAlpha` | image_date_editor.py:144-154 | RGBA and LA always yield RGB of the same size. Each RGBA channel is its colour composited over white through the alpha band, and each LA channel is the gray composited the same way. Any other mode gives exactly `convert('RGB')`. |
| `Alpha.FlattenAlphaPixel` | image_date_editor.py:144-153 | An alpha-0 pixel becomes white whatever its colour. An alpha-255 pixel keeps its colour (its gray repeated, for LA), for RGBA and LA alike. |
| `Raster.Oriented` | image_date_editor.py:164-168 | The orientation step keeps the mode and the size or swaps width and height. A transpose that raises leaves the image as it was. |
| `Raster.ConvertRgb` | image_date_editor.py:216-222 | `convert('RGB')` yields RGB of the same size when it succeeds, and it cannot fail for RGB, L or bilevel input. |
| `Raster.Broadcast` | image_date_editor.py:211-214 | An 8-bit gray image becomes RGB of the same size with three copies of its band. |
| `Raster.BitToGray` | image_date_editor.py:205-209 | A bilevel image becomes L of the same size: 0 stays 0 and anything else becomes 255. |
| `Raster.WhiteCanvas` | image_date_editor.py:219-220 | The substitute canvas is RGB of the requested size, and every sample is 255. |
| `Display.ToInt32` | image_date_editor.py:194-195 | Converting a 16-bit gray image to 32-bit integers keeps its size and every sample. |
| `Display.ToDisplayableRgb` | image_date_editor.py:156-222 | Every branch yields a well-formed RGB image of the upright size. There is no result exactly when a palette, CMYK or YCbCr conversion raises, which the code does not guard. |
| `Display.GrayToRgb` | image_date_editor.py:195-214 | The 8-bit gray branches end in RGB of the same size. Each channel is the gray sample, or 255 minus it for a WhiteIsZero image. |
| `Display.ConvertedPolarity` | image_date_editor.py:175-191 | Palette, CMYK and YCbCr images are converted to RGB first, and polarity is resolved on that RGB result. |
| `Display.BilevelPixel` | image_date_editor.py:205-209 | A bilevel pixel is shown black when it is 0 and white otherwise, and the two swap in a WhiteIsZero image. |
| `Display.FallbackCanvas` | image_date_editor.py:216-222 | A mode that no branch names, whose conversion raises, is shown as a white canvas of the upright size. The canvas is black in a WhiteIsZero image, because the polarity step follows. |
| `Display.SafetyNet` | image_date_editor.py:240-245 | The safety net always yields RGB of the same size and leaves an RGB image alone. |
| `Display.SafetyNetIdle` | image_date_editor.py:240-245 | The safety net never changes the pipeline's output. |
| `Display.GrayPolarity` | image_date_editor.py:211-214 | For 8-bit gray, each output channel is the sample, or 255 minus it when the image is WhiteIsZero. |
| `Display.WidePolarityAfterRescale` | image_date_editor.py:193-203 | For 16-bit, 32-bit and float gray, the rescale comes first, and polarity is resolved on its 8-bit result. |
| `Display.TransparentPixel` | image_date_editor.py:181-185 | A fully transparent pixel comes out white. Because polarity is resolved after flattening, it comes out black in a WhiteIsZero image. |
| `Display.RgbPassThrough` | image_date_editor.py:216-222 | An upright, BlackIsZero RGB image comes out with its samples unchanged. |
| `Viewer.Lower` | image_date_editor.py:18 | Lower-casing keeps the length and maps each character by itself. |
| `Viewer.ExtensionIgnoresCase` | image_date_editor.py:17-18 | Any name ending in any capitalisation of a recognised extension is accepted. |
| `Viewer.ImageFiles` | image_date_editor.py:17-18 | The file list holds exactly the listed names whose lower-cased form ends in .jpg, .jpeg, .png, .tif, .tiff, .bmp or .gif. |
| `Viewer.ImageFilesAppend` | image_date_editor.py:17-18 | The filter keeps the listing's order, because it distributes over concatenation. |
| `Viewer.NavigationProperties` | image_date_editor.py:264-280 | Both moves keep the index valid. A button is enabled exactly when its move would change the index, and Next and Previous undo each other. |
| `Viewer.NextPressesFrom` | image_date_editor.py:277-280 | k presses of Next from index i reach i + k, stopping at the last file. |
| `Viewer.NextReachesEveryFile` | image_date_editor.py:277-280 | From the first file, Next reaches every file in turn. |
| `Viewer.ImageDateEditor.Preview` | image_date_editor.py:230-245 | What is shown for a file is RGB of the upright size. Nothing is shown exactly when decoding fails or an unguarded conversion raises. |
| `Viewer.ImageDateEditor.constructor` | image_date_editor.py:14-81 | The viewer keeps the filtered file list, starts at index 0 and shows the first file when there is one. When nothing is shown, both buttons keep the enabled state the toolkit creates them with. |
| `Viewer.ImageDateEditor.ShowImage` | image_date_editor.py:226-270 | The index is unchanged and the screen holds the current file's preview. The buttons are refreshed to idx > 0 and idx < len - 1 only after a successful load. |
| `Viewer.ImageDateEditor.PrevImage` | image_date_editor.py:272-275 | The method steps back only when idx > 0 and then shows the new file. At index 0 nothing changes. After a failed load both buttons keep their old states. The class invariant is kept. |
| `Viewer.ImageDateEditor.NextImage` | image_date_editor.py:277-280 | The method steps on only when idx < len - 1 and then shows the new file. At the last file nothing changes. After a failed load both buttons keep their old states. The class invariant is kept. |

## Left out

- Widget construction, layout, labels, message boxes, the status line text and key bindings (lines 27-81, 258-262, 349-375): user interface.
- `Image.open`, `os.listdir`, `os.path.getsize` and `default_pictures_dir`: file-system I/O. The directory listing and the decoder are parameters of the viewer's constructor.
- `set_date`, `update_image_date` and `dateparser.parse` (lines 282-339): they call a foreign date parser and re-save files through the imaging library.
- `ImageOps.exif_transpose` and `convert('RGB')` on palette, CMYK, YCbCr and unnamed modes are not interpreted. They are parameters constrained only to keep the size and to yield RGB. Whether the transposed image still carries its tag tables is left to that parameter.
- The thumbnail scaling and `ImageTk.PhotoImage` (lines 248-250). The model keeps the image before it is scaled down.
- Rescale.Clip8: clips but does not round. The float32 arithmetic of `convert('F')`, `ImageMath.eval` and the cast to 8 bits is modelled in exact `real` arithmetic. NaN samples or bounds are not modelled.
- Alpha.Over: the blend is exact; the integer rounding of `paste(mask=...)` and `alpha_composite` to whole numbers is not modelled.
- Rescale.RescaleToGray: the exception fallbacks of lines 138-142 are not modelled. The step always yields an L image.
- Raster.WellFormed: 8-bit samples are bounded to 0..255 but not required to be whole numbers, because rounding is not modelled.
- Viewer.Lower: lower-cases only A-Z. No other character lower-cases to a string ending in one of the extensions' letters, so the accepted names are the same.
- TiffTags.Scalar: a string that `float()` would parse is treated as non-numeric.
