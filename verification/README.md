# pytupi core, modelled in Dafny

pytupi is a Python 2 toolkit for ship detection in synthetic aperture radar
(SAR) images from the TerraSAR-X and Sentinel-1 satellites. This project
models the index, layout and grid arithmetic that sits between the vendor
product files and the detector, and proves properties of it:

- **COSAR decoding** (`Cosar`): the TerraSAR-X Level 1B binary raster is a
  stack of bursts. Each burst is a header block four row-widths long, whose
  first 20 bytes are five big-endian signed 32-bit fields, followed by
  `azimuth_size` rows of `range_size + 2` samples. Each sample is a
  big-endian int16 real part and an int16 imaginary part. The decoder works
  on an in-memory byte sequence. It is proved against an encoder: decoding
  an encoded stack gives the stack back.
- **TerraSAR-X sensor and image** (`TerraSarX`, `TsxProduct`, `GeoRef`,
  `TsxImage`): the image files listed in the annotation, the assembly of a
  geocoded image, the product metadata accessors, the UTC timestamp
  arithmetic, the GEOREF grid fill and its projections, grid-position and
  bilinear geolocation, and region-of-interest copies.
- **Sentinel-1 reader** (`Sentinel`): manifest decoding, product ids,
  deburst of SLC rasters, and grid-cell search with bilinear geolocation.
- **CFAR tools** (`Cfar`): the background and target kernels, border
  clearing, and the land filter for detections.
- **GSHHG coastline layer** (`Gshhg`): polygon edges and rings, the
  point-over-land test, and the relevant-polygon set.
- **Small utilities**: `RoiFrame` (region offsets, centres, cuts, printed
  form), `RoiTools` (the in-place low-value fill) and `Kml` (the KML
  writer).

Shared pieces are `Wrappers` (Option and Result), `PyOps` (Python 2
integer division, `int()`, `round`, slices and negative list indices),
`Text` (decimal `%d`/`%02d` text and its parser) and `Interp` (the
`_bilinear` helper that the two readers each define identically).

Foreign calls become inputs. XML trees, GDAL rasters and `strptime` dates
are given as already-parsed records. OGR `Contains`/`Intersects`, the
geolocation and land tests of the land filter, and the `%f` and `str`
formatters of the KML writer are function parameters. Times are seconds,
held as reals. `get_sensor_name` is the constant `SensorName` in `TerraSarX`
("TerraSAR-X") and in `Sentinel` ("Sentinel").

## Model

| member | source | states |
|---|---|---|
| Cosar.Int16Bytes | pytupi/sar/terrasar/terrasarx.py:71 | every int16 has a two-byte big-endian form that reads back to it |
| Cosar.Int32Bytes | pytupi/sar/terrasar/terrasarx.py:70 | every int32 has a four-byte big-endian form that reads back to it |
| Cosar.DecodeRow | pytupi/sar/terrasar/terrasarx.py:88 | 4w bytes give exactly w samples |
| Cosar.DecodeRows | pytupi/sar/terrasar/terrasarx.py:86-89 | n row blocks give n rows of w samples each |
| Cosar.BroadcastRow | pytupi/sar/terrasar/terrasarx.py:88-89 | a row for which the file held one sample has that sample in every one of its w columns |
| Cosar.RowsRead | pytupi/sar/terrasar/terrasarx.py:86-89 | the n rows read iff the file holds them all, or all but the last and exactly one sample of the last; then there are n rows of w samples and the position stays within the file |
| Cosar.BurstAt | pytupi/sar/terrasar/terrasarx.py:82-91 | a burst that reads advances strictly and stays within the file |
| Cosar.RowWidth | pytupi/sar/terrasar/terrasarx.py:75-81 | the row width is 0 or at least 2, and it exists iff the file has 20 header bytes and field 2 is -2 or at least 0 (-1 leaves a 16-byte header that does not unpack; below -2 numpy refuses the negative shape) |
| Cosar.LoadCos | pytupi/sar/terrasar/terrasarx.py:60-92 | the while loop over header blocks returns exactly `DecodeCos`: None for a range size of -2, otherwise the row width comes from the first header's field 2, each header's field 3 gives its burst's row count, the bursts are stacked in file order, and each failure is reported |
| Cosar.DecodeCosStart | pytupi/sar/terrasar/terrasarx.py:75-81 | after the first header fixes the row width, decoding reads bursts from byte 0 |
| Cosar.ReadBurst | pytupi/sar/terrasar/terrasarx.py:82-91 | one loop turn: a short header, a negative row count or a file that ends inside the rows fails; otherwise it gives `BurstAt` |
| Cosar.ReadBurstRows | pytupi/sar/terrasar/terrasarx.py:86-89 | the row loop gives exactly `RowsRead`: the n rows decoded in order when the file holds them, the last row broadcast from its one sample when only that much of it is left, None otherwise |
| Cosar.ShortRow | pytupi/sar/terrasar/terrasarx.py:86-89 | when the file ends inside row i, the rows read so far stand only if row i is the last and holds exactly one sample |
| Cosar.RowsReadAll | pytupi/sar/terrasar/terrasarx.py:86-89 | when all n rows fit, they are the rows read and the position is just after them |
| Cosar.DecodeRowsSnoc | pytupi/sar/terrasar/terrasarx.py:87-89 | reading one more row appends its decoded samples |
| Cosar.AppendToStep | pytupi/sar/terrasar/terrasarx.py:90 | stacking a burst under the image read so far, then the rest, is the same as stacking all of them |
| Cosar.ReadBurstsShape | pytupi/sar/terrasar/terrasarx.py:78-86 | every row of every burst read has the row width |
| Cosar.ConcatShape | pytupi/sar/terrasar/terrasarx.py:90 | stacking keeps the row width |
| Cosar.DecodedRowWidth | pytupi/sar/terrasar/terrasarx.py:77-78 | a decoded raster (not None) has a row width of at least 2, and every row has `range_size + 2` samples, `range_size` being the first header's field 2 |
| Cosar.EncodeRow | pytupi/sar/terrasar/terrasarx.py:71-88 | the writer puts 4 bytes per sample |
| Cosar.EncodeRows | pytupi/sar/terrasar/terrasarx.py:86-89 | the writer puts 4w bytes per row |
| Cosar.EncodeHeader | pytupi/sar/terrasar/terrasarx.py:79 | a header block is four row widths of 4-byte samples |
| Cosar.DecodeRowEncodeRow | pytupi/sar/terrasar/terrasarx.py:71-88 | a written row of int16 samples decodes back to itself |
| Cosar.DecodeRowsEncodeRows | pytupi/sar/terrasar/terrasarx.py:86-89 | written rows decode back to themselves |
| Cosar.FieldsOfEncodeHeader | pytupi/sar/terrasar/terrasarx.py:77-84 | a written header holds the range size in field 2 and the row count in field 3 |
| Cosar.HeaderFieldOfPrefix | pytupi/sar/terrasar/terrasarx.py:75-77 | the fields read from a file's first 20 bytes are those of its first header block |
| Cosar.SliceOfConcat | pytupi/sar/terrasar/terrasarx.py:91 | the part of a file after a prefix is found at the prefix's length |
| Cosar.BurstEnd | pytupi/sar/terrasar/terrasarx.py:79-91 | a written burst ends after the position where it starts |
| Cosar.PlacedAfter | pytupi/sar/terrasar/terrasarx.py:81-91 | a header and body written after a prefix sit at the prefix's length |
| Cosar.BurstAtComplete | pytupi/sar/terrasar/terrasarx.py:82-91 | a complete header announcing n rows, followed by the n rows, reads as that burst and ends after the rows |
| Cosar.AzimuthOfWrittenHeader | pytupi/sar/terrasar/terrasarx.py:84 | a written header announces its burst's row count |
| Cosar.RowsOfWrittenBody | pytupi/sar/terrasar/terrasarx.py:86-89 | a written burst body decodes back to the burst |
| Cosar.BurstAtEncoded | pytupi/sar/terrasar/terrasarx.py:82-91 | a burst written at a position is read back and ends right after its rows |
| Cosar.BurstAtWrittenBody | pytupi/sar/terrasar/terrasarx.py:82-91 | a header announcing a burst's row count, followed by its written rows, reads back as that burst |
| Cosar.ReadBurstsCons | pytupi/sar/terrasar/terrasarx.py:82-91 | one loop turn over a written burst, then the rest, reads all the bursts |
| Cosar.ReadBurstsEncoded | pytupi/sar/terrasar/terrasarx.py:82-91 | reading from where bursts are written gives them back in order, and stops exactly at the end of the file |
| Cosar.BurstEncodedAfter | pytupi/sar/terrasar/terrasarx.py:79-91 | a burst written after a prefix sits at the prefix's length |
| Cosar.EncodeCosIsEncodedAt | pytupi/sar/terrasar/terrasarx.py:79-91 | a written file holds its bursts one after another from its start |
| Cosar.ConcatAssoc | pytupi/sar/terrasar/terrasarx.py:91 | the regrouping of written parts used by the layout lemmas |
| Cosar.EncodedAtCons | pytupi/sar/terrasar/terrasarx.py:82-91 | bursts are written from a position when the first one is and the rest follow it |
| Cosar.WellFormedTail | pytupi/sar/terrasar/terrasarx.py:86 | the bursts after the first are still well formed |
| Cosar.RowWidthEncoded | pytupi/sar/terrasar/terrasarx.py:75-78 | the row width read from a written file is the bursts' width |
| Cosar.RowWidthOfField | pytupi/sar/terrasar/terrasarx.py:77-78 | the row width is the first header's field 2 plus 2 |
| Cosar.ReadBurstsEncodeCos | pytupi/sar/terrasar/terrasarx.py:75-91 | a written file announces its bursts' row width, and its bursts read back in order |
| Cosar.DecodeCosEncodeCos | pytupi/sar/terrasar/terrasarx.py:60-92 | decoding a file written in the COSAR layout gives its bursts' rows stacked in file order: Σ azimuth_size rows of range_size + 2 samples |
| Cosar.AsWrittenRejectsSecondBurst | pytupi/sar/terrasar/terrasarx.py:90 | with `if img_map` as written, a valid two-burst file whose first burst has a row raises, while the corrected decoder returns every row |
| Cosar.StackSecondBurstFails | pytupi/sar/terrasar/terrasarx.py:90 | stacking as written fails at the second burst once the first has a row |
| TerraSarX.TerraSarX.constructor | pytupi/sar/terrasar/terrasarx.py:25-41 | keeps the parsed product and grid, and lists the annotation's image entries in document order with the image data format |
| TerraSarX.TerraSarX.LoadMetadata | pytupi/sar/terrasar/terrasarx.py:43-58 | one record per `imagedata` element, in document order, then the image data format |
| TerraSarX.TerraSarX.ChannelsAddressable | pytupi/sar/terrasar/terrasarx.py:104-114 | channel c names an image file iff −n ≤ c < n, for the n = `get_number_channels()` entries; negative channels count from the end |
| TerraSarX.TerraSarX.Outcome | pytupi/sar/terrasar/terrasarx.py:113-130 | the build succeeds iff the file decodes to a raster (not None, whose `shape` raises AttributeError), the three UTC times parse and both grids build; the first failing step decides the error; success gives the decoded raster |
| TerraSarX.TerraSarX.GetImage | pytupi/sar/terrasar/terrasarx.py:110-111 | same contract as `BuildSarImage` |
| TerraSarX.TerraSarX.BuildSarImage | pytupi/sar/terrasar/terrasarx.py:113-134 | a channel outside the list raises IndexError; otherwise it fails exactly as `Outcome` of that channel's file does, and on success gives a fresh image whose shape is the raster's, whose sizes are the product's column and row counts, and whose other fields are copied from the product and the grid |
| TerraSarX.TerraSarX.Assemble | pytupi/sar/terrasar/terrasarx.py:116-133 | a fresh image with the raster, its shape and every copied field |
| TerraSarX.TerraSarX.CopyProductValues | pytupi/sar/terrasar/terrasarx.py:119-127 | sets the centre time, the spacings, the calibration factor, the sizes, the grid spacings and the range times |
| TerraSarX.TerraSarX.CopyTimesAndGrids | pytupi/sar/terrasar/terrasarx.py:128-133 | sets the start and stop times, both grids, the resolutions and the calibration factor |
| TerraSarX.TerraSarX.OutcomeOfEncodedFile | pytupi/sar/terrasar/terrasarx.py:113-130 | a channel file written as COSAR bursts builds an image with those bursts stacked in file order, `range_size + 2` columns wide |
| TsxProduct.DaysBeforeYearStep | pytupi/sar/terrasar/_product.py:91 | the closed form of the days before a year grows by one year length per year |
| TsxProduct.DaysBeforeYearIsCount | pytupi/sar/terrasar/_product.py:91 | the closed form used by `timegm` equals counting the lengths of the years before |
| TsxProduct.DaysBeforeMonthIsCount | pytupi/sar/terrasar/_product.py:91 | the month table equals counting the lengths of the months before |
| TsxProduct.TimestampOfEpoch | pytupi/sar/terrasar/_product.py:88-92 | 1970-01-01T00:00:00.000000 is timestamp 0 (UTC, no time-zone shift) |
| TsxProduct.TimestampMonthAndYearLengths | pytupi/sar/terrasar/_product.py:88-92 | consecutive month starts are the month's days × 86400 s apart, and consecutive year starts the year's days × 86400 s |
| TsxProduct.TimestampOfDay | pytupi/sar/terrasar/_product.py:91 | within a day the timestamp counts seconds from midnight plus microseconds / 10^6, and the next day is 86400 s later |
| TsxProduct.RangeSize | pytupi/sar/terrasar/_product.py:61-62 | `get_range_size` is the column count |
| TsxProduct.AzimuthSize | pytupi/sar/terrasar/_product.py:64-65 | `get_azimuth_size` is the row count |
| TsxProduct.AzimuthTime | pytupi/sar/terrasar/_product.py:45-53 | `[start, stop]`: the scene's start and stop as UTC timestamps |
| TsxProduct.RangeTime | pytupi/sar/terrasar/_product.py:55-59 | `[firstPixel, lastPixel]` |
| TsxProduct.GetBBox | pytupi/sar/terrasar/_product.py:78-86 | the loop flattens n corners into 2n values, the longitude then the latitude of each corner, in corner order |
| TsxProduct.CornersOf | pytupi/sar/terrasar/_product.py:78-86 | a flattened box is read back as one (lat, lon) corner per pair |
| TsxProduct.BBoxRoundTrip | pytupi/sar/terrasar/_product.py:78-86 | the flattening loses nothing: reading the box back gives the corners |
| GeoRef.EmptyGrid | pytupi/sar/terrasar/_georef.py:47 | `num_range` rows of `num_azimuth` empty cells (a negative count gives no rows or columns, as `range` does) |
| GeoRef.Place | pytupi/sar/terrasar/_georef.py:61 | storing a point fails exactly when `[irg-1][iaz-1]` is not a valid Python index of the grid, negative indices wrapping; the grid keeps its shape |
| GeoRef.Filled | pytupi/sar/terrasar/_georef.py:47-61 | storing the points in order succeeds iff every point's cell exists, and keeps the allocated shape |
| GeoRef.FilledLastWins | pytupi/sar/terrasar/_georef.py:50-61 | each cell holds the data of the last point stored there, and a cell no point reaches stays empty |
| GeoRef.Load | pytupi/sar/terrasar/_georef.py:29-61 | the fill loop succeeds iff `Filled` does, and then gives the header with that grid, whose shape is `num_range` × `num_azimuth` |
| GeoRef.LatLonGrid | pytupi/sar/terrasar/_georef.py:103-109 | an empty grid raises IndexError; otherwise it succeeds iff every cell was filled, and then has the grid's shape with cell [x][y] = [lat, lon] of that point |
| GeoRef.IncGrid | pytupi/sar/terrasar/_georef.py:111-117 | an empty grid raises IndexError; otherwise it succeeds iff every cell was filled, and then has the grid's shape with cell [x][y] = the incidence angle of that point |
| GeoRef.LatLonGridOfLoaded | pytupi/sar/terrasar/_georef.py:50-61 | once loaded, every lat/lon cell is that of the last point listed for it |
| TsxImage.GridStep | pytupi/sar/terrasar/_tsximage.py:145-157 | fewer than two times raise IndexError, equal times raise ZeroDivisionError, and otherwise step × (t1 − t0) = size × spacing |
| TsxImage.CellIndex | pytupi/sar/terrasar/_tsximage.py:96-100 | the cell index `min(int(v), size−2)` raised to 0 lies in [0, size−2] and equals `int(v)` whenever that is already there |
| TsxImage.LatLonCell | pytupi/sar/terrasar/_tsximage.py:101-104 | with `qx`, `qy` the clamped `int(x)`, `int(y)`: the cell exists iff the grid is non-empty and rows `qx`, `qx+1` both have column `qy+1`; it is the four corners `[qx][qy], [qx+1][qy], [qx+1][qy+1], [qx][qy+1]` with offsets `x − qx` and `y − qy` |
| TsxImage.LatLonInBounds | pytupi/sar/terrasar/_tsximage.py:91-123 | on a rectangular grid of at least 2×2 points all four reads are in bounds for any real position, so latitude and longitude always exist |
| TsxImage.LatLonAtGridNode | pytupi/sar/terrasar/_tsximage.py:91-123 | at every grid node, the last row and column included, latitude is component 0 and longitude component 1 of that node |
| TsxImage.IncInBoundsIff | pytupi/sar/terrasar/_tsximage.py:125-136 | with no clamp, the incidence reads are in bounds iff `int(x) <= rows−2` and `int(y) <= cols−2` |
| TsxImage.IncAtGridNode | pytupi/sar/terrasar/_tsximage.py:125-136 | at the first corner of each cell the incidence is that node's value |
| TsxImage.TsxImage.constructor | pytupi/sar/terrasar/_tsximage.py:10-27 | every field starts empty |
| TsxImage.TsxImage.GeoGridPos | pytupi/sar/terrasar/_tsximage.py:84-89 | succeeds iff both grid steps exist and are non-zero; then each grid position times its step gives back the pixel coordinate |
| TsxImage.TsxImage.ConvertToGeoCoordinates | pytupi/sar/terrasar/_tsximage.py:54-60 | the result is `[lon, lat]` at the grid position of (x, y), longitude first, and fails where either lookup fails |
| TsxImage.TsxImage.GeoCoordinatesExist | pytupi/sar/terrasar/_tsximage.py:54-60 | on a 2×2 or larger rectangular grid, converting fails only where the grid steps do |
| TsxImage.TsxImage.IncidenceAngle | pytupi/sar/terrasar/_tsximage.py:32-37 | fails with the grid-step error when a step is missing or zero; otherwise it is the incidence lookup at the grid position of (x, y) |
| TsxImage.TsxImage.IncidenceAngleInBounds | pytupi/sar/terrasar/_tsximage.py:32-37 | on a rectangular rows × cols incidence grid, at grid positions with non-negative integer parts, the incidence angle exists iff both grid steps exist and are non-zero and `int` of the two grid coordinates is at most rows−2 and cols−2 |
| TsxImage.TsxImage.IncidenceAngleAtNode | pytupi/sar/terrasar/_tsximage.py:32-37 | at an image position whose grid position is node (i, j), with i ≤ rows−2 and j ≤ cols−2, the incidence angle is `inc_grid[i][j]` |
| TsxImage.TsxImage.GetRoi | pytupi/sar/terrasar/_tsximage.py:71-82 | a fresh array shaped like `img[y0:y1, x0:x1]`, clamped as numpy does, with result[j][i] = complex(r, i) of the sample at (top + j, left + i) |
| Interp.Bilinear | pytupi/sar/terrasar/_tsximage.py:138-143 | returns f0 at (0,0), f1 at (1,0), f2 at (1,1) and f3 at (0,1) |
| Interp.LerpBetween | pytupi/sar/terrasar/_tsximage.py:140-142 | a straight-line interpolation stays between its ends |
| Interp.BilinearIsNestedLerp | pytupi/sar/terrasar/_tsximage.py:138-143 | the formula is a line interpolation along y of two line interpolations along x |
| Interp.BilinearBounded | pytupi/sar/terrasar/_tsximage.py:138-143 | inside the cell the value stays within the smallest and largest corner values |
| Sentinel.DecodeManifest | pytupi/sar/sentinel/sentinel.py:23-32 | the keys are exactly the repIDs of the manifest, and each key maps to the hrefs filed under it in document order |
| Sentinel.HrefsOfAbsent | pytupi/sar/sentinel/sentinel.py:26-31 | a repID that labels no data object has no hrefs |
| Sentinel.HrefOfEveryObject | pytupi/sar/sentinel/sentinel.py:26-31 | every data object's href is found under its own repID |
| Sentinel.Basename | pytupi/sar/sentinel/sentinel.py:19 | the base name is a '/'-free suffix of the path |
| Sentinel.Split | pytupi/sar/sentinel/sentinel.py:53 | splitting gives at least one part and no part holds the separator |
| Sentinel.JoinSplit | pytupi/sar/sentinel/sentinel.py:53 | joining the split parts with the separator gives the string back |
| Sentinel.SplitJoin | pytupi/sar/sentinel/sentinel.py:53-54 | splitting the join of separator-free parts gives the parts back |
| Sentinel.JoinPrefix | pytupi/sar/sentinel/sentinel.py:53-54 | joining the first k parts gives a prefix of the joined whole |
| Sentinel.ProductIdIsPrefix | pytupi/sar/sentinel/sentinel.py:53-54 | a product id is the directory's base name, a dot, and a prefix of the file's base name holding exactly four '-'-separated parts |
| Sentinel.ProductIndexes | pytupi/sar/sentinel/sentinel.py:48-56 | a missing annotation group is a KeyError; otherwise the result succeeds exactly when every file name has four parts, its keys are the positions 0..n-1 and position i holds file i's product id |
| Sentinel.IndexProducts | pytupi/sar/sentinel/sentinel.py:52-55 | the `enumerate` loop succeeds exactly when every file name has four parts, and then maps each position 0..n-1 to that file's product id |
| Sentinel.ParseProductType | pytupi/sar/sentinel/sentinel.py:71-72 | "SLC" and "GRD" are accepted as those types and every other text is rejected |
| Sentinel.InvalidLines | pytupi/sar/sentinel/sentinel.py:136-140 | the count is the length of the leading run of -1 markers: all before it are -1 and the next one is not |
| Sentinel.CountInvalidLines | pytupi/sar/sentinel/sentinel.py:136-140 | the loop counts the leading run of -1 markers |
| Sentinel.CollectBursts | pytupi/sar/sentinel/sentinel.py:129-142 | one part and one time origin per burst, each the burst's valid rows and its start moved past its invalid lines |
| Sentinel.ValidRows | pytupi/sar/sentinel/sentinel.py:134-141 | burst i's rows after its leading invalid lines, and the invalid-line count itself |
| Sentinel.BurstPartRows | pytupi/sar/sentinel/sentinel.py:129-141 | on a full stack, burst 0 gives raw rows [0, L) and burst i gives raw rows [i*L + invalid lines, (i+1)*L) |
| Sentinel.StitchBursts | pytupi/sar/sentinel/sentinel.py:149-155 | the cut-and-append loop yields the stitched image over all bursts |
| Sentinel.StitchStep | pytupi/sar/sentinel/sentinel.py:152-155 | each step keeps the running image's rows before the cut (Python slice rules) and appends the burst's valid rows unchanged |
| Sentinel.StitchedHeight | pytupi/sar/sentinel/sentinel.py:144-155 | when the cut falls inside the running image the height becomes the cut row plus the appended burst's valid rows |
| Sentinel.DeburstImage | pytupi/sar/sentinel/sentinel.py:114-158 | the two passes give the burst stack stitched at each burst's cut row, an IndexError for an empty burst list and a ZeroDivisionError for a zero line interval with several bursts |
| Sentinel.ProductImage | pytupi/sar/sentinel/sentinel.py:103-108 | a GRD raster comes back as read and an SLC raster debursted |
| Sentinel.RangePeriod | pytupi/sar/sentinel/sentinel.py:172-177 | 0 exactly when no later pixel repeats the first; otherwise the first index after 0 that repeats it |
| Sentinel.AzimuthIndex | pytupi/sar/sentinel/sentinel.py:179-185 | the chosen grid line starts before the line time and, when the first line does, the next grid line does not |
| Sentinel.FindAzimuthIndex | pytupi/sar/sentinel/sentinel.py:181-185 | the stepped loop finds that azimuth index |
| Sentinel.RangeScan | pytupi/sar/sentinel/sentinel.py:187-192 | the range index lies before the column and the next grid point does not; a grid line inside the table never raises |
| Sentinel.FindRangeIndex | pytupi/sar/sentinel/sentinel.py:188-192 | the loop finds that range index or raises IndexError past the table |
| Sentinel.Clamp | pytupi/sar/sentinel/sentinel.py:193-194 | the corner is non-negative, at most period - 2, and unchanged when already in range |
| Sentinel.FindRangePeriod | pytupi/sar/sentinel/sentinel.py:172-177 | the loop finds the range period |
| Sentinel.GridCell | pytupi/sar/sentinel/sentinel.py:172-194 | a found cell carries the non-zero range period |
| Sentinel.FindGridCell | pytupi/sar/sentinel/sentinel.py:172-194 | the three loops and the clamps find that cell, with ZeroDivisionError for a table without a period |
| Sentinel.GridCellInBounds | pytupi/sar/sentinel/sentinel.py:180-208 | on a full grid of at least 2 x 2 points a cell is always found and its far corner lies inside the table |
| Sentinel.GeoLocationInBounds | pytupi/sar/sentinel/sentinel.py:167-211 | on such a grid the lookup never reads outside the tables |
| Sentinel.XFrac | pytupi/sar/sentinel/sentinel.py:199 | the range fraction times the cell width is the pixel's offset in the cell |
| Sentinel.XFracAsWrittenIsFlat | pytupi/sar/sentinel/sentinel.py:199 | with integer floor division every pixel strictly inside a cell gets fraction 0 (x = 5 in [0, 10]: 0 as written, 0.5 intended) |
| Sentinel.XFracSpansCell | pytupi/sar/sentinel/sentinel.py:199 | the intended fraction runs from 0 at the cell's first pixel to 1 at its last, and is 0 or 1 only there |
| Sentinel.InterpolateCell | pytupi/sar/sentinel/sentinel.py:196-211 | the fractions and the two bilinear interpolations give the cell's location, or the index or zero-division error; the range fraction is the real-valued one intended at sentinel.py:199 (see Findings) |
| Sentinel.CellLocationAtCorner | pytupi/sar/sentinel/sentinel.py:196-211 | at a cell's first corner the fractions are 0 and the interpolation returns that corner's latitude and longitude |
| Sentinel.GeoLocationAtGridPoint | pytupi/sar/sentinel/sentinel.py:167-211 | at the first corner of its own cell the lookup returns that grid point's latitude and longitude |
| Sentinel.FileLookup | pytupi/sar/sentinel/sentinel.py:60-63 | the file lookups succeed iff the measurement, calibration and product groups exist and the product index is a valid (possibly negative) index into each, and the quick-look group exists and is non-empty; a failure is KeyError or IndexError |
| Sentinel.ProcessLookup | pytupi/sar/sentinel/sentinel.py:60-72 | succeeds iff the file lookups do and the type text is SLC or GRD, and then yields the parsed product type |
| Sentinel.SentinelProduct.constructor | pytupi/sar/sentinel/sentinel.py:16-21 | the base name of the directory and the decoded manifest, not yet processed |
| Sentinel.SentinelProduct.GetProductIndexes | pytupi/sar/sentinel/sentinel.py:48-56 | the product indexes of the product's own manifest |
| Sentinel.SentinelProduct.Process | pytupi/sar/sentinel/sentinel.py:58-101 | a failed file lookup raises its error and changes nothing; once the lookups pass, the type text is stored before it is checked; it fails exactly when a lookup fails or the type is neither SLC nor GRD, and a failure leaves every other field unchanged; otherwise the four tables hold the grid points in document order |
| Sentinel.SentinelProduct.GetImage | pytupi/sar/sentinel/sentinel.py:103-108 | the raster as read when the stored type text is `GRD`, the debursted raster otherwise |
| Sentinel.SentinelProduct.GetGeoLocation | pytupi/sar/sentinel/sentinel.py:167-211 | the geolocation over the processed tables, using the real-valued range fraction intended at sentinel.py:199 (see Findings) |
| Cfar.FillBlock | pytupi/sar/sar_tools/cfar_tools.py:11-12 | a 2-D slice assignment sets exactly the cells inside both clipped slices, and leaves every other cell unchanged |
| Cfar.GuardSize | pytupi/sar/sar_tools/cfar_tools.py:8-9 | a given non-zero guard is kept; None or 0 becomes a third of the window, rounded down |
| Cfar.BandWidthInside | pytupi/sar/sar_tools/cfar_tools.py:11-12 | a band that fits inside the window covers `2 * (s // 2)` rows |
| Cfar.CreateBgWindow | pytupi/sar/sar_tools/cfar_tools.py:7-13 | a fresh n×n window: 0 on the guard rows and guard columns, 1 everywhere else |
| Cfar.CreateTargetWindow | pytupi/sar/sar_tools/cfar_tools.py:16-20 | a fresh n×n window: 1 on the central square, 0 everywhere else |
| Cfar.CountInBandPrefix | pytupi/sar/sar_tools/cfar_tools.py:11-12 | the first m positions meet the band in its slice bounds clipped to m |
| Cfar.CountInBandAll | pytupi/sar/sar_tools/cfar_tools.py:11-12 | the whole axis meets the band in exactly its width |
| Cfar.BgRowSumValue | pytupi/sar/sar_tools/cfar_tools.py:10-12 | a background row sums to 0 on a guard row, otherwise to the number of columns outside the guard band |
| Cfar.BgSumValue | pytupi/sar/sar_tools/cfar_tools.py:10-12 | the background window sums to (rows outside the band) × (columns outside the band) |
| Cfar.BgWindowSum | pytupi/sar/sar_tools/cfar_tools.py:48 | the normaliser `np.sum(bg_window)` is the square of (n − guard band width) |
| Cfar.DefaultBgWindowSum | pytupi/sar/sar_tools/cfar_tools.py:40-48 | the detector's 64-sample background window with the default guard sums to 1936 |
| Cfar.TargetRowSumValue | pytupi/sar/sar_tools/cfar_tools.py:17-19 | a target row sums to the band width on a band row, otherwise to 0 |
| Cfar.TargetSumValue | pytupi/sar/sar_tools/cfar_tools.py:17-19 | the target window sums to (band rows) × (band columns) |
| Cfar.TargetWindowSum | pytupi/sar/sar_tools/cfar_tools.py:52 | the normaliser `np.sum(target_window)` is the square of the band width |
| Cfar.DefaultTargetWindowSum | pytupi/sar/sar_tools/cfar_tools.py:40-52 | the detector's 6-sample target in a 64-sample window sums to 36 |
| Cfar.ClearBorder | pytupi/sar/sar_tools/cfar_tools.py:23-28 | in place, zeroes exactly the cells in the `[0:b]` and `[-b:]` slices of either axis, keeps the rest, and returns the same array |
| Cfar.BorderCells | pytupi/sar/sar_tools/cfar_tools.py:23-28 | for b ≥ 1 the zeroed cells are exactly those within b of an edge |
| Cfar.ZeroBorderClearsAll | pytupi/sar/sar_tools/cfar_tools.py:25-27 | for b = 0, `[-0:]` is the whole axis, so every cell is zeroed |
| Cfar.ProbeLand | pytupi/sar/sar_tools/cfar_tools.py:71-78 | the result is "on land" iff some probe 500 samples away in one of the eight directions is on land; the probes are tried in order and the loop stops at the first one on land |
| Cfar.FilterDetections | pytupi/sar/sar_tools/cfar_tools.py:67-81 | the output is `Kept`, the detections with no probe on land, in input order |
| Cfar.KeptAppend | pytupi/sar/sar_tools/cfar_tools.py:70-80 | filtering a concatenation filters each part separately |
| Cfar.KeptMembers | pytupi/sar/sar_tools/cfar_tools.py:79-80 | a detection is kept iff it is an input and no probe is near land; the output is no longer than the input |
| Cfar.KeptIdempotent | pytupi/sar/sar_tools/cfar_tools.py:67-81 | filtering a second time changes nothing |
| Gshhg.LinesFrom | pytupi/layers/gshhg.py:32-34 | one edge per remaining point |
| Gshhg.LinesFromAt | pytupi/layers/gshhg.py:32-34 | edge k joins the point before `ps[k]` (the carried `p0` for k = 0) to `ps[k]` |
| Gshhg.LinesShape | pytupi/layers/gshhg.py:30-34 | `_lines` fails (IndexError on `polygon[-1]`) exactly on an empty polygon; otherwise an n-point polygon gives n edges, the closing edge from the last point to the first comes first, and edge k joins points k−1 and k |
| Gshhg.RingOf | pytupi/layers/gshhg.py:38-40 | the ring holds two points per edge |
| Gshhg.RingOfAt | pytupi/layers/gshhg.py:38-40 | ring points 2k and 2k+1 are the two ends of edge k |
| Gshhg.CreateOgrPolygon | pytupi/layers/gshhg.py:36-43 | the loop builds the ring edge by edge; it fails exactly when `_lines` fails, and otherwise yields `RingOf(Lines(polygon))` |
| Gshhg.RingClosed | pytupi/layers/gshhg.py:36-43 | the ring of an n-point polygon has 2n points, starts at the last point and ends at it, and its odd positions run through the polygon in order |
| Gshhg.Range | pytupi/layers/gshhg.py:13 | `range(n)`: 0 .. n−1 in order |
| Gshhg.Relevant | pytupi/layers/gshhg.py:65-68 | every relevant index is below the bound |
| Gshhg.CollectRelevant | pytupi/layers/gshhg.py:65-68 | the loop rebuilds each ring from the polygon cache and collects exactly `Relevant`, the indices whose ring meets the region |
| Gshhg.RelevantMembers | pytupi/layers/gshhg.py:65-68 | the relevant indices are ascending, so each appears once, and an index is present iff it is in range and its ring intersects the region |
| Gshhg.Gshhg.constructor | pytupi/layers/gshhg.py:8-23 | keeps the shapes; the bounding-box, point and ring caches line up with them index by index; the relevant set starts as None |
| Gshhg.Gshhg.GetPoints | pytupi/layers/gshhg.py:48-49 | defined exactly for Python's valid indices, negative ones counting from the end, and then gives that shape's points |
| Gshhg.Gshhg.IsOverLand | pytupi/layers/gshhg.py:51-60 | true iff some polygon in the loop set (the relevant set once built, every shape before that) contains the point |
| Gshhg.Gshhg.BuildRelevantSet | pytupi/layers/gshhg.py:62-68 | an empty bounding box leaves the set empty and raises IndexError; otherwise the set becomes `Relevant` for the box's ring over all shapes; the cache invariant is kept |
| RoiFrame.HalfInside | pytupi/sar/sar_tools/roi_frame.py:12 | half a positive size, rounded down, is a position inside it, so the local centre lies in the region |
| RoiFrame.ROIFrame.constructor | pytupi/sar/sar_tools/roi_frame.py:4-12 | keeps offsets and sizes; each local centre coordinate is half the size rounded down (`2c <= size < 2c + 2`); the global centre is the offset moved by the local centre |
| RoiFrame.ROIFrame.LocalPoints | pytupi/sar/sar_tools/roi_frame.py:14-20 | one point per input, in order, each moved by minus the offset |
| RoiFrame.ROIFrame.GlobalPoints | pytupi/sar/sar_tools/roi_frame.py:22-28 | one point per input, in order, each moved by the offset |
| RoiFrame.ROIFrame.GlobalOfLocal | pytupi/sar/sar_tools/roi_frame.py:14-28 | moving points into the region and back gives them back |
| RoiFrame.ROIFrame.LocalOfGlobal | pytupi/sar/sar_tools/roi_frame.py:14-28 | moving points out of the region and back gives them back |
| RoiFrame.ROIFrame.TransformPointsLocal | pytupi/sar/sar_tools/roi_frame.py:14-20 | the loop builds exactly `LocalPoints` of its input |
| RoiFrame.ROIFrame.TransformPointsGlobal | pytupi/sar/sar_tools/roi_frame.py:22-28 | the loop builds exactly `GlobalPoints` of its input |
| RoiFrame.ROIFrame.CutImageRoi | pytupi/sar/sar_tools/roi_frame.py:30-33 | the cut has the rows of Python's clipped row slice; each is the clipped column slice of the matching image row |
| RoiFrame.ROIFrame.CutInside | pytupi/sar/sar_tools/roi_frame.py:30-33 | a region inside the image is cut out whole: roiSizeY rows of roiSizeX pixels, pixel (i, j) being image pixel (offsetX + i, offsetY + j) |
| RoiFrame.Fields | pytupi/sar/sar_tools/roi_frame.py:36 | a successful split gives exactly the requested number of fields |
| RoiFrame.FieldsOfJoin | pytupi/sar/sar_tools/roi_frame.py:36 | splitting a `", "`-joined list of comma-free fields gives those fields back |
| RoiFrame.IntTextCommaFree | pytupi/sar/sar_tools/roi_frame.py:36-37 | a printed integer holds no comma |
| RoiFrame.ROIFrame.ToStringReadsBack | pytupi/sar/sar_tools/roi_frame.py:35-37 | the printed form `ROI frame (x, y, w, h)` reads back to offset x, offset y, size x and size y, in that order |
| RoiTools.CountAbove | pytupi/sar/sar_tools/roi_tools.py:6 | the mask selects at most every pixel |
| RoiTools.CountAbovePositive | pytupi/sar/sar_tools/roi_tools.py:6-7 | if some pixel exceeds the threshold the mask is non-empty, so the mean divides by a positive count |
| RoiTools.SumAboveBound | pytupi/sar/sar_tools/roi_tools.py:7 | the selected pixels sum to at least the threshold times their count, and strictly more when there is one |
| RoiTools.MeanAbove | pytupi/sar/sar_tools/roi_tools.py:7 | the mean of the selected pixels exceeds the threshold |
| RoiTools.Filled | pytupi/sar/sar_tools/roi_tools.py:6-8 | the fill keeps the image size |
| RoiTools.FilledAbove | pytupi/sar/sar_tools/roi_tools.py:6-8 | after the fill every pixel exceeds the threshold, so a non-empty result can be filled again |
| RoiTools.FillIdempotent | pytupi/sar/sar_tools/roi_tools.py:5-8 | filling a filled image changes nothing |
| RoiTools.FillInLowerRegions | pytupi/sar/sar_tools/roi_tools.py:5-8 | in place, pixels above the threshold keep their value and every other pixel becomes the mean of those above it (`Filled` of the old contents) |
| Kml.Corners | pytupi/core/kml.py:39-40 | five corners, the last repeating the first; each is lon ± d, lat ± d; for d ≠ 0 consecutive corners differ in exactly one coordinate and the first four are distinct, so they draw a square |
| Kml.ClosedRingText | pytupi/core/kml.py:39-40 | a five-corner ring whose last corner repeats the first is written starting and ending with the same `%f,%f,0 ` pair |
| Kml.SquareTextClosed | pytupi/core/kml.py:39-40 | the square's coordinate list starts and ends with the south-west corner, so the drawn line is closed |
| Kml.PlacemarkFromPointContents | pytupi/core/kml.py:24-43 | with no colour the placemark equals the one in `ff0000ff`; the placemark holds its `geomColor` element and the square of half side 0.0008 around the point |
| Kml.PointPlacemarkSquare | pytupi/core/kml.py:53-62 | each point's placemark holds the square of half side 0.0001 around it |
| Kml.PlacemarksAppend | pytupi/core/kml.py:50-69 | the placemarks of a concatenation are those of each part, in order |
| Kml.PlacemarkOfPoint | pytupi/core/kml.py:50-69 | point k's placemark comes right after those of the points before it and right before those of the points after it |
| Kml.AppendPlacemarks | pytupi/core/kml.py:50-69 | the loop appends exactly `Placemarks` of the points to the string it started with |
| Kml.GenerateKmlFomPoints | pytupi/core/kml.py:46-71 | the document is the header, one placemark per point in input order, then the footer |
| Kml.DateTailLayout | pytupi/core/kml.py:100 | with two-character fields, the separators `-`, `-`, `T`, `:`, `:` and each field sit at fixed places after the year |
| Kml.ParseWhenFields | pytupi/core/kml.py:100 | a `when` element made of a year and five two-digit fields reads back to the numbers they spell |
| Kml.WhenReadsBack | pytupi/core/kml.py:79-100 | the `when` element of any time whose fields after the year are below 100 reads back to that time |
| Kml.TimedStyleHeading | pytupi/core/kml.py:86-98 | the style of a timed point holds the `heading` element with the ship's heading minus 180 |
| Kml.TimedTailPosition | pytupi/core/kml.py:102-120 | the end of a timed point holds its `coordinates` element |
| Kml.PointCoordinatesLonFirst | pytupi/core/kml.py:118 | the coordinates are written longitude first: cutting the inner text at its first comma gives the longitude text, then the latitude text |
| PyOps.FloorDiv | pytupi/sar/sar_tools/roi_frame.py:9-12 | Python 2 integer `/` rounds toward minus infinity: the quotient q satisfies `b*q <= a < b*q + b` for a positive divisor and the mirror image for a negative one |
| PyOps.Trunc | pytupi/sar/terrasar/_tsximage.py:96-100 | `int()` of a float truncates toward zero: the result is within one of x, on the side of zero |
| PyOps.Round | pytupi/sar/sentinel/sentinel.py:146 | Python 2 `round` rounds half away from zero: the result lies within one half of x, with ties going outward |
| PyOps.SliceBound | pytupi/sar/sar_tools/roi_frame.py:31-32 | a slice bound is clipped to [0, n], a negative one counting from the end |
| PyOps.Slice | pytupi/sar/sar_tools/roi_frame.py:31-32 | a slice is the contiguous run between the clipped bounds, empty when they cross |
| PyOps.SliceWithin | pytupi/sar/sar_tools/roi_frame.py:31-32 | bounds already inside the sequence are taken as written |
| PyOps.ListIndex | pytupi/sar/sentinel/sentinel.py:60-62 | a list index is valid exactly when `-n <= i < n`, a negative one counting from the end |
| PyOps.TimesIsProduct | pytupi/sar/sentinel/sentinel.py:197-208 | the repeated sum used for grid offsets is the product `a*n` |
| Text.IntToString | pytupi/sar/sar_tools/roi_frame.py:36-37 | the decimal form of an integer: a leading '-' exactly for negative numbers, then only digits |
| Text.IntToStringRoundTrip | pytupi/sar/sar_tools/roi_frame.py:36-37 | the decimal form of an integer, sign included, parses back to that integer |
| Text.Pad2RoundTrip | pytupi/core/kml.py:100 | a two-digit zero-padded field parses back to its number |
| Text.CutAtFirst | pytupi/sar/sar_tools/roi_frame.py:36 | splitting at the first separator after a separator-free head gives back the head and the rest |

## Left out

- File and device I/O: `open`/`seek`/`read` and `os.path.getsize` in `_load_cos` (the file is an in-memory byte sequence), GDAL TIFF reading, the PIL quick-look image, `save_kml_string_to_file`, `print` and `tqdm` progress output.
- XML parsing (`xmltodict`, `minidom`, BeautifulSoup) and `strptime`: the annotation values come as already-parsed records, dates as calendar fields, Sentinel times as seconds.
- `Sentinel.SentinelProduct.Process`: the file paths, the quick-look image and the metadata tree that the source stores before the product type are not fields of the model, so a failure after they are stored is not seen to change them.
- `Sentinel.SentinelProduct.Process`: the metadata fields other than the product type, line interval and first-line time (polarisation, swath, mode, spacings, sampling rate, last-line time) are read and never used by the modelled operations, so the model does not keep them.
- `Sentinel.DeburstImage`: `samplesPerBurst` and `lastValidSample` are parsed but never used, so they are not modelled.
- `cfar_roi` in `cfar_tools.py`: float mean and standard deviation, `scipy.signal.fftconvolve` and `ndimage` labelling; it is not modelled. It emits detections as truncated `(int(col), int(row))`, which `PyOps.Trunc` describes.
- `convert_to_img_coordinates` in `_tsximage.py`: a `scipy` `fmin` float optimisation, not modelled.
- The OGR geometry library and `shapefile.Reader`: polygon containment and intersection are function parameters of `Gshhg`, and the shapes are given as point lists.
- The geolocation and the land test used by `filter_detections` are function parameters of `Cfar`.
- IEEE floating point: interpolation, grid steps and fractions use Dafny's exact `real`, and no rounding claim is made.
- `Kml`: `%f` and `str` of floats are formatter parameters; ship name, MMSI, IMO and type are taken as the strings `%s` writes; adjacent constant pieces are written as one literal.
- `Kml.GenerateKmlFomPoints`: the number of `<Placemark>` elements equals the number of points by construction (one rendered placemark per point, in order) rather than by counting substrings.
- `Kml.TimedStyleHeading`, `Kml.TimedTailPosition`: the heading and the coordinates of a timed point are stated about the style and the tail of the placemark, which `GenerateKmlTimedPoint` concatenates, rather than about the whole text.
- `Kml.WhenReadsBack`: stated for times whose month, day, hour, minute and second are below 100, where `%02d` writes exactly two digits.
- `Kml.GenerateKmlStartStr`, `Kml.GenerateKmlEndStr`: fixed texts, written out as literals with no further contract.
- `GeoRef.SpacingGridAzimuth`, `GeoRef.SpacingGridRange`, `GeoRef.TauReferenceTime`: lookups of the parsed header with no further contract; `getTReferenceTimeUTC` is `strptime` of the parsed text and is not modelled.
- `Gshhg.Gshhg.constructor`: requires every shape to have at least one point, where the source raises IndexError from `_lines` on an empty polygon.
- `RoiTools.FillInLowerRegions`: requires some pixel above the threshold, because numpy's mean over an empty mask is NaN; the region is a flat array of reals, so the integer truncation of an integer-typed array is not modelled.
- `RoiFrame.ROIFrame.constructor`: sizes are integers and `/` is Python 2 floor division; float sizes are not modelled.
- `TsxImage.TsxImage.GetRoi`: Python's `complex` is a pair of reals.
- `Cosar.ReadBurstRows`, `Cosar.RowsRead`: when the file ends within the second sample of a burst's last row, `np.fromfile` is taken to consume those trailing bytes, as C `fread` advances past a partially read element, so the next header read is empty and reading stops.
- `Cosar.LoadCos`: the None that `_load_cos` returns for a range size of -2 is `Success(None)`; `get_image` then raises AttributeError, modelled as `NoImage`.
- `TerraSarX.TerraSarX.GetImage`: the default argument `channel=0` is not modelled; callers pass 0 explicitly.
- Plotting, mail, the HTTP loader, pickled data collections, the configuration manager, the directory walker, packaging and the abstract sensor interface are outside the modelled core.

## Findings

| source | as written | input that shows it | evidently intended | confidence | as-written member | corrected member |
|---|---|---|---|---|---|---|
| pytupi/sar/terrasar/terrasarx.py:90 | `np.vstack((img_map, data_burst)) if img_map else data_burst` takes the truth value of a numpy array, which raises ValueError for an array with more than one element | any valid COSAR file with two bursts whose first burst has a row | stack every burst under the previous ones (first burst versus later bursts) | not executed | Cosar.AsWrittenRejectsSecondBurst | Cosar.DecodeCosEncodeCos |
| pytupi/sar/sentinel/sentinel.py:199 | `x_frac = (x - r_min)/(r_max - r_min)` on integer pixels is Python 2 floor division | x = 5 in the cell from pixel 0 to pixel 10 gives 0 instead of 0.5 | a real-valued fraction, so that the interpolation moves linearly across the cell | not executed | Sentinel.XFracAsWrittenIsFlat | Sentinel.XFracSpansCell |
