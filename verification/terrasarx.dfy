// The TerraSAR-X sensor: the image files listed in the product annotation,
// and the assembly of a geocoded image from one decoded COSAR file, the
// product metadata and the geolocation grid.

module TerraSarX {
  import opened Wrappers
  import opened PyOps
  import Cosar
  import GeoRef
  import TsxProduct
  import TsxImage

  /** One `imageData` entry of the product's `productComponents`. */
  datatype ImageData = ImageData(path: string, polLayer: string, fileName: string, layerIndex: string)

  /** Why `get_image` raises. */
  datatype SensorError =
    | ChannelOutOfRange                      // IndexError from img_files[channel]
    | CosFailure(cos: Cosar.CosError)        // the image file does not decode
    | NoImage                                // AttributeError from `img.shape` when `_load_cos` gives None
    | TimeFormat                             // strptime rejects a UTC time of the product
    | GridFailure(grid: GeoRef.GeoRefError)  // getLatLonGrid / getIncGrid

  const SensorName := "TerraSAR-X"

  /** The three UTC times `_build_sar_image` parses are well-formed dates. */
  predicate TimesParse(p: TsxProduct.ProductInfo)
  {
    TsxProduct.ValidDateTime(p.sceneCenterAzimuthTime) &&
    TsxProduct.ValidDateTime(p.sceneStart) && TsxProduct.ValidDateTime(p.sceneStop)
  }

  class TerraSarX {
    const product: TsxProduct.ProductInfo
    const georef: GeoRef.GeoRef
    var imgFiles: seq<ImageData>
    var imgType: string

    /** The geolocation grid has the shape its header announces. */
    predicate Valid()
      reads this
    {
      GeoRef.Valid(georef)
    }

    /** `__init__`: the parsed product annotation and geolocation grid, then
        `_load_metadata` over the annotation's image entries. */
    constructor (product: TsxProduct.ProductInfo, georef: GeoRef.GeoRef,
                 entries: seq<ImageData>, imageDataFormat: string)
      requires GeoRef.Valid(georef)
      ensures this.product == product && this.georef == georef
      ensures imgFiles == entries && imgType == imageDataFormat
      ensures Valid()
    {
      this.product := product;
      this.georef := georef;
      imgFiles := [];
      imgType := "";
      new;
      LoadMetadata(entries, imageDataFormat);
    }

    /** `_load_metadata`: one record per `imageData` element, in document
        order, and the image data format. */
    method LoadMetadata(entries: seq<ImageData>, imageDataFormat: string)
      modifies this
      ensures imgFiles == entries && imgType == imageDataFormat
    {
      imgFiles := [];
      for i := 0 to |entries|
        invariant imgFiles == entries[..i]
      {
        var s := entries[i];
        imgFiles := imgFiles + [ImageData(s.path, s.polLayer, s.fileName, s.layerIndex)];
      }
      imgType := imageDataFormat;
    }

    /** `get_number_channels`. */
    function NumberChannels(): nat
      reads this
    {
      |imgFiles|
    }

    /** `get_image_type`. */
    function ImageType(): string
      reads this
    {
      imgType
    }

    /** Every channel `c` with `-n <= c < n` names an image file, the
        negative ones counting from the end, and no other does. */
    lemma ChannelsAddressable(channel: int)
      ensures ListIndex(channel, NumberChannels()).Some? <==> -(NumberChannels() as int) <= channel < NumberChannels()
      ensures 0 <= channel < NumberChannels() ==> ListIndex(channel, NumberChannels()) == Some(channel)
      ensures -(NumberChannels() as int) <= channel < 0 ==>
        ListIndex(channel, NumberChannels()) == Some(NumberChannels() + channel)
    {
    }

    /** The fallible steps of `_build_sar_image` once the image file's
        bytes `q` are read, in the order the source runs them: decode the
        file, parse the centre time, parse the start and stop times, build
        the lat/lon grid. The incidence grid reads the same cells as the
        lat/lon grid, so it fails exactly when that one already has. Success
        gives the raster. */
    function Outcome(q: seq<Cosar.Byte>): (r: Result<Cosar.Raster, SensorError>)
      requires GeoRef.Valid(georef)
      ensures r.Success? <==>
        Cosar.DecodeCos(q).Success? && Cosar.DecodeCos(q).value.Some? && TimesParse(product) &&
        GeoRef.LatLonGrid(georef).Success? && GeoRef.IncGrid(georef).Success?
      ensures r.Success? ==> r.value == Cosar.DecodeCos(q).value.value
      ensures Cosar.DecodeCos(q).Failure? ==> r == Failure(CosFailure(Cosar.DecodeCos(q).error))
      ensures Cosar.DecodeCos(q) == Success(None) ==> r == Failure(NoImage)
      ensures Cosar.DecodeCos(q).Success? && Cosar.DecodeCos(q).value.Some? && !TimesParse(product) ==>
        r == Failure(TimeFormat)
    {
      match Cosar.DecodeCos(q)
      case Failure(e) => Failure(CosFailure(e))
      case Success(None) => Failure(NoImage)
      case Success(Some(raster)) =>
        if !TimesParse(product) then Failure(TimeFormat)
        else
          var latlon := GeoRef.LatLonGrid(georef);
          if latlon.Failure? then Failure(GridFailure(latlon.error))
          else Success(raster)
    }

    /** The fields `_build_sar_image` sets on the new image, given the
        decoded `raster` of rows `width` samples long, the converted centre
        time and start/stop times, and the two grids: the shape is the
        raster's, the sizes are the product's column and row counts, and the
        rest are copied from the product and the grid header. */
    predicate Wired(image: TsxImage.TsxImage, raster: Cosar.Raster, width: nat, centerTimestamp: real,
                    azimuthTime: seq<real>, latlonGrid: seq<seq<GeoRef.LatLon>>, incGrid: seq<seq<real>>)
      reads image
    {
      image.img == raster && image.shape == (|raster|, width) && image.Valid() &&
      ProductCopied(image, centerTimestamp) && TimesAndGridsCopied(image, azimuthTime, latlonGrid, incGrid)
    }

    /** The centre time, the spacings, the sizes and the range times. */
    predicate ProductCopied(image: TsxImage.TsxImage, centerTimestamp: real)
      reads image`centerTimestamp, image`rowSpacing, image`colSpacing, image`azimuthSize
      reads image`azimuthGridSpacing, image`rangeSize, image`rangeGridSpacing, image`rangeTime
    {
      image.centerTimestamp == centerTimestamp &&
      image.rowSpacing == product.rowSpacing && image.colSpacing == product.columnSpacing &&
      image.azimuthSize == TsxProduct.AzimuthSize(product) &&
      image.azimuthGridSpacing == GeoRef.SpacingGridAzimuth(georef) &&
      image.rangeSize == TsxProduct.RangeSize(product) &&
      image.rangeGridSpacing == GeoRef.SpacingGridRange(georef) &&
      image.rangeTime == TsxProduct.RangeTime(product)
    }

    /** The start and stop times, the two grids, the resolutions and the
        calibration factor. */
    predicate TimesAndGridsCopied(image: TsxImage.TsxImage, azimuthTime: seq<real>,
                                  latlonGrid: seq<seq<GeoRef.LatLon>>, incGrid: seq<seq<real>>)
      reads image`azimuthTime, image`latlonGrid, image`incGrid
      reads image`rangeResolution, image`azimuthResolution, image`calFactor
    {
      image.azimuthTime == azimuthTime &&
      image.latlonGrid == latlonGrid && image.incGrid == incGrid &&
      image.rangeResolution == product.groundRangeResolution &&
      image.azimuthResolution == product.azimuthResolution &&
      image.calFactor == product.calFactor
    }

    /** `get_image`: the image of one channel; `readFile` gives the bytes of
        the file an entry names. */
    method GetImage(channel: int, readFile: ImageData -> seq<Cosar.Byte>)
      returns (r: Result<TsxImage.TsxImage, SensorError>)
      requires Valid()
      ensures ListIndex(channel, |imgFiles|).None? ==> r == Failure(ChannelOutOfRange)
      ensures ListIndex(channel, |imgFiles|).Some? ==>
        var q := readFile(imgFiles[ListIndex(channel, |imgFiles|).value]);
        (r.Failure? ==> Outcome(q).Failure? && r == Failure(Outcome(q).error)) &&
        (r.Success? <==> Outcome(q).Success?) &&
        (r.Success? ==>
          fresh(r.value) && Cosar.RowWidth(q).Success? &&
          Wired(r.value, Outcome(q).value, Cosar.RowWidth(q).value,
                TsxProduct.CenterTimestamp(product), TsxProduct.AzimuthTime(product),
                GeoRef.LatLonGrid(georef).value, GeoRef.IncGrid(georef).value))
    {
      r := BuildSarImage(channel, readFile);
    }

    /** `_build_sar_image`: decode the channel's file, convert the
        product's times and build the grids, failing at the first step that
        raises; the image object the source fills in between those steps is
        discarded when one raises, so here it is built once they all pass. */
    method BuildSarImage(channel: int, readFile: ImageData -> seq<Cosar.Byte>)
      returns (r: Result<TsxImage.TsxImage, SensorError>)
      requires Valid()
      ensures ListIndex(channel, |imgFiles|).None? ==> r == Failure(ChannelOutOfRange)
      ensures ListIndex(channel, |imgFiles|).Some? ==>
        var q := readFile(imgFiles[ListIndex(channel, |imgFiles|).value]);
        (r.Failure? ==> Outcome(q).Failure? && r == Failure(Outcome(q).error)) &&
        (r.Success? <==> Outcome(q).Success?) &&
        (r.Success? ==>
          fresh(r.value) && Cosar.RowWidth(q).Success? &&
          Wired(r.value, Outcome(q).value, Cosar.RowWidth(q).value,
                TsxProduct.CenterTimestamp(product), TsxProduct.AzimuthTime(product),
                GeoRef.LatLonGrid(georef).value, GeoRef.IncGrid(georef).value))
    {
      var index := ListIndex(channel, |imgFiles|);
      if index.None? {
        return Failure(ChannelOutOfRange);
      }
      var q := readFile(imgFiles[index.value]);
      var decoded := Cosar.LoadCos(q);
      if decoded.Failure? {
        return Failure(CosFailure(decoded.error));
      } else if decoded.value.None? {
        return Failure(NoImage);
      }
      Cosar.DecodedRowWidth(q);
      if !TsxProduct.ValidDateTime(product.sceneCenterAzimuthTime) {
        return Failure(TimeFormat);
      }
      var centerTimestamp := TsxProduct.CenterTimestamp(product);
      if !TsxProduct.ValidDateTime(product.sceneStart) || !TsxProduct.ValidDateTime(product.sceneStop) {
        return Failure(TimeFormat);
      }
      var azimuthTime := TsxProduct.AzimuthTime(product);
      var latlon := GeoRef.LatLonGrid(georef);
      if latlon.Failure? {
        return Failure(GridFailure(latlon.error));
      }
      var inc := GeoRef.IncGrid(georef);
      var image := Assemble(decoded.value.value, Cosar.RowWidth(q).value, centerTimestamp, azimuthTime,
                            latlon.value, inc.value);
      return Success(image);
    }

    /** The new image `_build_sar_image` fills in: the decoded raster and
        its shape, then the product values, then the times and grids. */
    method Assemble(raster: Cosar.Raster, width: nat, centerTimestamp: real, azimuthTime: seq<real>,
                    latlonGrid: seq<seq<GeoRef.LatLon>>, incGrid: seq<seq<real>>)
      returns (image: TsxImage.TsxImage)
      requires forall j :: 0 <= j < |raster| ==> |raster[j]| == width
      ensures fresh(image)
      ensures Wired(image, raster, width, centerTimestamp, azimuthTime, latlonGrid, incGrid)
    {
      image := new TsxImage.TsxImage();
      image.img := raster;
      image.shape := (|raster|, width);
      CopyProductValues(image, centerTimestamp);
      CopyTimesAndGrids(image, azimuthTime, latlonGrid, incGrid);
    }

    /** The centre time, the pixel spacings, the calibration factor, the
        image sizes, the grid spacings and the range times, copied into
        the image in the source's order. */
    method CopyProductValues(image: TsxImage.TsxImage, centerTimestamp: real)
      modifies image`centerTimestamp, image`rowSpacing, image`colSpacing, image`calFactor
      modifies image`azimuthSize, image`azimuthGridSpacing, image`rangeSize, image`rangeGridSpacing
      modifies image`rangeTime
      ensures ProductCopied(image, centerTimestamp) && image.calFactor == product.calFactor
    {
      image.centerTimestamp := centerTimestamp;
      image.rowSpacing := product.rowSpacing;
      image.colSpacing := product.columnSpacing;
      image.calFactor := product.calFactor;
      image.azimuthSize := TsxProduct.AzimuthSize(product);
      image.azimuthGridSpacing := GeoRef.SpacingGridAzimuth(georef);
      image.rangeSize := TsxProduct.RangeSize(product);
      image.rangeGridSpacing := GeoRef.SpacingGridRange(georef);
      image.rangeTime := TsxProduct.RangeTime(product);
    }

    /** The start and stop times, the two grids and the resolutions, copied
        into the image in the source's order (the calibration factor a
        second time, as the source does). */
    method CopyTimesAndGrids(image: TsxImage.TsxImage, azimuthTime: seq<real>,
                             latlonGrid: seq<seq<GeoRef.LatLon>>, incGrid: seq<seq<real>>)
      modifies image`azimuthTime, image`latlonGrid, image`incGrid
      modifies image`rangeResolution, image`azimuthResolution, image`calFactor
      ensures TimesAndGridsCopied(image, azimuthTime, latlonGrid, incGrid)
    {
      image.azimuthTime := azimuthTime;
      image.latlonGrid := latlonGrid;
      image.incGrid := incGrid;
      image.rangeResolution := product.groundRangeResolution;
      image.azimuthResolution := product.azimuthResolution;
      image.calFactor := product.calFactor;
    }

    /** An image file written as COSAR bursts of `rangeSize + 2` columns
        builds an image holding those bursts stacked in file order, with
        as many rows as the bursts together and `rangeSize + 2` columns. */
    lemma OutcomeOfEncodedFile(rangeSize: nat, bursts: seq<Cosar.Raster>)
      requires Valid() && Cosar.IsInt32(rangeSize) && Cosar.WellFormedBursts(bursts, rangeSize + 2)
      requires 1 <= |bursts|
      requires TimesParse(product) && |georef.grid| > 0 && GeoRef.AllFilled(georef.grid)
      ensures Outcome(Cosar.EncodeCos(rangeSize, bursts)) == Success(Cosar.Concat(bursts))
      ensures Cosar.RowWidth(Cosar.EncodeCos(rangeSize, bursts)) == Success(rangeSize + 2)
    {
      Cosar.DecodeCosEncodeCos(rangeSize, bursts);
      Cosar.ReadBurstsEncodeCos(rangeSize, bursts);
    }
  }
}
