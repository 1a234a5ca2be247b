/** What the wrapper sees of OpenImageIO: image specs with their channel names and extra
    attributes, regions, and pixel buffers. Pixel data itself is never looked at; a buffer is
    described by where it came from. */
module Image {
  import opened Wrappers

  /** An OpenImageIO ROI: half-open pixel ranges in x, y and z and a channel range. */
  datatype Roi = Roi(xbegin: int, xend: int, ybegin: int, yend: int, zbegin: int, zend: int,
                     chbegin: int, chend: int)

  /** An OpenImageIO TypeDesc for pixel data, kept abstract. */
  datatype PixelFormat = PixelFormat(name: string)

  /** The type of an extra attribute; the wrapper only distinguishes string, int and float. */
  datatype TypeTag = StringType | IntType | FloatType | OtherType(desc: string)

  /** An attribute value: text where the wrapper itself writes one, anything else uninterpreted. */
  datatype Value = Text(s: string) | Encoded(repr: string)

  datatype Attribute = Attribute(name: string, tag: TypeTag, value: Value)

  /** The display window of a spec. */
  datatype FullWindow = FullWindow(x: int, y: int, z: int, width: int, height: int)

  /** An OpenImageIO ImageSpec, reduced to the fields the wrapper reads or writes. `roi` is the
      data window the spec is given with `spec.roi = …`. */
  datatype Spec = Spec(width: int, height: int, depth: int, full: FullWindow,
                       nchannels: int, format: PixelFormat, channelFormats: seq<PixelFormat>,
                       roi: Roi, channelNames: seq<string>, attribs: seq<Attribute>)

  /** What OpenImageIO guarantees of a spec it reads: one name per channel, and per-channel
      formats either absent or one per channel. */
  predicate WellFormed(s: Spec)
  {
    s.nchannels == |s.channelNames| && (|s.channelFormats| == 0 || |s.channelFormats| == s.nchannels)
  }

  /** The spec of a default-constructed ImageSpec, what `nativespec()` gives for an image with
      no subimage. */
  const EmptySpec := Spec(0, 0, 1, FullWindow(0, 0, 0, 0, 0), 0, PixelFormat("unknown"), [],
                          Roi(0, 0, 0, 0, 0, 0, 0, 0), [], [])

  /** A pixel buffer handed to the writer: subimage `subimage` of the source, reduced to the
      named channels by `ImageBufAlgo.channels` when `channels` is present, and cut to `roi`
      by `ImageBufAlgo.cut`. */
  datatype Pixels = Pixels(subimage: nat, channels: Option<seq<string>>, roi: Roi)

  /** A loaded source image: the native spec of every subimage, and the region
      `ImageBufAlgo.nonzero_region` reports for subimage 0. */
  datatype SourceImage = SourceImage(subimages: seq<Spec>, nonzero: Roi)

  /** `image_in.nativespec()` for the image opened at subimage 0. */
  function NativeSpec(img: SourceImage): Spec
  {
    if |img.subimages| > 0 then img.subimages[0] else EmptySpec
  }

  /** The keyword options of `rewrap`. `verbose` only controls diagnostics. */
  datatype Options = Options(autocrop: bool, multipart: bool, rmManifest: bool, fixChannels: bool,
                             compression: Option<string>, verbose: bool)
}
