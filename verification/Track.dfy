/** What a stream is made of: its tracks, in the order they were declared. */
module Track {
  import opened Wrappers
  import opened Bytes
  import opened H264

  /** An `AudioSpecificConfig`, kept verbatim beside what was read out of it. */
  datatype AacParameters = AacParameters(config: seq<byte>, objectType: byte, sampleRate: u32, channels: byte)

  datatype Codec = H264Codec(h264: Parameters) | AacCodec(aac: AacParameters)

  /** A track is named by its place in the description. */
  datatype Description = Description(tracks: seq<Codec>)

  datatype DescriptionError =
    | NoTracks
    | TooManyTracks(limit: nat)
    | MissingSet(index: nat, missing: string)

  /** What a decoder starts from is there. Sound needs nothing beside it. */
  predicate Decodable(codec: Codec) { codec.H264Codec? ==> codec.h264.sps != [] && codec.h264.pps != [] }

  /** Which of the two sets is not there, where one is not: the first of them. */
  function Lacking(h264: Parameters): (missing: string)
    ensures missing == "SPS" <==> h264.sps == []
    ensures missing == "SPS" || missing == "PPS"
  {
    if h264.sps == [] then "SPS" else "PPS"
  }

  /** The first H.264 track without the parameter sets a decoder starts from. */
  function FirstMissing(codecs: seq<Codec>, index: nat): (r: Option<DescriptionError>)
    ensures r.None? <==> forall c <- codecs :: Decodable(c)
    ensures r.Some? ==>
      && r.value.MissingSet? && index <= r.value.index < index + |codecs|
      && !Decodable(codecs[r.value.index - index])
      && r.value.missing == Lacking(codecs[r.value.index - index].h264)
      && forall c <- codecs[..r.value.index - index] :: Decodable(c)
  {
    if codecs == [] then None
    else if !Decodable(codecs[0]) then
      assert codecs[0] in codecs;
      Some(MissingSet(index, Lacking(codecs[0].h264)))
    else
      assert codecs == [codecs[0]] + codecs[1..];
      FirstMissing(codecs[1..], index + 1)
  }

  /** Tracks are a description exactly when there are some, they can be numbered, and every one can be decoded. */
  function NewDescription(codecs: seq<Codec>): (r: Result<Description, DescriptionError>)
    ensures r.Ok? <==> 0 < |codecs| <= 0xffff && forall c <- codecs :: Decodable(c)
    ensures r.Ok? ==> r.value.tracks == codecs
    ensures r.Err? && r.error.NoTracks? <==> codecs == []
    ensures r.Err? && r.error.TooManyTracks? <==> |codecs| > 0xffff
    ensures r.Err? && r.error.TooManyTracks? ==> r.error.limit == 0xffff
    ensures r.Err? && r.error.MissingSet? ==>
      && r.error.index < |codecs| && !Decodable(codecs[r.error.index])
      && r.error.missing == Lacking(codecs[r.error.index].h264)
      && forall c <- codecs[..r.error.index] :: Decodable(c)
  {
    if codecs == [] then Err(NoTracks)
    else if |codecs| > 0xffff then Err(TooManyTracks(0xffff))
    else match FirstMissing(codecs, 0)
      case Some(error) => Err(error)
      case None => Ok(Description(codecs))
  }
}
