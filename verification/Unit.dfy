/** One access unit of a stream: a coded picture, or a frame of sound. */
module Unit {
  import opened Bytes
  import opened H264

  datatype Unit =
    | Picture(track: nat, nalus: seq<Nal>, pts: nat, dts: nat, keyframe: bool)
    | Frame(track: nat, data: seq<byte>, pts: nat)
  {
    /** Whether a reader can be started here. A frame of sound stands alone, and is never such a place. */
    predicate OpensAStream() { Picture? && keyframe }

    function Len(): nat {
      if Picture? then Coded(nalus) else |data|
    }
  }

  function Coded(nalus: seq<Nal>): nat {
    if nalus == [] then 0 else |nalus[0]| + Coded(nalus[1..])
  }

  /** Everything coded that a unit carries, without any framing. */
  function CodedBytes(unit: Unit): seq<byte> {
    if unit.Picture? then Flatten(unit.nalus) else unit.data
  }

  lemma {:induction false} CodedIsFlat(nalus: seq<Nal>)
    ensures Coded(nalus) == |Flatten(nalus)|
  {
    if nalus != [] {
      CodedIsFlat(nalus[1..]);
    }
  }

  /** A unit's length is that of its coded bytes, all of them and nothing else. */
  lemma LenIsOfBytes(unit: Unit)
    ensures unit.Len() == |CodedBytes(unit)|
  {
    if unit.Picture? {
      CodedIsFlat(unit.nalus);
    }
  }

  /** A stream is opened by a picture with a slice in it of NAL unit type 5, and by no frame. */
  lemma OpensExactly(track: nat, nalus: seq<Nal>, data: seq<byte>, pts: nat, dts: nat)
    ensures var picture := NewPicture(track, nalus, pts, dts);
            && (picture.OpensAStream() <==> exists nal <- nalus :: nal[0] % 32 == 5)
            && picture == Picture(track, nalus, pts, dts, picture.OpensAStream())
    ensures !Frame(track, data, pts).OpensAStream()
  {
    if i :| 0 <= i < |nalus| && NalType(nalus[i]) == IDR {
      assert nalus[i] in nalus;
    }
  }

  /** A picture, with its keyframe flag read from what is in it. */
  function NewPicture(track: nat, nalus: seq<Nal>, pts: nat, dts: nat): Unit {
    Picture(track, nalus, pts, dts, IsKeyframe(nalus))
  }
}
