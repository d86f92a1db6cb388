/** The RC data decoder of the car controller (RCDataDecoder.py).

    The TLV framer hands the decoder a frame type and the frame's TLVs, each an
    id and its value bytes (the TLV's length is the number of bytes). The
    decoder turns them into a dictionary from channel name to value. The
    receiver keeps the last non-empty dictionary, stamped with the arrival time. */
module RcDecoder {
  import opened Wrappers
  import opened Text

  type byte = b: int | 0 <= b < 256

  const TwoTo16: nat := 0x1_0000
  const TwoTo32: nat := 0x1_0000_0000

  /** The frame kinds the framer reports; any other code is `OtherFrame`. */
  datatype FrameType = RcFrame | ConfigFrame | OtherFrame(code: int)

  datatype Tlv = Tlv(id: nat, data: seq<byte>)

  /** A dictionary value: a decoded integer, or the "CONFIG" marker string. */
  datatype Value = Num(n: int) | Str(s: string)

  type Dict = map<string, Value>

  /** The id of the timestamp TLV in an RC frame. */
  const TimestampId: nat := 100

  /** RC_CHANNELS: the names of channels 0 to 6. */
  function ChannelName(id: nat): (name: Option<string>)
    ensures name.Some? <==> id < 7
  {
    if id == 0 then Some("Roll")
    else if id == 1 then Some("Pitch")
    else if id == 2 then Some("Throttle")
    else if id == 3 then Some("Yaw")
    else if id == 4 then Some("Aux1")
    else if id == 5 then Some("Aux2")
    else if id == 6 then Some("Unused")
    else None
  }

  /** The key a channel is stored under: its name, or `fallback` followed by the
      id in decimal. */
  function ChannelKey(id: nat, fallback: string): (key: string)
    requires fallback != [] && 'A' <= fallback[0] <= 'Z'
    ensures key != [] && 'A' <= key[0] <= 'Z'
    ensures id >= 7 ==> key == fallback + NatToString(id)
  {
    match ChannelName(id)
    case Some(name) => name
    case None => fallback + NatToString(id)
  }

  /** Distinct ids outside RC_CHANNELS never share a key. */
  lemma FallbackKeysDistinct(i: nat, j: nat, fallback: string)
    requires i >= 7 && j >= 7 && i != j
    requires fallback != [] && 'A' <= fallback[0] <= 'Z'
    ensures ChannelKey(i, fallback) != ChannelKey(j, fallback)
  {
    NatToStringValue(i);
    NatToStringValue(j);
    assert ChannelKey(i, fallback)[|fallback|..] == NatToString(i);
    assert ChannelKey(j, fallback)[|fallback|..] == NatToString(j);
  }

  /** struct.unpack('<H', data) */
  function U16(data: seq<byte>): (v: nat)
    requires |data| == 2
    ensures v < TwoTo16
  {
    data[0] as int + 256 * data[1] as int
  }

  /** struct.unpack('<I', data) */
  function U32(data: seq<byte>): (v: nat)
    requires |data| == 4
    ensures v < TwoTo32
  {
    data[0] as int + 256 * data[1] as int + 65536 * data[2] as int + 16777216 * data[3] as int
  }

  /** struct.pack('<H', v), the encoder the decoder inverts. */
  function EncodeU16(v: nat): (data: seq<byte>)
    requires v < TwoTo16
    ensures |data| == 2
  {
    [v % 256, v / 256]
  }

  /** struct.pack('<I', v) */
  function EncodeU32(v: nat): (data: seq<byte>)
    requires v < TwoTo32
    ensures |data| == 4
  {
    [v % 256, (v / 256) % 256, (v / 65536) % 256, v / 16777216]
  }

  lemma {:induction false} U16RoundTrip(v: nat, data: seq<byte>)
    requires v < TwoTo16 && |data| == 2
    ensures U16(EncodeU16(v)) == v
    ensures EncodeU16(U16(data)) == data
  {
    var d := EncodeU16(U16(data));
    assert d[1] == data[1] && d[0] == data[0];
  }

  /** unpack('<I') of pack('<I', v) is v. */
  lemma U32OfEncode(v: nat)
    requires v < TwoTo32
    ensures U32(EncodeU32(v)) == v
  {
    var a := v / 256;
    var b := a / 256;
    assert v == v % 256 + 256 * a;
    assert a == a % 256 + 256 * b;
    assert b == b % 256 + 256 * (b / 256);
    assert v / 65536 == b;
    assert v / 16777216 == b / 256;
  }

  /** pack('<I') of unpack('<I', data) is data. */
  lemma EncodeOfU32(data: seq<byte>)
    requires |data| == 4
    ensures EncodeU32(U32(data)) == data
  {
    var u := U32(data);
    var lo := data[0] as int;
    var hi := data[1] as int + 256 * data[2] as int + 65536 * data[3] as int;
    assert u == lo + 256 * hi;
    assert u % 256 == lo && u / 256 == hi;
    assert u / 65536 == data[2] as int + 256 * data[3] as int;
    assert u / 16777216 == data[3];
  }

  lemma U32RoundTrip(v: nat, data: seq<byte>)
    requires v < TwoTo32 && |data| == 4
    ensures U32(EncodeU32(v)) == v
    ensures EncodeU32(U32(data)) == data
  {
    U32OfEncode(v);
    EncodeOfU32(data);
  }

  /** The key a TLV writes in a frame of the given kind, or None when the
      decoder skips it: in a CONFIG frame every 2-byte TLV, keyed by channel
      name or Config_Ch_<id>; in an RC frame a 4-byte TLV with id 100 as
      "timestamp" and every other 2-byte TLV, keyed by channel name or
      Channel_<id>. */
  function KeyOf(kind: FrameType, t: Tlv): (key: Option<string>)
    ensures key.Some? <==>
      (!kind.OtherFrame? && |t.data| == 2) || (kind.RcFrame? && t.id == TimestampId && |t.data| == 4)
    ensures key == Some("timestamp") <==> kind.RcFrame? && t.id == TimestampId && |t.data| == 4
    ensures kind.ConfigFrame? && |t.data| == 2 ==> key == Some(ChannelKey(t.id, "Config_Ch_"))
    ensures kind.RcFrame? && |t.data| == 2 ==> key == Some(ChannelKey(t.id, "Channel_"))
  {
    match kind
    case ConfigFrame => if |t.data| == 2 then Some(ChannelKey(t.id, "Config_Ch_")) else None
    case RcFrame =>
      if t.id == TimestampId && |t.data| == 4 then Some("timestamp")
      else if |t.data| == 2 then Some(ChannelKey(t.id, "Channel_"))
      else None
    case OtherFrame(_) => None
  }

  /** The fallback prefix of the channel keys of a CONFIG or an RC frame. */
  function ChannelPrefix(kind: FrameType): (prefix: string)
    requires !kind.OtherFrame?
    ensures prefix != [] && 'A' <= prefix[0] <= 'Z'
  {
    if kind.ConfigFrame? then "Config_Ch_" else "Channel_"
  }

  /** Distinct ids never share a key within a frame kind: the names of
      RC_CHANNELS differ from each other and from every fallback key. */
  lemma ChannelKeysDistinct(kind: FrameType, i: nat, j: nat)
    requires !kind.OtherFrame? && i != j
    ensures ChannelKey(i, ChannelPrefix(kind)) != ChannelKey(j, ChannelPrefix(kind))
  {
    var prefix := ChannelPrefix(kind);
    if i >= 7 && j >= 7 {
      FallbackKeysDistinct(i, j, prefix);
    } else if i >= 7 {
      assert ChannelKey(i, prefix)[0] == 'C' != ChannelKey(j, prefix)[0];
    } else if j >= 7 {
      assert ChannelKey(j, prefix)[0] == 'C' != ChannelKey(i, prefix)[0];
    }
  }

  /** The value a written TLV stores. */
  function ValueOf(t: Tlv): (v: nat)
    requires |t.data| == 2 || |t.data| == 4
    ensures |t.data| == 2 ==> v < TwoTo16
  {
    if |t.data| == 2 then U16(t.data) else U32(t.data)
  }

  /** The bound every decoded value under `key` satisfies. */
  function Bound(kind: FrameType, key: string): nat {
    if kind.RcFrame? && key == "timestamp" then TwoTo32 else TwoTo16
  }

  /** The dictionary filled by the TLV loop, one TLV after the other; a later
      TLV writing the same key overwrites an earlier one. */
  function Entries(kind: FrameType, tlvs: seq<Tlv>): Dict {
    if tlvs == [] then map[]
    else
      var before := Entries(kind, tlvs[..|tlvs| - 1]);
      var t := tlvs[|tlvs| - 1];
      match KeyOf(kind, t)
      case Some(key) => before[key := Num(ValueOf(t))]
      case None => before
  }

  /** Every decoded value is a number within its bound, and every key is
      "timestamp" or a channel key. */
  lemma {:induction false} EntriesBounded(kind: FrameType, tlvs: seq<Tlv>)
    ensures forall k :: k in Entries(kind, tlvs) ==>
      Entries(kind, tlvs)[k].Num? && 0 <= Entries(kind, tlvs)[k].n < Bound(kind, k)
    ensures forall k :: k in Entries(kind, tlvs) ==> k == "timestamp" || (k != [] && 'A' <= k[0] <= 'Z')
  {
    if tlvs != [] {
      EntriesBounded(kind, tlvs[..|tlvs| - 1]);
      var t := tlvs[|tlvs| - 1];
      var key := KeyOf(kind, t);
      if key.Some? && key.value != "timestamp" {
        assert |t.data| == 2;
      }
    }
  }

  /** What decode_rc_data returns. */
  function DecodeSpec(kind: FrameType, tlvs: seq<Tlv>): (d: Dict)
    ensures kind.ConfigFrame? ==> "_frame_type" in d && d["_frame_type"] == Str("CONFIG")
    ensures kind.OtherFrame? ==> d == map[]
    ensures kind.RcFrame? ==> "_frame_type" !in d
    ensures forall k :: k in d && k != "_frame_type" ==> k in Entries(kind, tlvs) && d[k] == Entries(kind, tlvs)[k]
    ensures !kind.OtherFrame? ==>
      forall k :: k in Entries(kind, tlvs) ==> k in d && d[k] == Entries(kind, tlvs)[k]
  {
    EntriesBounded(kind, tlvs);
    assert "_frame_type"[0] == '_';
    match kind
    case ConfigFrame => Entries(kind, tlvs)["_frame_type" := Str("CONFIG")]
    case RcFrame => Entries(kind, tlvs)
    case OtherFrame(_) => map[]
  }

  /** A key is present exactly when some TLV of the frame writes it. */
  lemma {:induction false} EntriesKeys(kind: FrameType, tlvs: seq<Tlv>, key: string)
    ensures key in Entries(kind, tlvs) <==> exists i :: 0 <= i < |tlvs| && KeyOf(kind, tlvs[i]) == Some(key)
  {
    if tlvs != [] {
      var init := tlvs[..|tlvs| - 1];
      EntriesKeys(kind, init, key);
      if key in Entries(kind, init) {
        var i :| 0 <= i < |init| && KeyOf(kind, init[i]) == Some(key);
        assert tlvs[i] == init[i];
      }
      if exists i :: 0 <= i < |tlvs| && KeyOf(kind, tlvs[i]) == Some(key) {
        var i :| 0 <= i < |tlvs| && KeyOf(kind, tlvs[i]) == Some(key);
        if i < |init| {
          assert init[i] == tlvs[i];
        }
      }
    }
  }

  /** The last TLV writing a key decides its value. */
  lemma {:induction false} EntriesLastWins(kind: FrameType, tlvs: seq<Tlv>, i: nat)
    requires i < |tlvs| && KeyOf(kind, tlvs[i]).Some?
    requires forall j :: i < j < |tlvs| ==> KeyOf(kind, tlvs[j]) != KeyOf(kind, tlvs[i])
    ensures KeyOf(kind, tlvs[i]).value in Entries(kind, tlvs)
    ensures Entries(kind, tlvs)[KeyOf(kind, tlvs[i]).value] == Num(ValueOf(tlvs[i]))
  {
    var init := tlvs[..|tlvs| - 1];
    if i < |tlvs| - 1 {
      forall j | i < j < |init|
        ensures KeyOf(kind, init[j]) != KeyOf(kind, init[i])
      {
        assert init[j] == tlvs[j];
      }
      assert init[i] == tlvs[i];
      EntriesLastWins(kind, init, i);
    }
  }

  /** The last 2-byte TLV with a given id decides that channel's value: it is
      stored, unpacked as '<H', under the channel's name or its fallback key. */
  lemma {:induction false} DecodedChannel(kind: FrameType, tlvs: seq<Tlv>, i: nat)
    requires !kind.OtherFrame? && i < |tlvs| && |tlvs[i].data| == 2
    requires forall j :: i < j < |tlvs| && tlvs[j].id == tlvs[i].id ==> |tlvs[j].data| != 2
    ensures var key := ChannelKey(tlvs[i].id, ChannelPrefix(kind));
      key in DecodeSpec(kind, tlvs) && DecodeSpec(kind, tlvs)[key] == Num(U16(tlvs[i].data))
  {
    var key := ChannelKey(tlvs[i].id, ChannelPrefix(kind));
    assert KeyOf(kind, tlvs[i]) == Some(key);
    forall j | i < j < |tlvs|
      ensures KeyOf(kind, tlvs[j]) != KeyOf(kind, tlvs[i])
    {
      if |tlvs[j].data| == 2 && tlvs[j].id != tlvs[i].id {
        ChannelKeysDistinct(kind, tlvs[j].id, tlvs[i].id);
      }
    }
    EntriesLastWins(kind, tlvs, i);
  }

  /** In an RC frame the last 4-byte TLV with id 100 decides "timestamp",
      unpacked as '<I'. */
  lemma {:induction false} DecodedTimestamp(tlvs: seq<Tlv>, i: nat)
    requires i < |tlvs| && tlvs[i].id == TimestampId && |tlvs[i].data| == 4
    requires forall j :: i < j < |tlvs| ==> !(tlvs[j].id == TimestampId && |tlvs[j].data| == 4)
    ensures "timestamp" in DecodeSpec(RcFrame, tlvs)
    ensures DecodeSpec(RcFrame, tlvs)["timestamp"] == Num(U32(tlvs[i].data))
  {
    EntriesLastWins(RcFrame, tlvs, i);
  }

  /** One TLV of the loop, as Entries takes it. */
  lemma EntriesStep(kind: FrameType, tlvs: seq<Tlv>, i: nat)
    requires i < |tlvs|
    ensures Entries(kind, tlvs[..i + 1]) ==
      match KeyOf(kind, tlvs[i])
      case Some(key) => Entries(kind, tlvs[..i])[key := Num(ValueOf(tlvs[i]))]
      case None => Entries(kind, tlvs[..i])
  {
    assert tlvs[..i + 1][..i] == tlvs[..i];
  }

  /** decode_rc_data: for a CONFIG or an RC frame, the TLV loop runs until the
      framer has no TLV left; any other frame type decodes to nothing. */
  method Decode(kind: FrameType, tlvs: seq<Tlv>) returns (values: Dict)
    ensures values == DecodeSpec(kind, tlvs)
  {
    values := map[];
    if kind.ConfigFrame? {
      var i := 0;
      while true
        invariant 0 <= i <= |tlvs|
        invariant values == Entries(kind, tlvs[..i])
        decreases |tlvs| - i
      {
        if i == |tlvs| {
          break;
        }
        var t := tlvs[i];
        EntriesStep(kind, tlvs, i);
        if |t.data| == 2 {
          values := values[ChannelKey(t.id, "Config_Ch_") := Num(U16(t.data))];
        }
        i := i + 1;
      }
      assert tlvs[..i] == tlvs;
      values := values["_frame_type" := Str("CONFIG")];
      return;
    } else if kind.RcFrame? {
      var i := 0;
      while true
        invariant 0 <= i <= |tlvs|
        invariant values == Entries(kind, tlvs[..i])
        decreases |tlvs| - i
      {
        if i == |tlvs| {
          break;
        }
        var t := tlvs[i];
        EntriesStep(kind, tlvs, i);
        if t.id == TimestampId && |t.data| == 4 {
          values := values["timestamp" := Num(U32(t.data))];
        } else if |t.data| == 2 {
          values := values[ChannelKey(t.id, "Channel_") := Num(U16(t.data))];
        }
        i := i + 1;
      }
      assert tlvs[..i] == tlvs;
      return;
    }
    return map[];
  }

  /** One complete frame out of the framer. */
  datatype Frame = Frame(kind: FrameType, tlvs: seq<Tlv>)

  /** The arrival stamp: milliseconds masked to 32 bits. */
  function ArrivalStamp(ms: nat): (ts: nat)
    ensures ts < TwoTo32
    ensures ms < TwoTo32 ==> ts == ms
    ensures (ms + TwoTo32) % TwoTo32 == ts
  {
    ms % TwoTo32
  }

  /** The latest data after one decoded frame: replaced by a non-empty result
      with the arrival stamp added, kept otherwise. */
  function Receive(latest: Dict, f: Frame, arrivalMs: nat): Dict {
    var d := DecodeSpec(f.kind, f.tlvs);
    if d == map[] then latest else d["arrival_ts" := Num(ArrivalStamp(arrivalMs))]
  }

  function ReceiveAll(latest: Dict, frames: seq<Frame>, arrivalMs: nat): Dict {
    if frames == [] then latest
    else Receive(ReceiveAll(latest, frames[..|frames| - 1], arrivalMs), frames[|frames| - 1], arrivalMs)
  }

  /** What the latest data always looks like: empty, or stamped. */
  predicate Stamped(d: Dict) {
    d == map[] || ("arrival_ts" in d && d["arrival_ts"].Num? && d["arrival_ts"].n < TwoTo32)
  }

  /** Every frame of a message keeps the latest data stamped, and a message
      whose frames all decode to nothing leaves it as it was. */
  lemma {:induction false} ReceiveAllStamped(latest: Dict, frames: seq<Frame>, arrivalMs: nat)
    requires Stamped(latest)
    ensures Stamped(ReceiveAll(latest, frames, arrivalMs))
    ensures (forall i :: 0 <= i < |frames| ==> DecodeSpec(frames[i].kind, frames[i].tlvs) == map[])
        ==> ReceiveAll(latest, frames, arrivalMs) == latest
  {
    if frames != [] {
      var init := frames[..|frames| - 1];
      ReceiveAllStamped(latest, init, arrivalMs);
      if forall i :: 0 <= i < |frames| ==> DecodeSpec(frames[i].kind, frames[i].tlvs) == map[] {
        forall i | 0 <= i < |init|
          ensures DecodeSpec(init[i].kind, init[i].tlvs) == map[]
        {
          assert init[i] == frames[i];
        }
      }
    }
  }

  /** A frame that decodes to something replaces the latest data outright:
      the result is the decoded dictionary plus the arrival stamp, whatever was
      there before, and the stamp never overwrites a decoded entry. */
  lemma ReceiveReplaces(latest: Dict, f: Frame, arrivalMs: nat)
    requires DecodeSpec(f.kind, f.tlvs) != map[]
    ensures "arrival_ts" !in DecodeSpec(f.kind, f.tlvs)
    ensures Receive(latest, f, arrivalMs) ==
      DecodeSpec(f.kind, f.tlvs)["arrival_ts" := Num(ArrivalStamp(arrivalMs))]
    ensures Receive(latest, f, arrivalMs).Keys == DecodeSpec(f.kind, f.tlvs).Keys + {"arrival_ts"}
  {
    EntriesBounded(f.kind, f.tlvs);
    assert "arrival_ts"[0] == 'a';
  }

  /** A CONFIG frame always replaces the latest data, even one that carries no
      channel, since its "_frame_type" marker makes the decode non-empty. */
  lemma ConfigReplaces(latest: Dict, tlvs: seq<Tlv>, arrivalMs: nat)
    ensures Receive(latest, Frame(ConfigFrame, tlvs), arrivalMs) ==
      DecodeSpec(ConfigFrame, tlvs)["arrival_ts" := Num(ArrivalStamp(arrivalMs))]
    ensures Receive(latest, Frame(ConfigFrame, tlvs), arrivalMs)["_frame_type"] == Str("CONFIG")
  {
    ReceiveReplaces(latest, Frame(ConfigFrame, tlvs), arrivalMs);
  }

  /** The RCDataDecoder object: the latest decoded dictionary. */
  class Receiver {
    var latest: Dict

    constructor ()
      ensures latest == map[]
    {
      latest := map[];
    }

    predicate Valid()
      reads this
    {
      Stamped(latest)
    }

    /** get_latest_data */
    function LatestData(): (d: Dict)
      reads this
      requires Valid()
      ensures d == map[] || ("arrival_ts" in d && d["arrival_ts"].Num? && d["arrival_ts"].n < TwoTo32)
    {
      latest
    }

    /** One binary message of run_receiver: the frames its bytes complete, in
        order, all stamped with the message's arrival time. A text message
        is `None` and is skipped. */
    method OnMessage(frames: Option<seq<Frame>>, arrivalMs: nat)
      requires Valid()
      modifies this
      ensures Valid()
      ensures latest == (if frames.None? then old(latest) else ReceiveAll(old(latest), frames.value, arrivalMs))
    {
      if frames.None? {
        return;
      }
      var fs := frames.value;
      var arrivalTs := ArrivalStamp(arrivalMs);
      for i := 0 to |fs|
        invariant latest == ReceiveAll(old(latest), fs[..i], arrivalMs)
      {
        assert fs[..i + 1][..i] == fs[..i];
        var newData := Decode(fs[i].kind, fs[i].tlvs);
        if newData != map[] {
          newData := newData["arrival_ts" := Num(arrivalTs)];
          latest := newData;
        }
      }
      assert fs[..|fs|] == fs;
      ReceiveAllStamped(old(latest), fs, arrivalMs);
    }
  }
}
