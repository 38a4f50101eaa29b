/** The MP3 duration scanner (packages/functions/src/get-mp3-duration.ts):
    skip an ID3v2 tag (its header is described in section 3.1 of the ID3v2.4.0
    structure document, its footer in section 3.4), then walk MPEG audio frame
    headers (ISO/IEC 11172-3 clause 2.4.2.3), adding up the playing time of
    every frame whose header gives a size and a sample count. The running
    total is an exact rational here, not a double. */
module Mp3 {
  import JsNumber
  import Strings

  type Byte = bv8

  /** A JavaScript value as far as `frameSize`'s `layer === 1` test sees it. */
  datatype JsValue = Str(s: string) | Num(n: int)

  /** `===` between a string and a number is always false. */
  predicate StrictEquals(a: JsValue, b: JsValue) {
    match (a, b)
    case (Str(x), Str(y)) => x == y
    case (Num(x), Num(y)) => x == y
    case _ => false
  }

  const Versions: seq<string> := ["2.5", "x", "2", "1"]
  const Layers: seq<string> := ["x", "3", "2", "1"]

  /** Bit rates in kbit/s by "V" + version + "L" + layer, then by the
      header's bit rate index. */
  const BitRates: map<string, seq<int>> := map[
    "V1Lx" := [0, 0, 0, 0, 0, 0, 0, 0, 0, 0, 0, 0, 0, 0, 0],
    "V1L1" := [0, 32, 64, 96, 128, 160, 192, 224, 256, 288, 320, 352, 384, 416, 448],
    "V1L2" := [0, 32, 48, 56, 64, 80, 96, 112, 128, 160, 192, 224, 256, 320, 384],
    "V1L3" := [0, 32, 40, 48, 56, 64, 80, 96, 112, 128, 160, 192, 224, 256, 320],
    "V2Lx" := [0, 0, 0, 0, 0, 0, 0, 0, 0, 0, 0, 0, 0, 0, 0],
    "V2L1" := [0, 32, 48, 56, 64, 80, 96, 112, 128, 144, 160, 176, 192, 224, 256],
    "V2L2" := [0, 8, 16, 24, 32, 40, 48, 56, 64, 80, 96, 112, 128, 144, 160],
    "V2L3" := [0, 8, 16, 24, 32, 40, 48, 56, 64, 80, 96, 112, 128, 144, 160],
    "VxLx" := [0, 0, 0, 0, 0, 0, 0, 0, 0, 0, 0, 0, 0, 0, 0],
    "VxL1" := [0, 0, 0, 0, 0, 0, 0, 0, 0, 0, 0, 0, 0, 0, 0],
    "VxL2" := [0, 0, 0, 0, 0, 0, 0, 0, 0, 0, 0, 0, 0, 0, 0],
    "VxL3" := [0, 0, 0, 0, 0, 0, 0, 0, 0, 0, 0, 0, 0, 0, 0]]

  /** Sample rates in Hz by version, then by the header's sample rate index. */
  const SampleRates: map<string, seq<int>> := map[
    "x" := [0, 0, 0],
    "1" := [44100, 48000, 32000],
    "2" := [22050, 24000, 16000],
    "2.5" := [11025, 12000, 8000]]

  /** Samples per frame by simplified version, then by layer. */
  const Samples: map<string, map<string, int>> := map[
    "x" := map["x" := 0, "1" := 0, "2" := 0, "3" := 0],
    "1" := map["x" := 0, "1" := 384, "2" := 1152, "3" := 1152],
    "2" := map["x" := 0, "1" := 384, "2" := 1152, "3" := 576]]

  /** `table[i] || 0`: an index past the end reads `undefined`, which
      becomes 0. */
  function EntryOr0(table: seq<int>, i: int): (r: int)
    ensures 0 <= i < |table| ==> r == table[i]
    ensures !(0 <= i < |table|) ==> r == 0
  {
    if 0 <= i < |table| then table[i] else 0
  }

  /** A value used as a property key: a number turns into its decimal text. */
  function KeyText(v: JsValue): string {
    match v
    case Str(s) => s
    case Num(n) => Strings.IntToString(n)
  }

  // ---------------------------------------------------------------------
  // The ID3v2 tag

  /** `skipID3`: the offset of the first frame. A tag starts with "ID3"; its
      size is four bytes of seven bits each, most significant first, which
      counts neither the 10-byte header nor the 10-byte footer that flag
      bit 0x10 announces. A size byte with bit 7 set means no tag. */
  function SkipID3(buffer: seq<Byte>): (r: nat)
    requires |buffer| >= 10
    ensures r == 0 || r >= 10
    ensures buffer[..3] != [0x49, 0x44, 0x33] ==> r == 0
    ensures (buffer[6] | buffer[7] | buffer[8] | buffer[9]) & 0x80 != 0 ==> r == 0
  {
    if buffer[0] == 0x49 && buffer[1] == 0x44 && buffer[2] == 0x33 then
      var footerSize := if buffer[5] & 0x10 != 0 then 10 else 0;
      var z0, z1, z2, z3 := buffer[6], buffer[7], buffer[8], buffer[9];
      if z0 & 0x80 == 0 && z1 & 0x80 == 0 && z2 & 0x80 == 0 && z3 & 0x80 == 0 then
        var tagSize := (z0 & 0x7f) as int * 2097152 + (z1 & 0x7f) as int * 16384 + (z2 & 0x7f) as int * 128 + (z3 & 0x7f) as int;
        10 + tagSize + footerSize
      else 0
    else 0
  }

  lemma LowByte(b: Byte)
    requires b < 0x80
    ensures b & 0x80 == 0 && b & 0x7f == b
  {
  }

  /** A tag header whose four size bytes have bit 7 clear skips exactly
      the header, the size those bytes spell in base 128, and the footer
      when its flag is set. */
  lemma SkipID3Size(z: seq<Byte>, flags: Byte, version: seq<Byte>, rest: seq<Byte>)
    requires |z| == 4 && |version| == 2
    requires forall i :: 0 <= i < 4 ==> z[i] < 0x80
    ensures var buffer := [0x49, 0x44, 0x33] + version + [flags] + z + rest;
      SkipID3(buffer) == 10 + (z[0] as int * 2097152 + z[1] as int * 16384 + z[2] as int * 128 + z[3] as int)
                         + (if flags & 0x10 != 0 then 10 else 0)
  {
    var buffer := [0x49, 0x44, 0x33] + version + [flags] + z + rest;
    assert buffer[..3] == [0x49, 0x44, 0x33] && buffer[5] == flags;
    assert buffer[6] == z[0] && buffer[7] == z[1] && buffer[8] == z[2] && buffer[9] == z[3];
    LowByte(z[0]);
    LowByte(z[1]);
    LowByte(z[2]);
    LowByte(z[3]);
  }

  /** Without the "ID3" marker there is nothing to skip. */
  lemma NoTagNoSkip(buffer: seq<Byte>)
    requires |buffer| >= 10 && buffer[..3] != [0x49, 0x44, 0x33]
    ensures SkipID3(buffer) == 0
  {
  }

  // ---------------------------------------------------------------------
  // Frame headers

  datatype Header = Header(bitRate: int, sampleRate: int, frameSize: int, samples: int)

  /** `frameSize`: the bytes of a frame, truncated by `| 0`; a division by a
      zero sample rate gives Infinity or NaN, which `| 0` turns into 0. */
  function FrameSize(samples: int, layer: JsValue, bitRate: int, sampleRate: int, paddingBit: int): (r: int)
    requires samples >= 0 && bitRate >= 0 && sampleRate >= 0 && 0 <= paddingBit <= 1
    ensures r >= 0
    ensures sampleRate == 0 ==> r == 0
  {
    if sampleRate == 0 then 0
    else if StrictEquals(layer, Num(1)) then (samples * bitRate * 125) / sampleRate + paddingBit * 4
    else (samples * bitRate * 125) / sampleRate + paddingBit
  }

  /** The header's fields, bit by bit. */
  function VersionBits(b1: Byte): (r: nat) ensures r < 4 { ((b1 & 0x18) >> 3) as nat }
  function LayerBits(b1: Byte): (r: nat) ensures r < 4 { ((b1 & 0x06) >> 1) as nat }
  function BitRateIndex(b2: Byte): (r: nat) ensures r < 16 { ((b2 & 0xf0) >> 4) as nat }
  function SampleRateIndex(b2: Byte): (r: nat) ensures r < 4 { ((b2 & 0x0c) >> 2) as nat }
  function PaddingBit(b2: Byte): (r: nat) ensures r < 2 { ((b2 & 0x02) >> 1) as nat }

  /** `"2.5"` becomes the number 2, every other version stays a string. */
  function SimpleVersion(version: string): JsValue {
    if version == "2.5" then Num(2) else Str(version)
  }

  /** `parseFrameHeader`: every table key it builds exists, so the lookups
      are defined; bit rate index 15 and sample rate index 3 fall off their
      tables and read as 0. */
  function ParseFrameHeader(header: seq<Byte>): (h: Header)
    requires |header| >= 3
    ensures h.bitRate >= 0 && h.sampleRate >= 0 && h.samples >= 0 && h.frameSize >= 0
    ensures h.frameSize != 0 ==> h.sampleRate > 0
  {
    var b1, b2 := header[1], header[2];
    var version := Versions[VersionBits(b1)];
    var simpleVersion := SimpleVersion(version);
    var layer := Layers[LayerBits(b1)];
    var bitRateKey := "V" + KeyText(simpleVersion) + "L" + layer;
    TablesCover(VersionBits(b1), LayerBits(b1));
    var bitRate := EntryOr0(BitRates[bitRateKey], BitRateIndex(b2));
    var sampleRate := EntryOr0(SampleRates[version], SampleRateIndex(b2));
    var sample := Samples[KeyText(simpleVersion)][layer];
    Header(bitRate, sampleRate, FrameSize(sample, Str(layer), bitRate, sampleRate, PaddingBit(b2)), sample)
  }

  /** Every version and layer the bits can name has its table entries, and
      every entry is at least 0. */
  lemma TablesCover(v: nat, l: nat)
    requires v < 4 && l < 4
    ensures var version := Versions[v];
      var key := KeyText(SimpleVersion(version));
      && "V" + key + "L" + Layers[l] in BitRates
      && (forall i :: 0 <= i < |BitRates["V" + key + "L" + Layers[l]]| ==> BitRates["V" + key + "L" + Layers[l]][i] >= 0)
      && version in SampleRates
      && (forall i :: 0 <= i < |SampleRates[version]| ==> SampleRates[version][i] >= 0)
      && key in Samples && Layers[l] in Samples[key] && Samples[key][Layers[l]] >= 0
  {
    var key := VersionKey(v);
    var layer := LayerKey(l);
    BitRateCover(key, layer);
  }

  /** The version as `samples` and the bit rate key spell it. */
  lemma VersionKey(v: nat) returns (key: string)
    requires v < 4
    ensures key == KeyText(SimpleVersion(Versions[v])) && key in {"2", "x", "1"}
    ensures Versions[v] in SampleRates && forall i :: 0 <= i < |SampleRates[Versions[v]]| ==> SampleRates[Versions[v]][i] >= 0
    ensures key in Samples && Samples[key].Keys == {"x", "1", "2", "3"}
    ensures forall l :: l in Samples[key] ==> Samples[key][l] >= 0
  {
    if v == 0 {
      key := "2";
    } else if v == 1 {
      key := "x";
    } else if v == 2 {
      key := "2";
    } else {
      key := "1";
    }
  }

  lemma LayerKey(l: nat) returns (layer: string)
    requires l < 4
    ensures layer == Layers[l] && layer in {"x", "1", "2", "3"}
  {
    layer := Layers[l];
  }

  lemma BitRateCover(key: string, layer: string)
    requires key in {"2", "x", "1"} && layer in {"x", "1", "2", "3"}
    ensures "V" + key + "L" + layer in BitRates
    ensures forall i :: 0 <= i < |BitRates["V" + key + "L" + layer]| ==> BitRates["V" + key + "L" + layer][i] >= 0
  {
    var k := "V" + key + "L" + layer;
    assert k == ['V', key[0], 'L', layer[0]];
    assert k in {"V1Lx", "V1L1", "V1L2", "V1L3", "V2Lx", "V2L1", "V2L2", "V2L3", "VxLx", "VxL1", "VxL2", "VxL3"};
  }

  /** The layer reaches `frameSize` as a string, so its `layer === 1` branch,
      which would count the padding slot as four bytes, is never taken: the
      padding always adds one byte, layer I included. */
  lemma PaddingAlwaysOneByte(header: seq<Byte>)
    requires |header| >= 3
    ensures var h := ParseFrameHeader(header);
      h.sampleRate > 0 ==> h.frameSize == (h.samples * h.bitRate * 125) / h.sampleRate + PaddingBit(header[2])
  {
  }

  /** A common header: MPEG-1 Layer III, 128 kbit/s, 44100 Hz, no padding,
      makes a frame of 417 bytes and 1152 samples. */
  lemma ExampleHeader()
    ensures ParseFrameHeader([0xFF, 0xFB, 0x90]) == Header(128, 44100, 417, 1152)
  {
    assert VersionBits(0xFB) == 3 && LayerBits(0xFB) == 1;
    assert BitRateIndex(0x90) == 9 && SampleRateIndex(0x90) == 0 && PaddingBit(0x90) == 0;
    assert Versions[3] == "1" && Layers[1] == "3";
    assert "V" + KeyText(SimpleVersion("1")) + "L" + "3" == "V1L3";
    assert BitRates["V1L3"][9] == 128 && SampleRates["1"][0] == 44100 && Samples["1"]["3"] == 1152;
    assert (1152 * 128 * 125) / 44100 == 417;
  }

  // ---------------------------------------------------------------------
  // The scan

  /** The effect of the ten bytes at the scan offset: how far the scan
      moves and how many seconds of audio it counts. */
  datatype Step = Step(advance: nat, seconds: real)

  predicate IsSync(window: seq<Byte>)
    requires |window| >= 2
  {
    window[0] == 0xff && window[1] & 0xe0 == 0xe0
  }

  /** One pass of the loop body: a frame with a size and a sample count is
      skipped and its samples counted; any other sync, or junk, moves one
      byte; an ID3v1 "TAG" moves 128 bytes. */
  function StepAt(window: seq<Byte>): (s: Step)
    requires |window| == 10
    ensures s.advance >= 1 && s.seconds >= 0.0
    ensures s.seconds > 0.0 ==> IsSync(window)
    ensures !IsSync(window) && window[..3] == [0x54, 0x41, 0x47] ==> s == Step(128, 0.0)
    ensures IsSync(window) && (ParseFrameHeader(window).frameSize == 0 || ParseFrameHeader(window).samples == 0) ==>
      s == Step(1, 0.0)
  {
    if IsSync(window) then
      var header := ParseFrameHeader(window);
      if header.frameSize != 0 && header.samples != 0 then
        QuotientNonNegative(header.samples as real, header.sampleRate as real);
        Step(header.frameSize, header.samples as real / header.sampleRate as real)
      else Step(1, 0.0)
    else if window[0] == 0x54 && window[1] == 0x41 && window[2] == 0x47 then Step(128, 0.0)
    else Step(1, 0.0)
  }

  lemma QuotientNonNegative(x: real, y: real)
    requires x >= 0.0 && y > 0.0
    ensures x / y >= 0.0
  {
  }

  /** The seconds counted from `offset` to the end: the scan stops at the end
      of the buffer or when fewer than ten bytes remain. */
  function ScanFrom(buffer: seq<Byte>, offset: nat): (seconds: real)
    ensures seconds >= 0.0
    decreases |buffer| - offset
  {
    if offset >= |buffer| || |buffer| - offset < 10 then 0.0
    else
      var step := StepAt(buffer[offset..offset + 10]);
      step.seconds + ScanFrom(buffer, offset + step.advance)
  }

  /** `getMp3Duration`'s result, in milliseconds. */
  function Mp3Duration(buffer: seq<Byte>): (ms: int)
    ensures ms >= 0
    ensures |buffer| < 100 ==> ms == 0
  {
    if |buffer| < 100 then 0
    else JsNumber.Round(ScanFrom(buffer, SkipID3(buffer[..100])) * 1000.0)
  }

  /** `getMp3Duration`: the `while` loop over `offset`, accumulating
      `duration`. */
  method GetMp3Duration(buffer: seq<Byte>) returns (ms: int)
    ensures ms == Mp3Duration(buffer)
  {
    if |buffer| < 100 {
      return 0;
    }
    var scratch := buffer[..100];
    var offset := SkipID3(scratch);
    var duration: real := 0.0;
    while offset < |buffer|
      invariant duration + ScanFrom(buffer, offset) == ScanFrom(buffer, SkipID3(buffer[..100]))
      decreases |buffer| - offset
    {
      if |buffer| - offset < 10 {
        return JsNumber.Round(duration * 1000.0);
      }
      ScanStep(buffer, offset);
      offset, duration := ReadWindow(buffer, offset, duration);
    }
    return JsNumber.Round(duration * 1000.0);
  }

  /** The loop body once ten bytes are read at `offset`: a frame moves the
      offset by its size and adds its playing time; a "TAG" moves it by 128;
      anything else by one byte. */
  method ReadWindow(buffer: seq<Byte>, offset0: nat, duration0: real) returns (offset: nat, duration: real)
    requires offset0 + 10 <= |buffer|
    ensures var step := StepAt(buffer[offset0..offset0 + 10]);
      offset == offset0 + step.advance && duration == duration0 + step.seconds
  {
    offset, duration := offset0, duration0;
    var scratch := buffer[offset..offset + 10];
    if scratch[0] == 0xff && scratch[1] & 0xe0 == 0xe0 {
      var header := ParseFrameHeader(scratch);
      if header.frameSize != 0 && header.samples != 0 {
        offset := offset + header.frameSize;
        duration := duration + header.samples as real / header.sampleRate as real;
      } else {
        offset := offset + 1;
      }
    } else if scratch[0] == 0x54 && scratch[1] == 0x41 && scratch[2] == 0x47 {
      offset := offset + 128;
    } else {
      offset := offset + 1;
    }
  }

  /** One turn of the loop: the seconds from `offset` are those of the
      window there and those from where the window sends the scan. */
  lemma ScanStep(buffer: seq<Byte>, offset: nat)
    requires offset + 10 <= |buffer|
    ensures var step := StepAt(buffer[offset..offset + 10]);
      ScanFrom(buffer, offset) == step.seconds + ScanFrom(buffer, offset + step.advance)
  {
  }

  /** A buffer with no sync and no "TAG" anywhere has no duration. */
  lemma {:induction false} NoFramesNoDuration(buffer: seq<Byte>, offset: nat)
    requires forall i :: offset <= i && i + 10 <= |buffer| ==> !(buffer[i] == 0xff && buffer[i + 1] & 0xe0 == 0xe0)
    ensures ScanFrom(buffer, offset) == 0.0
    decreases |buffer| - offset
  {
    if offset < |buffer| && |buffer| - offset >= 10 {
      var window := buffer[offset..offset + 10];
      assert window[0] == buffer[offset] && window[1] == buffer[offset + 1];
      NoFramesNoDuration(buffer, offset + StepAt(window).advance);
    }
  }
}
