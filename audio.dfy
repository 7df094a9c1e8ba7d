/**
 * The audio path of the pronunciation helper: the base64-decoded binary
 * string becomes bytes, the bytes are viewed as 16-bit samples (little-endian
 * byte order assumed), and each sample is normalised by 32768 into a mono
 * buffer at 24000 Hz. Base64 decoding itself (section 4 of RFC 4648) is not
 * part of this module: it starts from the decoded binary string.
 */
module Audio {
  import opened Outcomes

  newtype byte = x: int | 0 <= x < 256

  const SampleRate := 24000

  /** Thrown when a view of 16-bit elements is built over an odd number of bytes. */
  const OddLengthError := "byte length of Int16Array should be a multiple of 2"
  /** Thrown when an audio buffer of zero frames is requested. */
  const EmptyBufferError := "The number of frames provided (0) is less than or equal to the minimum bound (0)."

  /** What base64 decoding yields: every character code fits in a byte. */
  predicate IsBinaryString(s: string) {
    forall i | 0 <= i < |s| :: s[i] as int < 256
  }

  /** Storing a character code into a byte array keeps its low eight bits. */
  function ByteOf(c: char): (r: byte)
    ensures c as int < 256 ==> r as int == c as int
    ensures (c as int - r as int) % 256 == 0
  {
    (c as int % 256) as byte
  }

  /** The bytes stored for a binary string: one per character, and for a binary string no information is lost. */
  function BytesOf(binary: string): (r: seq<byte>)
    ensures |r| == |binary|
    ensures IsBinaryString(binary) ==> BinaryStringOf(r) == binary
  {
    seq(|binary|, i requires 0 <= i < |binary| => ByteOf(binary[i]))
  }

  /** The binary string whose character codes are the given bytes. */
  function BinaryStringOf(bytes: seq<byte>): (s: string)
    ensures IsBinaryString(s)
  {
    seq(|bytes|, i requires 0 <= i < |bytes| => bytes[i] as int as char)
  }

  /** For a binary string, byte i is exactly the i-th character code, and the conversion is invertible. */
  lemma BytesOfBinaryString(binary: string)
    requires IsBinaryString(binary)
    ensures |BytesOf(binary)| == |binary|
    ensures forall i | 0 <= i < |binary| :: BytesOf(binary)[i] as int == binary[i] as int
    ensures BinaryStringOf(BytesOf(binary)) == binary
  {
  }

  lemma BinaryStringOfBytes(bytes: seq<byte>)
    ensures BytesOf(BinaryStringOf(bytes)) == bytes
  {
  }

  /** Fills a fresh byte array, one character code at a time. */
  method Decode(binary: string) returns (bytes: array<byte>)
    ensures fresh(bytes)
    ensures bytes[..] == BytesOf(binary)
  {
    bytes := new byte[|binary|];
    for i := 0 to |binary|
      invariant forall k | 0 <= k < i :: bytes[k] == ByteOf(binary[k])
    {
      bytes[i] := ByteOf(binary[i]);
    }
  }

  predicate IsInt16(v: int) {
    -32768 <= v < 32768
  }

  /** Sample i: bytes 2i (low) and 2i+1 (high) read as a two's-complement 16-bit value. */
  function Int16At(bytes: seq<byte>, i: nat): (v: int)
    requires 2 * i + 1 < |bytes|
    ensures IsInt16(v)
    ensures v % 65536 == bytes[2 * i] as int + 256 * bytes[2 * i + 1] as int
  {
    var u := bytes[2 * i] as int + 256 * bytes[2 * i + 1] as int;
    if u < 32768 then u else u - 65536
  }

  /**
   * The 16-bit view of the decoded bytes: it exists only for an even byte
   * length (an odd one throws rather than dropping the last byte), and then
   * has half as many samples as there are bytes.
   */
  function Int16View(bytes: seq<byte>): (r: Outcome<seq<int>>)
    ensures r.Success? <==> |bytes| % 2 == 0
    ensures r.Failure? ==> r.msg == OddLengthError
    ensures r.Success? ==> |r.value| == |bytes| / 2
    ensures r.Success? ==> forall i | 0 <= i < |r.value| :: IsInt16(r.value[i])
  {
    if |bytes| % 2 != 0 then Failure(OddLengthError)
    else Success(seq(|bytes| / 2, i requires 0 <= i < |bytes| / 2 => Int16At(bytes, i)))
  }

  /** Reference encoder: each sample as its low byte followed by its high byte. */
  function LittleEndian(samples: seq<int>): (r: seq<byte>)
    requires forall i | 0 <= i < |samples| :: IsInt16(samples[i])
    ensures |r| == 2 * |samples|
  {
    if samples == [] then []
    else
      var u := samples[0] % 65536;
      [(u % 256) as byte, (u / 256) as byte] + LittleEndian(samples[1..])
  }

  lemma {:induction false} LittleEndianAt(samples: seq<int>, i: nat)
    requires forall k | 0 <= k < |samples| :: IsInt16(samples[k])
    requires i < |samples|
    ensures LittleEndian(samples)[2 * i] as int == samples[i] % 65536 % 256
    ensures LittleEndian(samples)[2 * i + 1] as int == samples[i] % 65536 / 256
  {
    if i > 0 {
      LittleEndianAt(samples[1..], i - 1);
    }
  }

  /** One sample's two bytes read back as a 16-bit value give the sample. */
  lemma SampleRoundTrip(v: int)
    requires IsInt16(v)
    ensures var u := v % 65536; u % 256 + 256 * (u / 256) == u && (if u < 32768 then u else u - 65536) == v
  {
  }

  /** Viewing the encoding of any samples gives those samples back. */
  lemma {:induction false} Int16ViewOfLittleEndian(samples: seq<int>)
    requires forall i | 0 <= i < |samples| :: IsInt16(samples[i])
    ensures Int16View(LittleEndian(samples)) == Success(samples)
  {
    var bytes := LittleEndian(samples);
    var view := Int16View(bytes).value;
    forall i | 0 <= i < |samples| ensures view[i] == samples[i] {
      LittleEndianAt(samples, i);
      SampleRoundTrip(samples[i]);
      assert view[i] == Int16At(bytes, i);
    }
    assert |view| == |samples|;
    assert view == samples;
  }

  /** Encoding the view of any even-length byte sequence gives those bytes back. */
  lemma {:induction false} LittleEndianOfInt16View(bytes: seq<byte>)
    requires |bytes| % 2 == 0
    ensures Int16View(bytes).Success?
    ensures LittleEndian(Int16View(bytes).value) == bytes
  {
    var samples := Int16View(bytes).value;
    var back := LittleEndian(samples);
    forall j | 0 <= j < |bytes| ensures back[j] == bytes[j] {
      var i := j / 2;
      LittleEndianAt(samples, i);
      var lo, hi := bytes[2 * i] as int, bytes[2 * i + 1] as int;
      assert samples[i] % 65536 == lo + 256 * hi;
      assert (lo + 256 * hi) % 256 == lo && (lo + 256 * hi) / 256 == hi;
    }
  }

  /** A sample divided by 32768 (exactly; the buffer's float32 rounding is not modelled). */
  function Normalize(sample: int): (x: real)
    requires IsInt16(sample)
    ensures -1.0 <= x < 1.0
    ensures x * 32768.0 == sample as real
  {
    sample as real / 32768.0
  }

  /** The channel-filling loop: frame i holds sample i normalised. */
  method FillChannel(samples: seq<int>, channel: array<real>)
    requires channel.Length == |samples|
    requires forall i | 0 <= i < |samples| :: IsInt16(samples[i])
    modifies channel
    ensures forall i | 0 <= i < |samples| :: channel[i] == Normalize(samples[i])
  {
    for i := 0 to |samples|
      invariant forall k | 0 <= k < i :: channel[k] == Normalize(samples[k])
    {
      channel[i] := Normalize(samples[i]);
    }
  }

  /**
   * Decodes a binary string into the mono buffer that is handed to playback.
   * It fails for an odd byte count (no truncation) and for an empty payload
   * (a zero-frame buffer cannot be created); otherwise frame i is the i-th
   * little-endian sample over 32768, which lies in [-1, 1).
   */
  method PlayAudio(binary: string) returns (r: Outcome<seq<real>>)
    ensures r.Success? <==> |binary| % 2 == 0 && |binary| > 0
    ensures r.Failure? ==> r.msg == (if |binary| % 2 != 0 then OddLengthError else EmptyBufferError)
    ensures r.Success? ==> |r.value| == |binary| / 2
    ensures r.Success? ==> forall i | 0 <= i < |r.value| :: r.value[i] == Normalize(Int16At(BytesOf(binary), i))
    ensures r.Success? ==> forall i | 0 <= i < |r.value| :: -1.0 <= r.value[i] < 1.0
  {
    var bytes := Decode(binary);
    var view := Int16View(bytes[..]);
    if view.Failure? {
      return Failure(view.msg);
    }
    var frameCount := |view.value|;
    if frameCount == 0 {
      return Failure(EmptyBufferError);
    }
    var channel := new real[frameCount];
    FillChannel(view.value, channel);
    r := Success(channel[..]);
  }
}
