/** The byte-to-sample half of `decodeAudioData`: the decoded audio bytes are
    read as little-endian signed 16-bit integers (an `Int16Array` over the
    byte buffer) and each integer is scaled by 1/32768 into a mono channel
    at 24000 Hz. Samples are exact reals: every int16 divided by 2^15 is
    representable in the `Float32Array` the source writes to. */
module Pcm {
  import opened Wrappers

  type Byte = b: int | 0 <= b < 256

  const SampleRate: nat := 24000
  const Channels: nat := 1

  /** `audioContext.createBuffer(numChannels, length, sampleRate)` filled with `samples`. */
  datatype AudioBuffer = AudioBuffer(sampleRate: nat, channels: nat, samples: seq<real>)

  predicate IsInt16(v: int) {
    -32768 <= v < 32768
  }

  /** The values an `Int16Array` element can hold. */
  type Int16 = v: int | IsInt16(v)

  /** The signed value of the byte pair `lo`, `hi` in little-endian order. */
  function Int16At(lo: Byte, hi: Byte): (v: Int16)
    ensures v % 65536 == lo + 256 * hi
  {
    var u := lo + 256 * hi;
    if u >= 32768 then u - 65536 else u
  }

  /** The `Int16Array` view of an even-length byte buffer. */
  function Int16s(bytes: seq<Byte>): seq<Int16>
    requires |bytes| % 2 == 0
  {
    if bytes == [] then [] else [Int16At(bytes[0], bytes[1])] + Int16s(bytes[2..])
  }

  /** `value / 32768.0` */
  function Scale(v: int): real {
    v as real / 32768.0
  }

  function ScaleAll(vs: seq<int>): (r: seq<real>)
    ensures |r| == |vs|
  {
    if vs == [] then [] else [Scale(vs[0])] + ScaleAll(vs[1..])
  }

  /** The buffer `decodeAudioData` fills, or `None` where it throws: `new
      Int16Array` rejects an odd byte length, and the Web Audio API's
      `createBuffer` rejects a buffer of zero samples (it requires a length
      of at least 1). */
  function DecodeAudio(bytes: seq<Byte>): Option<AudioBuffer> {
    if |bytes| % 2 != 0 || |bytes| == 0 then None
    else Some(AudioBuffer(SampleRate, Channels, ScaleAll(Int16s(bytes))))
  }

  /** The integer at index `i` of the view comes from bytes `2i` and `2i+1`. */
  lemma {:induction false} Int16sAt(bytes: seq<Byte>, i: int)
    requires |bytes| % 2 == 0 && 0 <= i < |bytes| / 2
    ensures |Int16s(bytes)| == |bytes| / 2
    ensures Int16s(bytes)[i] == Int16At(bytes[2 * i], bytes[2 * i + 1])
    decreases |bytes|
  {
    Int16sLength(bytes);
    if i > 0 {
      Int16sAt(bytes[2..], i - 1);
    }
  }

  lemma {:induction false} Int16sLength(bytes: seq<Byte>)
    requires |bytes| % 2 == 0
    ensures |Int16s(bytes)| == |bytes| / 2
    decreases |bytes|
  {
    if bytes != [] {
      Int16sLength(bytes[2..]);
    }
  }

  lemma {:induction false} ScaleAllAt(vs: seq<int>, i: int)
    requires 0 <= i < |vs|
    ensures ScaleAll(vs)[i] == Scale(vs[i])
    decreases |vs|
  {
    if i > 0 {
      ScaleAllAt(vs[1..], i - 1);
    }
  }

  /** Every scaled int16 lies in [-1, 1). */
  lemma ScaleRange(v: Int16)
    ensures -1.0 <= Scale(v) < 1.0
  {
    assert IsInt16(v);
  }

  /** Decoding fails exactly on odd and on zero lengths; otherwise it yields
      a 24 kHz mono buffer with one sample per byte pair, sample `i` being the
      signed little-endian value of bytes `2i` and `2i+1` over 32768, in [-1, 1). */
  lemma DecodeAudioShape(bytes: seq<Byte>)
    ensures DecodeAudio(bytes).None? <==> |bytes| % 2 == 1 || |bytes| == 0
    ensures DecodeAudio(bytes).Some? ==>
      var b := DecodeAudio(bytes).value;
      && b.sampleRate == 24000 && b.channels == 1
      && |b.samples| == |bytes| / 2
      && (forall i :: 0 <= i < |b.samples| ==>
            b.samples[i] == Int16At(bytes[2 * i], bytes[2 * i + 1]) as real / 32768.0)
      && (forall i :: 0 <= i < |b.samples| ==> -1.0 <= b.samples[i] < 1.0)
  {
    if |bytes| % 2 == 0 && |bytes| > 0 {
      var samples := DecodeAudio(bytes).value.samples;
      Int16sLength(bytes);
      forall i | 0 <= i < |samples|
        ensures samples[i] == Int16At(bytes[2 * i], bytes[2 * i + 1]) as real / 32768.0
        ensures -1.0 <= samples[i] < 1.0
      {
        Int16sAt(bytes, i);
        ScaleAllAt(Int16s(bytes), i);
      }
    }
  }

  /** Decoding a concatenation of even-length buffers decodes each in turn:
      output order follows input order. */
  lemma {:induction false} DecodeAppend(a: seq<Byte>, b: seq<Byte>)
    requires |a| % 2 == 0 && |b| % 2 == 0
    ensures Int16s(a + b) == Int16s(a) + Int16s(b)
    decreases |a|
  {
    if a == [] {
      assert a + b == b;
    } else {
      var ab := a + b;
      assert ab[0] == a[0] && ab[1] == a[1];
      assert ab[2..] == a[2..] + b;
      DecodeAppend(a[2..], b);
      assert Int16s(ab) == [Int16At(a[0], a[1])] + (Int16s(a[2..]) + Int16s(b));
    }
  }

  /** The bytes `Int16Array` stores for each value, two per value, low byte first. */
  function EncodePcm(vs: seq<Int16>): (bytes: seq<Byte>)
    ensures |bytes| == 2 * |vs|
  {
    if vs == [] then []
    else
      var v: int := vs[0];
      var u := if v < 0 then v + 65536 else v;
      assert 0 <= u < 65536;
      var lo: Byte := u % 256;
      var hi: Byte := u / 256;
      [lo, hi] + EncodePcm(vs[1..])
  }

  /** Reading back what was written gives the same integers. */
  lemma {:induction false} DecodeEncode(vs: seq<Int16>)
    ensures Int16s(EncodePcm(vs)) == vs
    decreases |vs|
  {
    if vs != [] {
      var bytes := EncodePcm(vs);
      assert bytes[2..] == EncodePcm(vs[1..]);
      DecodeEncode(vs[1..]);
    }
  }

  /** Writing back what was read gives the same bytes. */
  lemma {:induction false} EncodeDecode(bytes: seq<Byte>)
    requires |bytes| % 2 == 0
    ensures EncodePcm(Int16s(bytes)) == bytes
    decreases |bytes|
  {
    if bytes != [] {
      EncodeDecode(bytes[2..]);
      var vs := Int16s(bytes);
      assert vs[1..] == Int16s(bytes[2..]);
      assert [bytes[0], bytes[1]] + bytes[2..] == bytes;
    }
  }

  lemma EvenDouble(n: nat)
    ensures (2 * n) % 2 == 0
  {
  }

  lemma DecodeAudioEven(bytes: seq<Byte>)
    requires |bytes| % 2 == 0 && |bytes| > 0
    ensures DecodeAudio(bytes) == Some(AudioBuffer(24000, 1, ScaleAll(Int16s(bytes))))
  {
  }

  /** Decoding the encoding of one or more int16 values yields exactly those
      values over 32768. */
  lemma DecodeAudioOfEncoding(vs: seq<Int16>)
    requires vs != []
    ensures DecodeAudio(EncodePcm(vs)) == Some(AudioBuffer(24000, 1, ScaleAll(vs)))
  {
    EvenDouble(|vs|);
    DecodeAudioEven(EncodePcm(vs));
    DecodeEncode(vs);
  }

  /** Encoding no values gives no bytes, and no bytes give no buffer. */
  lemma DecodeAudioOfNothing()
    ensures EncodePcm([]) == [] && DecodeAudio(EncodePcm([])).None?
  {
  }

  /** The decoding loop of `decodeAudioData`, one sample per byte pair. */
  method DecodePcm(bytes: seq<Byte>) returns (r: Option<AudioBuffer>)
    ensures r == DecodeAudio(bytes)
  {
    if |bytes| % 2 != 0 {
      return None;
    }
    var n := |bytes| / 2;
    if n == 0 {
      return None;
    }
    var samples: seq<real> := [];
    var i := 0;
    Int16sLength(bytes);
    while i < n
      invariant 0 <= i <= n
      invariant |samples| == i
      invariant forall k :: 0 <= k < i ==> samples[k] == ScaleAll(Int16s(bytes))[k]
    {
      Int16sAt(bytes, i);
      ScaleAllAt(Int16s(bytes), i);
      samples := samples + [Int16At(bytes[2 * i], bytes[2 * i + 1]) as real / 32768.0];
      i := i + 1;
    }
    assert samples == ScaleAll(Int16s(bytes));
    return Some(AudioBuffer(SampleRate, Channels, samples));
  }
}
