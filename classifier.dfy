/** The frame classifier `classify_frame` (mod_amd.c:161-182): the sum of the
    absolute sample values of a frame, divided by the frame's sample count
    scaled down to an 8 kHz reference, compared with `silence_threshold`.

    As written, the loop reads one sample and then skips `number_of_channels`
    more, so it visits the indices 0, c+1, 2(c+1), ... for c channels: the
    stride is `channels + 1`, and the buffer must hold
    `(samples - 1) * (channels + 1) + 1` values. */
module Classifier {
  import opened AmdTypes

  /** `amd_frame_classifier` (mod_amd.c:137-140). */
  datatype Classification = Silence | Voiced

  function Abs(x: int16): nat
  {
    if x < 0 then -(x as int) else x as int
  }

  /** The distance between two samples the walk reads: `j++` followed by
      `j += number_of_channels`. */
  function Stride(codec: Codec): nat
  {
    codec.channels + 1
  }

  /** The buffer index that the walk reads for the k-th sample. */
  function Index(stride: nat, k: nat): nat
  {
    k * stride
  }

  lemma IndexStep(stride: nat, k: nat)
    ensures Index(stride, k + 1) == Index(stride, k) + stride
  {
  }

  /** Every index `Index(stride, k)` with `k < n` lies inside `audio`. */
  predicate Readable(audio: seq<int16>, stride: nat, n: nat)
  {
    n == 0 || Index(stride, n - 1) < |audio|
  }

  lemma ReadableShrinks(audio: seq<int16>, stride: nat, n: nat, k: nat)
    requires Readable(audio, stride, n) && k < n
    ensures Index(stride, k) < |audio| && Readable(audio, stride, k)
  {
    assert k * stride <= (n - 1) * stride;
  }

  /** The accumulated `energy`: the sum of |audio[k * stride]| for k < n.
      It is at most n times the largest magnitude of a 16-bit sample. */
  function Energy(audio: seq<int16>, stride: nat, n: nat): (e: nat)
    requires Readable(audio, stride, n)
    ensures e <= 0x8000 * n
  {
    if n == 0 then 0
    else
      ReadableShrinks(audio, stride, n, n - 1);
      Energy(audio, stride, n - 1) + Abs(audio[Index(stride, n - 1)])
  }

  /** `divisor`: how many times the sample rate exceeds the 8 kHz reference. */
  function Divisor(codec: Codec): nat
  {
    codec.rate / 8000
  }

  /** What the classifier needs to be defined: a non-zero `divisor`
      (rate / 8000), a non-zero `samples / divisor`, and a buffer long enough
      for the strided walk. */
  predicate Classifiable(codec: Codec, f: Frame)
  {
    Divisor(codec) > 0 &&
    f.samples / Divisor(codec) > 0 &&
    Readable(f.data, Stride(codec), f.samples)
  }

  /** The truncated `score` of the frame: the mean magnitude of the visited
      samples, scaled by the divisor. It stays below 65536 times the divisor,
      so the conversion to `uint32_t` is exact whenever the divisor is at
      most 65536. */
  function Score(codec: Codec, f: Frame): (r: nat)
    requires Classifiable(codec, f)
    ensures r < 0x10000 * Divisor(codec)
    ensures r <= Energy(f.data, Stride(codec), f.samples)
  {
    var r := FloorDiv(Energy(f.data, Stride(codec), f.samples), f.samples / Divisor(codec));
    assert r < 0x10000 * Divisor(codec) && r <= Energy(f.data, Stride(codec), f.samples) by {
      ScoreOfFrame(codec, f);
    }
    r
  }

  /** C's unsigned division of a non-negative dividend. */
  function FloorDiv(e: nat, q: nat): nat
    requires q > 0
  {
    e / q
  }

  /** The classification as a value, for the driver's specification: a frame
      is VOICED exactly when its energy reaches `silence_threshold` times the
      number of samples at the 8 kHz reference. */
  function Classify(g: Config, codec: Codec, f: Frame): (c: Classification)
    requires Classifiable(codec, f)
    ensures c == Voiced <==>
      Energy(f.data, Stride(codec), f.samples) >= (f.samples / Divisor(codec)) * g.silenceThreshold
  {
    DivThreshold(Energy(f.data, Stride(codec), f.samples), f.samples / Divisor(codec), g.silenceThreshold);
    if Score(codec, f) >= g.silenceThreshold then Voiced else Silence
  }

  /** `classify_frame`: the accumulating loop over the frame's samples. */
  method ClassifyFrame(g: Config, codec: Codec, f: Frame) returns (c: Classification)
    requires Classifiable(codec, f)
    ensures c == Voiced <==>
      Energy(f.data, Stride(codec), f.samples) / (f.samples / Divisor(codec)) >= g.silenceThreshold
    ensures c == Classify(g, codec, f)
  {
    var divisor := codec.rate / 8000;
    var energy: nat := 0;
    var j: nat := 0;
    for count := 0 to f.samples
      invariant j == Index(Stride(codec), count)
      invariant energy == Energy(f.data, Stride(codec), count)
    {
      ReadableShrinks(f.data, Stride(codec), f.samples, count);
      IndexStep(Stride(codec), count);
      energy := energy + Abs(f.data[j]);
      j := j + 1;
      j := j + codec.channels;
    }
    var score := energy / (f.samples / divisor);
    assert score == Score(codec, f);
    if score >= g.silenceThreshold {
      return Voiced;
    }
    return Silence;
  }

  lemma DivAtLeast(e: nat, q: nat, t: nat)
    requires q > 0 && e >= q * t
    ensures e / q >= t
  {
    assert e == e / q * q + e % q;
    assert (e / q + 1) * q > e;
  }

  lemma DivBelow(e: nat, n: nat, t: nat)
    requires n > 0 && e < n * t
    ensures e / n < t
  {
    assert e / n * n <= e;
  }

  lemma DivNoLarger(n: nat, d: nat)
    requires d > 0
    ensures n / d <= n
  {
    var x := n / d;
    assert x * d + n % d == n;
    MulMono(1, d, x);
  }

  lemma MulMono(a: nat, b: nat, t: nat)
    requires a <= b
    ensures a * t <= b * t
  {
  }

  /** Comparing a floor quotient with t is comparing the dividend with q * t. */
  lemma DivThreshold(e: nat, q: nat, t: nat)
    requires q > 0
    ensures e / q >= t <==> e >= q * t
  {
    if e >= q * t {
      DivAtLeast(e, q, t);
    } else {
      DivBelow(e, q, t);
    }
  }

  lemma ScoreOfFrame(codec: Codec, f: Frame)
    requires Classifiable(codec, f)
    ensures Energy(f.data, Stride(codec), f.samples) / (f.samples / Divisor(codec)) < 0x10000 * Divisor(codec)
    ensures Energy(f.data, Stride(codec), f.samples) / (f.samples / Divisor(codec)) <= Energy(f.data, Stride(codec), f.samples)
  {
    var e: nat, n: nat, d: nat := Energy(f.data, Stride(codec), f.samples), f.samples, Divisor(codec);
    ScoreBound(e, n, d, n / d);
  }

  /** With at most 32768 per sample, the energy of n samples divided by
      n / d stays below 65536 * d. */
  lemma ScoreBound(e: nat, n: nat, d: nat, q: nat)
    requires d > 0 && q == n / d && q > 0 && e <= 0x8000 * n
    ensures e / q < 0x10000 * d && e / q <= e
  {
    assert n == q * d + n % d;
    MulMono(1, q, d);
    assert n < 2 * (q * d);
    assert e < q * (0x10000 * d);
    DivBelow(e, q, 0x10000 * d);
    DivNoLarger(e, q);
  }

  /** If every visited sample has magnitude at least t, the energy is at
      least n * t; if every one is below t, the energy is below n * t. */
  lemma {:induction false} EnergyAgainstLevel(audio: seq<int16>, stride: nat, n: nat, t: nat)
    requires Readable(audio, stride, n)
    ensures (forall k :: 0 <= k < n ==> Index(stride, k) < |audio| && Abs(audio[Index(stride, k)]) >= t) ==>
      Energy(audio, stride, n) >= n * t
    ensures n > 0 && (forall k :: 0 <= k < n ==> Index(stride, k) < |audio| && Abs(audio[Index(stride, k)]) < t) ==>
      Energy(audio, stride, n) < n * t
  {
    if n > 0 {
      ReadableShrinks(audio, stride, n, n - 1);
      EnergyAgainstLevel(audio, stride, n - 1, t);
      assert n * t == (n - 1) * t + t;
    }
  }

  /** The energy depends on the visited samples only. */
  lemma {:induction false} EnergyOnlyReadsStride(a: seq<int16>, b: seq<int16>, stride: nat, n: nat)
    requires Readable(a, stride, n) && Readable(b, stride, n)
    requires forall k :: 0 <= k < n ==>
      Index(stride, k) < |a| && Index(stride, k) < |b| && a[Index(stride, k)] == b[Index(stride, k)]
    ensures Energy(a, stride, n) == Energy(b, stride, n)
  {
    if n > 0 {
      ReadableShrinks(a, stride, n, n - 1);
      ReadableShrinks(b, stride, n, n - 1);
      EnergyOnlyReadsStride(a, b, stride, n - 1);
    }
  }

  /** A frame whose every visited sample reaches the threshold in magnitude
      is VOICED, whatever the sample rate. */
  lemma LoudFrameIsVoiced(g: Config, codec: Codec, f: Frame)
    requires Classifiable(codec, f)
    requires forall k :: 0 <= k < f.samples ==>
      Index(Stride(codec), k) < |f.data| && Abs(f.data[Index(Stride(codec), k)]) >= g.silenceThreshold
    ensures Classify(g, codec, f) == Voiced
  {
    var stride, n, d := Stride(codec), f.samples as nat, Divisor(codec);
    var q := n / d;
    EnergyAgainstLevel(f.data, stride, n, g.silenceThreshold);
    var e := Energy(f.data, stride, n);
    DivNoLarger(n, d);
    MulMono(q, n, g.silenceThreshold);
    DivAtLeast(e, q, g.silenceThreshold);
    assert Score(codec, f) == e / q;
  }

  /** Below 16 kHz the divisor is 1, and a frame whose every visited sample
      stays below the threshold in magnitude is SILENCE. */
  lemma QuietFrameIsSilence(g: Config, codec: Codec, f: Frame)
    requires Classifiable(codec, f) && codec.rate < 16000
    requires forall k :: 0 <= k < f.samples ==>
      Index(Stride(codec), k) < |f.data| && Abs(f.data[Index(Stride(codec), k)]) < g.silenceThreshold
    ensures Classify(g, codec, f) == Silence
  {
    var stride, n := Stride(codec), f.samples as nat;
    assert Divisor(codec) == 1;
    EnergyAgainstLevel(f.data, stride, n, g.silenceThreshold);
    DivBelow(Energy(f.data, stride, n), n, g.silenceThreshold);
  }

  /** Two frames of equal length that agree on the visited samples get the
      same classification: the samples between two visited indices, for
      instance the second channel of a stereo frame or every odd sample of a
      mono frame, never influence the result. */
  lemma ClassifyOnlyReadsStride(g: Config, codec: Codec, f1: Frame, f2: Frame)
    requires Classifiable(codec, f1) && Classifiable(codec, f2) && f1.samples == f2.samples
    requires forall k :: 0 <= k < f1.samples ==>
      Index(Stride(codec), k) < |f1.data| && Index(Stride(codec), k) < |f2.data| &&
      f1.data[Index(Stride(codec), k)] == f2.data[Index(Stride(codec), k)]
    ensures Classify(g, codec, f1) == Classify(g, codec, f2)
  {
    EnergyOnlyReadsStride(f1.data, f2.data, Stride(codec), f1.samples);
  }

  /** A mono frame whose buffer holds exactly `samples` values, as a mono
      frame's does, is too short for the walk once it has two samples:
      the loop's last read, at index 2 * (samples - 1), lies past its end. */
  lemma MonoFrameIsOverRead(codec: Codec, f: Frame)
    requires codec.channels == 1 && f.samples >= 2 && |f.data| == f.samples
    ensures !Readable(f.data, Stride(codec), f.samples)
  {
  }
}
