/** Decoding of one digitized ECAL frame: ten packed 16-bit samples per channel.
    Each sample holds a 12-bit ADC amplitude in bits 0-11 and a 2-bit gain
    code in bits 12-13. */
module Samples {

  /** One packed sample as the digitizer delivers it. */
  type Word = bv16

  /** Number of time samples in a frame. */
  const FrameSize: nat := 10

  /** One channel's frame: its detector id and its packed samples. */
  datatype Frame = Frame(id: nat, words: seq<Word>)

  predicate WellSized(f: Frame) {
    |f.words| == FrameSize
  }

  /** A frame after decoding: amplitudes and gains as the analyzer's float
      buffers hold them, the gain-usage mask and the pedestal. */
  datatype Decoded = Decoded(id: nat, pulse: seq<real>, gain: seq<real>, gainmask: bv16, pedestal: real)

  predicate DecodedSized(d: Decoded) {
    |d.pulse| == FrameSize && |d.gain| == FrameSize
  }

  // ---------------------------------------------------------------- bit fields

  /** Bits 0-11 of a sample. */
  function AmplitudeField(w: Word): (b: bv16)
    ensures b <= 0xFFF
  {
    w & 0xFFF
  }

  /** Bits 12-13 of a sample, shifted down. */
  function GainField(w: Word): (b: bv16)
    ensures b <= 3
  {
    (w >> 12) & 3
  }

  /** The two fields partition bits 0-13: putting them back together
      gives the sample with its two top bits cleared. */
  lemma FieldsRepack(w: Word)
    ensures (GainField(w) << 12) | AmplitudeField(w) == w & 0x3FFF
    ensures AmplitudeField(w) & (GainField(w) << 12) == 0
  {
  }

  /** The amplitude of a sample, 0..4095. */
  function Amplitude(w: Word): (a: int)
    ensures 0 <= a <= 4095
  {
    AmplitudeField(w) as int
  }

  /** The gain code of a sample, 0..3. */
  function GainId(w: Word): (g: int)
    ensures 0 <= g <= 3
  {
    GainField(w) as int
  }

  // ---------------------------------------------------------------- gain mask

  /** The mask bit that stands for gain code g. */
  function GainBit(g: int): bv16
    requires 0 <= g <= 3
  {
    (1 as bv16) << g
  }

  /** Whether mask m has the bit of gain code g set. */
  predicate HasGain(m: bv16, g: int)
    requires 0 <= g <= 3
  {
    m & GainBit(g) != 0
  }

  lemma GainBitValue(g: int)
    requires 0 <= g <= 3
    ensures GainBit(g) == if g == 0 then 1 else if g == 1 then 2 else if g == 2 then 4 else 8
  {
    if g == 0 {
    } else if g == 1 {
    } else if g == 2 {
    } else {
    }
  }

  /** Or-ing in the bit of gain h sets exactly that bit. */
  lemma HasGainOr(m: bv16, h: int, g: int)
    requires 0 <= g <= 3 && 0 <= h <= 3
    ensures HasGain(m | GainBit(h), g) <==> HasGain(m, g) || g == h
    ensures m <= 15 ==> m | GainBit(h) <= 15
  {
    GainBitValue(g);
    GainBitValue(h);
  }

  /** The gain-usage mask of a list of samples: the OR of the bits of their
      gain codes, built sample by sample. */
  function GainMask(ws: seq<Word>): (m: bv16)
    ensures m <= 15
    ensures ws != [] ==> m != 0
    decreases |ws|
  {
    if ws == [] then 0
    else
      var h := GainId(ws[|ws| - 1]);
      HasGainOr(GainMask(ws[..|ws| - 1]), h, h);
      GainMask(ws[..|ws| - 1]) | GainBit(h)
  }

  /** The mask has the bit of gain code g set exactly when some sample
      carries gain code g. */
  lemma {:induction false} GainMaskUses(ws: seq<Word>)
    ensures forall g | 0 <= g <= 3 :: HasGain(GainMask(ws), g) <==> exists j | 0 <= j < |ws| :: GainId(ws[j]) == g
    decreases |ws|
  {
    if ws != [] {
      var front := ws[..|ws| - 1];
      var h := GainId(ws[|ws| - 1]);
      GainMaskUses(front);
      forall g | 0 <= g <= 3
        ensures HasGain(GainMask(ws), g) <==> exists j | 0 <= j < |ws| :: GainId(ws[j]) == g
      {
        HasGainOr(GainMask(front), h, g);
        assert forall j | 0 <= j < |front| :: front[j] == ws[j];
        if g == h {
          assert GainId(ws[|ws| - 1]) == g;
        }
      }
    }
  }

  // ---------------------------------------------------------------- pedestal

  /** The sum of a sequence, left to right. */
  function Sum(s: seq<real>): real
    decreases |s|
  {
    if s == [] then 0.0 else Sum(s[..|s| - 1]) + s[|s| - 1]
  }

  lemma {:induction false} SumBounds(s: seq<real>, lo: real, hi: real)
    requires forall i | 0 <= i < |s| :: lo <= s[i] <= hi
    ensures |s| as real * lo <= Sum(s) <= |s| as real * hi
    decreases |s|
  {
    if s != [] {
      SumBounds(s[..|s| - 1], lo, hi);
    }
  }

  /** The mean of the first n entries of s: n times it is their sum. */
  function Mean(s: seq<real>, n: nat): (m: real)
    requires 0 < n <= |s|
    ensures m * n as real == Sum(s[..n])
  {
    Sum(s[..n]) / n as real
  }

  /** The mean of entries that lie in [lo, hi] lies in [lo, hi]. */
  lemma MeanBounds(s: seq<real>, n: nat, lo: real, hi: real)
    requires 0 < n <= |s|
    requires forall i | 0 <= i < |s| :: lo <= s[i] <= hi
    ensures lo <= Mean(s, n) <= hi
  {
    SumBounds(s[..n], lo, hi);
  }

  // ---------------------------------------------------------------- peak

  /** The largest entry of a non-empty sequence. */
  function Peak(s: seq<real>): (m: real)
    requires s != []
    ensures m in s
    ensures forall i | 0 <= i < |s| :: s[i] <= m
    decreases |s|
  {
    if |s| == 1 then s[0]
    else
      var front := Peak(s[..|s| - 1]);
      assert forall i | 0 <= i < |s| - 1 :: s[..|s| - 1][i] == s[i];
      if front < s[|s| - 1] then s[|s| - 1] else front
  }

  // ---------------------------------------------------------------- frames

  /** The amplitudes of a frame as the float buffer holds them. */
  function Pulses(ws: seq<Word>): (p: seq<real>)
    ensures |p| == |ws|
  {
    seq(|ws|, j requires 0 <= j < |ws| => Amplitude(ws[j]) as real)
  }

  /** The gain codes of a frame as the float buffer holds them. */
  function Gains(ws: seq<Word>): (g: seq<real>)
    ensures |g| == |ws|
  {
    seq(|ws|, j requires 0 <= j < |ws| => GainId(ws[j]) as real)
  }

  /** Decoding of one frame with a pedestal taken over the first n samples. */
  function Decode(f: Frame, n: nat): (d: Decoded)
    requires WellSized(f) && 0 < n <= FrameSize
    ensures DecodedSized(d) && d.id == f.id
    ensures d.gainmask != 0 && d.gainmask <= 15
  {
    Decoded(f.id, Pulses(f.words), Gains(f.words), GainMask(f.words), Mean(Pulses(f.words), n))
  }

  /** Each decoded pulse is the sample's amplitude field and each gain its
      gain code; the pedestal is the mean of the first n pulses, and every
      value lies in its field's range. */
  lemma DecodeFields(f: Frame, n: nat)
    requires WellSized(f) && 0 < n <= FrameSize
    ensures var d := Decode(f, n);
      (forall j | 0 <= j < FrameSize ::
         d.pulse[j] == Amplitude(f.words[j]) as real && 0.0 <= d.pulse[j] <= 4095.0 &&
         d.gain[j] == GainId(f.words[j]) as real && 0.0 <= d.gain[j] <= 3.0) &&
      d.pedestal == Mean(d.pulse, n) && 0.0 <= d.pedestal <= 4095.0
  {
    var d := Decode(f, n);
    var p := Pulses(f.words);
    assert d.pulse == p && d.gain == Gains(f.words) && d.pedestal == Mean(p, n);
    MeanBounds(p, n, 0.0, 4095.0);
  }

  /** The decoded mask records exactly the gain codes the frame uses. */
  lemma DecodeGainMask(f: Frame, n: nat)
    requires WellSized(f) && 0 < n <= FrameSize
    ensures forall g | 0 <= g <= 3 ::
      HasGain(Decode(f, n).gainmask, g) <==> exists j | 0 <= j < FrameSize :: GainId(f.words[j]) == g
  {
    GainMaskUses(f.words);
  }

  /** Ten samples 0x1064 decode to amplitude 100 and gain 1 everywhere, the
      mask with only bit 1 set, and a pedestal of 100. */
  lemma DecodeExample(id: nat)
    ensures var d := Decode(Frame(id, seq(FrameSize, _ => 0x1064)), 3);
      d.pulse == seq(FrameSize, _ => 100.0) && d.gain == seq(FrameSize, _ => 1.0) &&
      d.gainmask == 2 && d.pedestal == 100.0
  {
    var ws: seq<Word> := seq(FrameSize, _ => 0x1064);
    var d := Decode(Frame(id, ws), 3);
    assert Amplitude(0x1064) == 100 && GainId(0x1064) == 1;
    assert d.pulse == seq(FrameSize, _ => 100.0);
    assert d.gain == seq(FrameSize, _ => 1.0);
    GainBitValue(1);
    assert d.pulse[..3] == [100.0, 100.0, 100.0];
    assert Sum([100.0, 100.0, 100.0]) == 300.0 by {
      assert [100.0, 100.0, 100.0][..2] == [100.0, 100.0];
      assert [100.0, 100.0][..1] == [100.0];
      assert [100.0][..0] == [];
    }
    assert d.gainmask == 2 by {
      GainMaskConstant(ws, 0x1064);
    }
  }

  /** A frame whose samples are all equal has the single-gain mask. */
  lemma {:induction false} GainMaskConstant(ws: seq<Word>, w: Word)
    requires ws != [] && forall j | 0 <= j < |ws| :: ws[j] == w
    ensures GainMask(ws) == GainBit(GainId(w))
    decreases |ws|
  {
    if |ws| > 1 {
      GainMaskConstant(ws[..|ws| - 1], w);
      GainBitValue(GainId(w));
    } else {
      GainBitValue(GainId(w));
    }
  }

  predicate AllWellSized(fs: seq<Frame>) {
    forall i | 0 <= i < |fs| :: WellSized(fs[i])
  }

  /** Decoding of a list of frames, in order. */
  function DecodeAll(fs: seq<Frame>, n: nat): (ds: seq<Decoded>)
    requires AllWellSized(fs)
    requires 0 < n <= FrameSize
    ensures |ds| == |fs|
    ensures forall i | 0 <= i < |fs| :: ds[i] == Decode(fs[i], n)
    decreases |fs|
  {
    if fs == [] then [] else DecodeAll(fs[..|fs| - 1], n) + [Decode(fs[|fs| - 1], n)]
  }

  /** Decoding a concatenation decodes the parts one after the other. */
  lemma DecodeAllAppend(a: seq<Frame>, b: seq<Frame>, n: nat)
    requires AllWellSized(a) && AllWellSized(b) && 0 < n <= FrameSize
    ensures AllWellSized(a + b)
    ensures DecodeAll(a + b, n) == DecodeAll(a, n) + DecodeAll(b, n)
  {
    assert forall i | 0 <= i < |a + b| :: DecodeAll(a + b, n)[i] == (DecodeAll(a, n) + DecodeAll(b, n))[i];
  }
}
